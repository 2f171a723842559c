// Two small files, byte for byte.
module FileExamples {
  import opened Options
  import opened Adler
  import opened Codec
  import Locations
  import IdentCodec

  lemma Small(v: nat)
    requires v < 128
    ensures Leb(v) == [v as u8]
  {
  }

  lemma Longer(v: nat, low: u8, rest: seq<u8>)
    requires v >= 128 && low as nat == v % 128 + 128 && Leb(v / 128) == rest
    ensures Leb(v) == [low] + rest
  {
  }

  // The difference -1 travels as 2^32 - 1.
  lemma MinusOne()
    ensures Leb(ZigZag(0xffff_ffff)) == [254, 255, 255, 255, 31]
  {
    assert ZigZag(0xffff_ffff) == 8589934590;
    Small(31);
    Longer(4095, 255, [31]);
    Longer(524287, 255, [255, 31]);
    Longer(67108863, 255, [255, 255, 31]);
    Longer(8589934590, 254, [255, 255, 255, 31]);
  }

  lemma Byte(v: nat)
    requires v < 64
    ensures Leb(ZigZag(v)) == [(2 * v) as u8]
  {
  }

  // One file named "a", a location on line 3, and one on line 2 that is otherwise equal.
  lemma TwoLocations()
    ensures Locations.Encoded([[0x61]], [Locations.Loc(3, 5, 1, 2, 0), Locations.Loc(2, 5, 1, 2, 0)]) ==
            [0x0f, 0xf0, 1, 2, 0x61, 0] + [0, 6, 2, 10, 4] + [0, 254, 255, 255, 255, 31, 0, 0, 0]
  {
    var a, b := Locations.Loc(3, 5, 1, 2, 0), Locations.Loc(2, 5, 1, 2, 0);
    Index();
    First(a);
    Second(a, b);
    assert [a, b][1..] == [b] && [b][1..] == [];
    assert Locations.LocsBytes(b, []) == [];
    assert Locations.LocsBytes(a, [b]) == Locations.LocBytes(a, b) + [];
  }

  lemma First(a: Locations.Loc)
    requires a == Locations.Loc(3, 5, 1, 2, 0)
    ensures Locations.LocBytes(Locations.ZERO, a) == [0, 6, 2, 10, 4]
  {
    Byte(3);
    Byte(1);
    Byte(5);
    Byte(2);
    Small(0);
  }

  lemma Second(a: Locations.Loc, b: Locations.Loc)
    requires a == Locations.Loc(3, 5, 1, 2, 0) && b == Locations.Loc(2, 5, 1, 2, 0)
    ensures Locations.LocBytes(a, b) == [0, 254, 255, 255, 255, 31, 0, 0, 0]
  {
    assert Locations.Diff(b.line, a.line) == 0xffff_ffff;
    MinusOne();
    Byte(0);
    Small(0);
  }

  lemma Index()
    ensures Locations.IndexBytes([[0x61]]) == [0x0f, 0xf0, 1, 2, 0x61, 0]
  {
    assert [[0x61]][1..] == [];
    Small(1);
    Small(2);
    assert Fixed(0xf00f, 2) == [0x0f] + Fixed(0xf0, 1) && Fixed(0xf0, 1) == [0xf0] + Fixed(0, 0);
  }

  function Ab(): IdentCodec.Name { [0x61, 0x62] }

  // No identifier, the identifier "ab", and the same again.
  function Written(): IdentCodec.World {
    var w := IdentCodec.World(map[], [IdentCodec.BEGIN]);
    IdentCodec.Write(IdentCodec.Write(IdentCodec.Write(w, 0, None), 0, Some(Ab())), 0, Some(Ab()))
  }

  lemma WrittenRecords()
    ensures |Written().contexts| == 1
    ensures Written().contexts[0].records ==
            [IdentCodec.Index(1), IdentCodec.Define(0xffff_fffe, Ab()), IdentCodec.Index(2)]
  {
    var w0 := IdentCodec.World(map[], [IdentCodec.BEGIN]);
    var w1 := IdentCodec.Write(w0, 0, None);
    var w2 := IdentCodec.Write(w1, 0, Some(Ab()));
    assert w1.contexts[0].records == [IdentCodec.Index(1)];
    assert w2.contexts[0].records == [IdentCodec.Index(1), IdentCodec.Define(0xffff_fffe, Ab())];
  }

  lemma ThreeIdentifiers()
    ensures |Written().contexts| == 1 && IdentCodec.AllSound(Written().contexts[0].records)
    ensures IdentCodec.Bytes(Written().contexts[0].records) == [2] + [252, 255, 255, 255, 31, 0x61, 0x62] + [4]
  {
    var recs := [IdentCodec.Index(1), IdentCodec.Define(0xffff_fffe, Ab()), IdentCodec.Index(2)];
    WrittenRecords();
    Byte(1);
    Byte(2);
    MinusTwo();
    assert recs[1..] == [recs[1], recs[2]] && recs[1..][1..] == [recs[2]] && [recs[2]][1..] == [];
    assert IdentCodec.Bytes([]) == [];
    assert IdentCodec.Bytes([recs[2]]) == [4];
    assert IdentCodec.Bytes(recs[1..]) == [252, 255, 255, 255, 31, 0x61, 0x62] + [4];
  }

  lemma MinusTwo()
    ensures Leb(ZigZag(0xffff_fffe)) == [252, 255, 255, 255, 31]
  {
    assert ZigZag(0xffff_fffe) == 8589934588;
    Small(31);
    Longer(4095, 255, [31]);
    Longer(524287, 255, [255, 31]);
    Longer(67108863, 255, [255, 255, 31]);
    Longer(8589934588, 252, [255, 255, 255, 31]);
  }
}
