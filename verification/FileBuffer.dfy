// The buffered binary file: typed writes go to a block buffer that is
// checksummed and handed to the compressor when it fills, typed reads take the
// bytes back.
module FileBuffer {
  import opened Adler
  import opened Codec

  const SPILL_SIZE: nat := 65536
  const BLOCK_SIZE: nat := SPILL_SIZE - SPILL_SIZE / 16

  // What is handed to the compressor; `end` marks the end of the stream.
  datatype Block = Block(bytes: seq<u8>, end: bool)

  function Payload(blocks: seq<Block>): seq<u8> {
    if blocks == [] then [] else Payload(blocks[..|blocks| - 1]) + blocks[|blocks| - 1].bytes
  }

  lemma PayloadSnoc(blocks: seq<Block>, b: Block)
    ensures Payload(blocks + [b]) == Payload(blocks) + b.bytes
  {
    assert (blocks + [b])[..|blocks|] == blocks;
  }

  // ---------------------------------------------------------------- writing

  class Writer {
    const wbuf: array<u8>
    var wpend: nat
    var wtotal: nat
    var s1: u32
    var s2: u32
    var blocks: seq<Block>

    ghost predicate Valid()
      reads this, wbuf
    {
      && wbuf.Length == SPILL_SIZE && wpend <= BLOCK_SIZE
      && wtotal == |Payload(blocks)|
      && s1 < 65521 && s2 < 65521 && Sums(s1 as nat, s2 as nat) == Adler32(Sums(1, 0), Payload(blocks))
      && forall n :: 0 <= n < |blocks| ==> 0 < |blocks[n].bytes| <= BLOCK_SIZE
    }

    // Open for writing: nothing is marked as the end, and a flush is always followed by more bytes.
    ghost predicate Open()
      reads this, wbuf
    {
      Valid() && (forall n :: 0 <= n < |blocks| ==> !blocks[n].end) && (wpend == 0 ==> blocks == [])
    }

    // Everything written so far.
    ghost function Data(): seq<u8>
      reads this, wbuf
      requires Valid()
    {
      Payload(blocks) + wbuf[..wpend]
    }

    constructor ()
      ensures Open() && Data() == [] && fresh(wbuf)
    {
      wbuf := new u8[SPILL_SIZE](_ => 0);
      wpend, wtotal, s1, s2, blocks := 0, 0, 1, 0, [];
    }

    method MaybeFlush(more: nat, end: bool)
      requires Valid() && more <= BLOCK_SIZE
      modifies this
      ensures Valid() && Data() == old(Data()) && wpend + more <= BLOCK_SIZE
      ensures if old(wpend) + more > BLOCK_SIZE then wpend == 0
              && blocks == old(blocks) + [Block(old(wbuf[..wpend]), end)]
              else wpend == old(wpend) && blocks == old(blocks)
    {
      if wpend + more > BLOCK_SIZE {
        Blockwise(Sums(1, 0), Payload(blocks), wbuf[..wpend]);
        PayloadSnoc(blocks, Block(wbuf[..wpend], end));
        s1, s2 := Update(s1, s2, wbuf[..wpend]);
        blocks := blocks + [Block(wbuf[..wpend], end)];
        wtotal := wtotal + wpend;
        wpend := 0;
      }
    }

    method PutByte(b: u8)
      requires Valid() && wpend < BLOCK_SIZE
      modifies this`wpend, wbuf
      ensures Valid() && wpend == old(wpend) + 1 && Data() == old(Data()) + [b]
    {
      wbuf[wpend] := b;
      wpend := wpend + 1;
      assert wbuf[..wpend] == old(wbuf[..wpend]) + [b];
    }

    method PutLeb(v: nat)
      requires Valid() && wpend + |Leb(v)| <= BLOCK_SIZE
      modifies this`wpend, wbuf
      ensures Valid() && wpend > old(wpend) && Data() == old(Data()) + Leb(v)
    {
      var val, more := v, true;
      while more
        invariant Valid() && old(wpend) <= wpend
        invariant if more then Data() + Leb(val) == old(Data()) + Leb(v) && wpend + |Leb(val)| <= BLOCK_SIZE
                  else Data() == old(Data()) + Leb(v) && wpend > old(wpend)
        decreases more, val
      {
        var enc := val % 128;
        ghost var data, rest := Data(), Leb(val / 128);
        assert val >= 128 ==> Leb(val) == [(enc + 128) as u8] + rest;
        val := val / 128;
        if val != 0 { enc := enc + 128; }
        PutByte(enc as u8);
        more := val != 0;
        assert data + ([enc as u8] + rest) == data + [enc as u8] + rest;
      }
    }

    method PutUInt(v: nat)
      requires Open() && v < TWO64
      modifies this, wbuf
      ensures Open() && Data() == old(Data()) + Leb(v)
    {
      MaybeFlush(10, false);
      LebFits(v);
      PutLeb(v);
    }

    method PutInt(v: int)
      requires Open() && IsInt64(v)
      modifies this, wbuf
      ensures Open() && Data() == old(Data()) + Leb(ZigZag(v))
    {
      PutUInt(ZigZag(v));
    }

    // write_u8, write_u16, write_u32 and write_u64, low byte first.
    method WriteFixed(u: nat, k: nat)
      requires Open() && 0 < k <= 8
      modifies this, wbuf
      ensures Open() && Data() == old(Data()) + Fixed(u, k)
    {
      MaybeFlush(k, false);
      var val, n := u, 0;
      ghost var start, flushed := wpend, blocks;
      while n < k
        invariant Valid() && n <= k && wpend == start + n && blocks == flushed
        invariant Data() + Fixed(val, k - n) == old(Data()) + Fixed(u, k)
      {
        ghost var data, rest := Data(), Fixed(val / 256, k - n - 1);
        PutByte((val % 256) as u8);
        assert data + ([(val % 256) as u8] + rest) == data + [(val % 256) as u8] + rest;
        val, n := val / 256, n + 1;
      }
    }

    method PutBytes(bytes: seq<u8>)
      requires Valid() && wpend + |bytes| <= BLOCK_SIZE
      modifies this`wpend, wbuf
      ensures Valid() && wpend == old(wpend) + |bytes| && Data() == old(Data()) + bytes
    {
      for n := 0 to |bytes|
        invariant Valid() && wpend == old(wpend) + n && Data() == old(Data()) + bytes[..n]
      {
        PutByte(bytes[n]);
        assert bytes[..n + 1] == bytes[..n] + [bytes[n]];
      }
      assert bytes[..|bytes|] == bytes;
    }

    method WriteRaw(bytes: seq<u8>)
      requires Open() && |bytes| <= BLOCK_SIZE
      modifies this, wbuf
      ensures Open() && Data() == old(Data()) + bytes
    {
      MaybeFlush(|bytes|, false);
      PutBytes(bytes);
    }

    // The last block of a file that is not empty, and no other, is marked as its end.
    method Close() returns (total: nat, sum1: u32, sum2: u32)
      requires Open()
      modifies this
      ensures Valid() && Payload(blocks) == old(Data()) && total == |old(Data())|
      ensures Sums(sum1 as nat, sum2 as nat) == Adler32(Sums(1, 0), old(Data()))
      ensures EndsOnce(blocks) && (blocks == [] <==> old(Data()) == [])
    {
      MaybeFlush(BLOCK_SIZE, true);
      assert wbuf[..0] == [];
      return wtotal, s1, s2;
    }
  }

  ghost predicate EndsOnce(blocks: seq<Block>) {
    forall n :: 0 <= n < |blocks| ==> (blocks[n].end <==> n == |blocks| - 1)
  }

  // ---------------------------------------------------------------- reading

  // The decompressed file and the read position.
  class Reader {
    const rbuf: seq<u8>
    var rptr: nat

    ghost predicate Valid()
      reads this
    {
      rptr <= |rbuf|
    }

    ghost function Rest(): seq<u8>
      reads this
      requires Valid()
    {
      rbuf[rptr..]
    }

    constructor (bytes: seq<u8>)
      ensures Valid() && rbuf == bytes && Rest() == bytes
    {
      rbuf, rptr := bytes, 0;
    }

    // Bits that do not fit in 64 are lost.
    method GetUInt(ghost n: nat) returns (val: nat)
      requires Valid() && Ended(Rest(), n)
      modifies this
      ensures Valid() && rptr == old(rptr) + n && val == LebValue(old(Rest())[..n]) % TWO64
    {
      ghost var bytes := Rest();
      var b0 := rbuf[rptr];
      rptr := rptr + 1;
      if b0 < 128 {
        assert bytes[..1] == [b0] && [b0][1..] == [];
        return b0 as nat;
      }
      val := b0 as nat % 128;
      var weight := 128;
      ghost var k: nat := 1;
      var byte := b0;
      assert bytes[..1] == [b0] && [b0][1..] == [];
      while byte >= 128
        invariant Valid() && 0 < k <= n && rptr == old(rptr) + k && byte == bytes[k - 1] && weight == Power(128, k)
        invariant val == LebValue(bytes[..k]) % TWO64
        decreases n - k
      {
        byte := rbuf[rptr];
        rptr := rptr + 1;
        LebSnoc(bytes[..k], byte);
        assert bytes[..k + 1] == bytes[..k] + [byte];
        KeepLow(LebValue(bytes[..k]), (byte as nat % 128) * weight);
        val := (val + (byte as nat % 128) * weight) % TWO64;
        weight := 128 * weight;
        k := k + 1;
      }
    }

    // read_u8, read_u16, read_u32 and read_u64.
    method ReadFixed(k: nat) returns (val: nat)
      requires Valid() && k <= |Rest()|
      modifies this
      ensures Valid() && rptr == old(rptr) + k && val == FixedValue(old(Rest())[..k])
    {
      ghost var bytes := Rest();
      val := 0;
      var weight, n := 1, 0;
      while n < k
        invariant Valid() && n <= k && rptr == old(rptr) + n && weight == Power(256, n)
        invariant val == FixedValue(bytes[..n])
      {
        FixedSnoc(bytes[..n], rbuf[rptr]);
        assert bytes[..n + 1] == bytes[..n] + [rbuf[rptr]];
        val := val + rbuf[rptr] as nat * weight;
        weight, rptr, n := 256 * weight, rptr + 1, n + 1;
      }
    }

    method ReadRaw(len: nat) returns (bytes: seq<u8>)
      requires Valid() && len <= |Rest()|
      modifies this
      ensures Valid() && rptr == old(rptr) + len && bytes == old(Rest())[..len]
    {
      bytes := rbuf[rptr..rptr + len];
      rptr := rptr + len;
    }

    method GetLeb(ghost v: nat, ghost rest: seq<u8>) returns (val: nat)
      requires Valid() && v < TWO64 && Rest() == Leb(v) + rest
      modifies this
      ensures Valid() && val == v && Rest() == rest
    {
      LebRoundTrip(v);
      ghost var bytes := Rest();
      assert bytes[..|Leb(v)|] == Leb(v);
      assert forall i :: 0 <= i < |Leb(v)| ==> bytes[i] == Leb(v)[i];
      val := GetUInt(|Leb(v)|);
      assert Rest() == bytes[|Leb(v)|..];
    }

    method GetFixed(ghost w: nat, k: nat, ghost rest: seq<u8>) returns (val: nat)
      requires Valid() && w < Power(256, k) && Rest() == Fixed(w, k) + rest
      modifies this
      ensures Valid() && val == w && Rest() == rest
    {
      FixedRoundTrip(w, k);
      ghost var bytes := Rest();
      assert bytes[..k] == Fixed(w, k);
      val := ReadFixed(k);
      assert Rest() == bytes[k..];
    }

    method GetBytes(ghost b: seq<u8>, len: nat, ghost rest: seq<u8>) returns (bytes: seq<u8>)
      requires Valid() && len == |b| && Rest() == b + rest
      modifies this
      ensures Valid() && bytes == b && Rest() == rest
    {
      ghost var all := Rest();
      assert all[..len] == b;
      bytes := ReadRaw(len);
      assert Rest() == all[len..];
    }

    // Reads back what an item of the same kind wrote.
    method Get(kind: Item, ghost item: Item, ghost rest: seq<u8>) returns (r: Item)
      requires Valid() && Fits(item) && SameKind(kind, item) && Rest() == Encode(item) + rest
      modifies this
      ensures Valid() && r == item && Rest() == rest
    {
      match kind
      case UInt(_) =>
        var u := GetLeb(item.u, rest);
        r := UInt(u);
      case Int(_) =>
        ZigZagRoundTrip(item.i);
        var z := GetLeb(ZigZag(item.i), rest);
        r := Int(UnZigZag(z));
      case Word(_, k) =>
        var w := GetFixed(item.w, k, rest);
        r := Word(w, k);
      case Raw(b) =>
        var bytes := GetBytes(item.bytes, |b|, rest);
        r := Raw(bytes);
    }
  }

  lemma KeepLow(x: nat, y: nat)
    ensures (x % TWO64 + y) % TWO64 == (x + y) % TWO64
  {
  }

  lemma {:induction false} FixedSnoc(bytes: seq<u8>, b: u8)
    ensures FixedValue(bytes + [b]) == FixedValue(bytes) + b as nat * Power(256, |bytes|)
  {
    if bytes == [] {
      assert ([] + [b])[1..] == [];
    } else {
      FixedSnoc(bytes[1..], b);
      assert (bytes + [b])[1..] == bytes[1..] + [b];
      Regroup(FixedValue(bytes[1..]), b as nat, Power(256, |bytes| - 1));
    }
  }

  lemma Regroup(x: nat, d: nat, p: nat)
    ensures 256 * (x + d * p) == 256 * x + d * (256 * p)
  {
  }

  // ---------------------------------------------------------------- whole files

  // One typed write.
  datatype Item = UInt(u: nat) | Int(i: int) | Word(w: nat, size: nat) | Raw(bytes: seq<u8>)

  predicate Fits(x: Item) {
    match x
    case UInt(u) => u < TWO64
    case Int(i) => IsInt64(i)
    case Word(w, k) => 0 < k <= 8 && w < Power(256, k)
    case Raw(bytes) => |bytes| <= BLOCK_SIZE
  }

  // The reader knows what to ask for, and how long a raw item is.
  predicate SameKind(x: Item, y: Item) {
    match x
    case UInt(_) => y.UInt?
    case Int(_) => y.Int?
    case Word(_, k) => y.Word? && y.size == k
    case Raw(b) => y.Raw? && |y.bytes| == |b|
  }

  function Encode(x: Item): seq<u8>
    requires Fits(x)
  {
    match x
    case UInt(u) => Leb(u)
    case Int(i) => Leb(ZigZag(i))
    case Word(w, k) => Fixed(w, k)
    case Raw(bytes) => bytes
  }

  ghost predicate AllFit(items: seq<Item>) { forall n :: 0 <= n < |items| ==> Fits(items[n]) }

  function EncodeAll(items: seq<Item>): seq<u8>
    requires AllFit(items)
  {
    if items == [] then [] else Encode(items[0]) + EncodeAll(items[1..])
  }

  lemma {:induction false} EncodeSnoc(items: seq<Item>, x: Item)
    requires AllFit(items) && Fits(x)
    ensures EncodeAll(items + [x]) == EncodeAll(items) + Encode(x)
  {
    if items == [] {
      assert ([] + [x])[1..] == [];
    } else {
      EncodeSnoc(items[1..], x);
      assert (items + [x])[1..] == items[1..] + [x];
    }
  }

  method WriteItem(f: Writer, x: Item)
    requires f.Open() && Fits(x)
    modifies f, f.wbuf
    ensures f.Open() && f.Data() == old(f.Data()) + Encode(x)
  {
    match x
    case UInt(u) => f.PutUInt(u);
    case Int(i) => f.PutInt(i);
    case Word(w, k) => f.WriteFixed(w, k);
    case Raw(bytes) => f.WriteRaw(bytes);
  }

  method WriteAll(items: seq<Item>) returns (f: Writer)
    requires AllFit(items)
    ensures fresh(f) && fresh(f.wbuf) && f.Open() && f.Data() == EncodeAll(items)
  {
    f := new Writer();
    for n := 0 to |items|
      invariant fresh(f) && fresh(f.wbuf) && f.Open() && f.Data() == EncodeAll(items[..n])
    {
      WriteItem(f, items[n]);
      EncodeSnoc(items[..n], items[n]);
      assert items[..n + 1] == items[..n] + [items[n]];
    }
    assert items[..|items|] == items;
  }

  method ReadAll(f: Reader, kinds: seq<Item>, ghost items: seq<Item>) returns (r: seq<Item>)
    requires f.Valid() && AllFit(items) && f.Rest() == EncodeAll(items)
    requires |kinds| == |items| && forall n :: 0 <= n < |kinds| ==> SameKind(kinds[n], items[n])
    modifies f
    ensures f.Valid() && r == items && f.Rest() == []
  {
    r := [];
    for n := 0 to |kinds|
      invariant f.Valid() && r == items[..n] && f.Rest() == EncodeAll(items[n..])
    {
      assert items[n..][1..] == items[n + 1..];
      var x := f.Get(kinds[n], items[n], EncodeAll(items[n + 1..]));
      r := r + [x];
    }
  }

  // Any sequence of writes is read back unchanged: the blocks, each of at most
  // BLOCK_SIZE bytes, hold exactly its encoding, and the sum taken block by block
  // on writing is the sum of the whole on reading.
  method RoundTrip(items: seq<Item>) returns (r: seq<Item>, blocks: seq<Block>, stored: (u32, u32), actual: (u32, u32))
    requires AllFit(items)
    ensures r == items && Payload(blocks) == EncodeAll(items)
    ensures EndsOnce(blocks) && forall n :: 0 <= n < |blocks| ==> 0 < |blocks[n].bytes| <= BLOCK_SIZE
    ensures stored == actual
  {
    var w := WriteAll(items);
    var total, s1, s2 := w.Close();
    blocks := w.blocks;
    stored := (s1, s2);
    var f := new Reader(Payload(blocks));
    var t1, t2 := UpdateAvx2(1, 0, f.rbuf);
    actual := (t1, t2);
    r := ReadAll(f, items, items);
  }
}
