// Identifiers in binary files: the first time one is written its bytes are, and
// after that a reference to it. The mark that tells the two apart sits in the
// shared identifier, so writers working at the same time overwrite each other's.
module IdentCodec {
  import opened Options
  import opened Adler
  import opened Codec
  import opened FileBuffer

  type Name = seq<u8>

  // An identifier that can be written: not empty, no NUL, at most one block long.
  predicate Writable(x: Name) { 0 < |x| <= BLOCK_SIZE && 0 !in x }

  // ---------------------------------------------------------------- writing

  // Generation 0 is that of an identifier never written.
  datatype Mark = Mark(gen: nat, index: nat)

  // What one call writes: an integer, and the bytes when the identifier is new.
  datatype Record = Index(i: int) | Define(i: int, bytes: Name)

  // A writing context; `written` is what it was asked to write.
  datatype Context = Context(next: nat, records: seq<Record>, written: seq<Option<Name>>)

  // All identifiers' marks and all contexts: the generation of contexts[n] is n + 1.
  datatype World = World(marks: map<Name, Mark>, contexts: seq<Context>)

  const BEGIN := Context(1, [], [])

  function MarkOf(w: World, x: Name): Mark { if x in w.marks then w.marks[x] else Mark(0, 0) }

  // ident_write; the arithmetic is on 32-bit unsigned values.
  function RecordOf(w: World, n: nat, id: Option<Name>): Record
    requires n < |w.contexts|
  {
    match id
    case None => Index(1)
    case Some(x) => if MarkOf(w, x).gen == n + 1 then Index((MarkOf(w, x).index + 1) % TWO32)
        else Define((TWO32 - |x|) % TWO32, x)
  }

  function Write(w: World, n: nat, id: Option<Name>): World
    requires n < |w.contexts|
  {
    var c, rec := w.contexts[n], RecordOf(w, n, id);
    var next := if rec.Define? then c.next + 1 else c.next;
    World(if rec.Define? then w.marks[rec.bytes := Mark(n + 1, c.next)] else w.marks,
          w.contexts[n := Context(next, c.records + [rec], c.written + [id])])
  }

  datatype Call = Open | Put(n: nat, id: Option<Name>)

  // The 16-bit generation counter must not wrap, which the source asserts.
  predicate Allowed(w: World, call: Call) {
    match call
    case Open => |w.contexts| < 0xffff
    case Put(n, id) => n < |w.contexts| && (id.Some? ==> Writable(id.value))
  }

  function Step(w: World, call: Call): World
    requires Allowed(w, call)
  {
    match call
    case Open => w.(contexts := w.contexts + [BEGIN])
    case Put(n, id) => Write(w, n, id)
  }

  // ---------------------------------------------------------------- reading

  // Corrupt is the fatal error of the source. Astray: it goes on to take this many
  // bytes of other records for an identifier.
  datatype Reading = Corrupt | Astray(length: nat) | Reading(cache: seq<Option<Name>>, out: seq<Option<Name>>)

  function ToInt32(i: int): int { var u := i % TWO32; if u < 0x8000_0000 then u else u - TWO32 }

  // The bytes up to the first NUL.
  function CString(b: seq<u8>): Name { if b == [] || b[0] == 0 then [] else [b[0]] + CString(b[1..]) }

  lemma {:induction false} NoNul(b: seq<u8>)
    requires 0 !in b
    ensures CString(b) == b
  {
    if b != [] { NoNul(b[1..]); }
  }

  // ident_read; the record holds the integer and the bytes that follow it.
  function Read(r: Reading, rec: Record): Reading
    requires r.Reading?
  {
    var index := ToInt32(rec.i);
    if index < 0 then
      if rec.Define? && |rec.bytes| == -index
      then Reading(r.cache + [Some(CString(rec.bytes))], r.out + [Some(CString(rec.bytes))])
      else Astray(-index)
    else if 0 < index && index - 1 < |r.cache| then r.(out := r.out + [r.cache[index - 1]])
    else Corrupt
  }

  function ReadAll(recs: seq<Record>): Reading {
    if recs == [] then Reading([None], []) else
    var r := ReadAll(recs[..|recs| - 1]);
    if r.Reading? then Read(r, recs[|recs| - 1]) else r
  }

  // ---------------------------------------------------------------- the round trip

  // Reading what context n wrote gives what it was asked to write, and every
  // identifier that bears its mark is in the reader's cache at that index.
  ghost predicate Good(w: World, n: nat)
    requires n < |w.contexts|
  {
    var c, r := w.contexts[n], ReadAll(w.contexts[n].records);
    && r.Reading? && r.out == c.written && |r.cache| == c.next && r.cache[0] == None && AllSound(c.records)
    && forall x :: x in w.marks && w.marks[x].gen == n + 1 ==> Marked(r.cache, x, w.marks[x].index)
  }

  // A record the file layer can carry: what follows the integer is as long as it says.
  ghost predicate Sound(rec: Record) {
    IsInt64(rec.i) &&
    (rec.Define? ==> |rec.bytes| <= BLOCK_SIZE && ToInt32(rec.i) < 0 && ToInt32(rec.i) + |rec.bytes| == 0)
  }

  ghost predicate AllSound(recs: seq<Record>) { forall n :: 0 <= n < |recs| ==> Sound(recs[n]) }

  predicate Marked(cache: seq<Option<Name>>, x: Name, index: nat) { index < |cache| && cache[index] == Some(x) }

  ghost predicate AllGood(w: World) {
    && (forall n :: 0 <= n < |w.contexts| ==> Good(w, n))
    && (forall x :: x in w.marks ==> w.marks[x].gen <= |w.contexts|)
  }

  // References fit in 31 bits.
  predicate Small(c: Context) { c.next < 0x7fff_ffff }

  lemma ReadSnoc(recs: seq<Record>, rec: Record)
    ensures ReadAll(recs + [rec]) == if ReadAll(recs).Reading? then Read(ReadAll(recs), rec) else ReadAll(recs)
  {
    assert (recs + [rec])[..|recs|] == recs;
  }

  // The negated length is a large positive number, and truncation makes it negative again.
  lemma LengthSurvives(len: nat)
    requires 0 < len <= 0x8000_0000
    ensures ToInt32((TWO32 - len) % TWO32) + len == 0
  {
  }

  // One more record is read as the identifier it was written for.
  lemma ReadsBack(w: World, n: nat, id: Option<Name>)
    requires n < |w.contexts| && Good(w, n) && Small(w.contexts[n]) && (id.Some? ==> Writable(id.value))
    ensures var r, rec := ReadAll(w.contexts[n].records), RecordOf(w, n, id);
            Read(r, rec) == Reading(if rec.Define? then r.cache + [id] else r.cache, r.out + [id]) && Sound(rec)
  {
    if id.Some? && MarkOf(w, id.value).gen != n + 1 {
      LengthSurvives(|id.value|);
      NoNul(id.value);
    } else if id.Some? {
      assert Marked(ReadAll(w.contexts[n].records).cache, id.value, w.marks[id.value].index);
    }
  }

  lemma WriteKeepsOwn(w: World, n: nat, id: Option<Name>)
    requires n < |w.contexts| && Good(w, n) && Small(w.contexts[n]) && (id.Some? ==> Writable(id.value))
    ensures Good(Write(w, n, id), n)
  {
    var c, w', rec := w.contexts[n], Write(w, n, id), RecordOf(w, n, id);
    ReadSnoc(c.records, rec);
    ReadsBack(w, n, id);
    var r, r' := ReadAll(c.records), ReadAll(w'.contexts[n].records);
    forall x | x in w'.marks && w'.marks[x].gen == n + 1 ensures Marked(r'.cache, x, w'.marks[x].index) {
      assert x in w.marks && w.marks[x].gen == n + 1 ==> Marked(r.cache, x, w.marks[x].index);
    }
  }

  // Overwriting another context's mark only makes it write the bytes again.
  lemma WriteKeepsOther(w: World, n: nat, id: Option<Name>, m: nat)
    requires n < |w.contexts| && m < |w.contexts| && m != n && Good(w, m)
    ensures Good(Write(w, n, id), m)
  {
  }

  lemma StepGood(w: World, call: Call)
    requires AllGood(w) && Allowed(w, call) && (call.Put? ==> Small(w.contexts[call.n]))
    ensures AllGood(Step(w, call))
  {
    var w' := Step(w, call);
    forall m | 0 <= m < |w'.contexts| ensures Good(w', m) {
      assert m < |w.contexts| ==> Good(w, m);
      if call.Put? {
        if m == call.n { WriteKeepsOwn(w, m, call.id); } else { WriteKeepsOther(w, call.n, call.id, m); }
      } else if m < |w.contexts| {
        assert w'.contexts[m] == w.contexts[m];
      } else {
        assert w'.contexts[m] == BEGIN;
      }
    }
  }

  // ---------------------------------------------------------------- runs

  ghost predicate Runs(w: World, calls: seq<Call>)
    decreases |calls|
  {
    calls == [] || (Allowed(w, calls[0]) && (calls[0].Put? ==> Small(w.contexts[calls[0].n]))
        && Runs(Step(w, calls[0]), calls[1..]))
  }

  ghost function After(w: World, calls: seq<Call>): World
    requires Runs(w, calls)
    decreases |calls|
  {
    if calls == [] then w else After(Step(w, calls[0]), calls[1..])
  }

  // What the calls ask context n to write, in order.
  function Asked(calls: seq<Call>, n: nat): seq<Option<Name>> {
    if calls == [] then [] else
    (if calls[0].Put? && calls[0].n == n then [calls[0].id] else []) + Asked(calls[1..], n)
  }

  lemma {:induction false} RunGood(w: World, calls: seq<Call>)
    requires AllGood(w) && Runs(w, calls)
    ensures AllGood(After(w, calls)) && |w.contexts| <= |After(w, calls).contexts|
    ensures forall n :: 0 <= n < |w.contexts| ==>
            After(w, calls).contexts[n].written == w.contexts[n].written + Asked(calls, n)
    ensures forall n :: |w.contexts| <= n < |After(w, calls).contexts| ==>
            After(w, calls).contexts[n].written == Asked(calls, n)
    decreases |calls|
  {
    if calls != [] {
      StepGood(w, calls[0]);
      RunGood(Step(w, calls[0]), calls[1..]);
    }
  }

  // However the contexts interleave, each one's output reads back as exactly the
  // identifiers it was asked to write.
  lemma RoundTrip(calls: seq<Call>, n: nat)
    requires Runs(World(map[], []), calls) && n < |After(World(map[], []), calls).contexts|
    ensures var r := ReadAll(After(World(map[], []), calls).contexts[n].records);
            r.Reading? && r.out == Asked(calls, n)
  {
    RunGood(World(map[], []), calls);
    assert Good(After(World(map[], []), calls), n);
  }

  lemma {:induction false} CStringIff(b: seq<u8>)
    ensures CString(b) == b <==> 0 !in b
  {
    if b != [] { CStringIff(b[1..]); }
  }

  // When the 32-bit integer carries the identifier: a new one must not be empty or
  // hold a NUL, and a reference to an earlier one must be below 2^31.
  predicate Carried(w: World, n: nat, id: Option<Name>) {
    match id
    case None => true
    case Some(x) => if MarkOf(w, x).gen == n + 1 then MarkOf(w, x).index + 1 < 0x8000_0000 else x != [] && 0 !in x
  }

  // One more record is read as the identifier it was written for exactly when the
  // integer carries it.
  lemma ReadsBackIff(w: World, n: nat, id: Option<Name>)
    requires n < |w.contexts| && Good(w, n) && w.contexts[n].next < TWO32 && (id.Some? ==> |id.value| < 0x10000)
    ensures var r := ReadAll(w.contexts[n].records); var r' := Read(r, RecordOf(w, n, id));
            r'.Reading? && r'.out == r.out + [id] <==> Carried(w, n, id)
  {
    if id.Some? {
      var x, r := id.value, ReadAll(w.contexts[n].records);
      if MarkOf(w, x).gen == n + 1 {
        assert Marked(r.cache, x, w.marks[x].index);
        ReferenceIff(w.marks[x].index);
      } else {
        CStringIff(x);
        LengthIff(|x|);
        assert (r.out + [Some(CString(x))])[|r.out|] == Some(CString(x));
      }
    }
  }

  lemma ReferenceIff(index: nat)
    requires index < TWO32
    ensures index + 1 < 0x8000_0000 ==> ToInt32((index + 1) % TWO32) == index + 1
    ensures index + 1 >= 0x8000_0000 ==> ToInt32((index + 1) % TWO32) <= 0
  {
  }

  lemma LengthIff(len: nat)
    requires len < 0x10000
    ensures ToInt32((TWO32 - len) % TWO32) + len == 0
  {
  }

  // ---------------------------------------------------------------- bytes

  function RecordBytes(rec: Record): seq<u8>
    requires IsInt64(rec.i)
  {
    Leb(ZigZag(rec.i)) + if rec.Define? then rec.bytes else []
  }

  ghost function Bytes(recs: seq<Record>): seq<u8>
    requires AllSound(recs)
  {
    if recs == [] then [] else RecordBytes(recs[0]) + Bytes(recs[1..])
  }

  method WriteRecord(f: Writer, rec: Record)
    requires f.Open() && Sound(rec)
    modifies f, f.wbuf
    ensures f.Open() && f.Data() == old(f.Data()) + RecordBytes(rec)
  {
    f.PutInt(rec.i);
    if rec.Define? {
      f.WriteRaw(rec.bytes);
    }
  }

  lemma {:induction false} ReadPrefix(recs: seq<Record>, k: nat)
    requires k <= |recs| && ReadAll(recs).Reading?
    ensures ReadAll(recs[..k]).Reading?
    decreases |recs|
  {
    if k < |recs| {
      ReadPrefix(recs[..|recs| - 1], k);
      assert recs[..|recs| - 1][..k] == recs[..k];
    } else {
      assert recs[..k] == recs;
    }
  }

  // One call of ident_read on the file.
  method ReadOne(f: Reader, cache: seq<Option<Name>>, ghost rec: Record, ghost rest: seq<u8>,
      ghost out: seq<Option<Name>>)
    returns (id: Option<Name>, cache': seq<Option<Name>>)
    requires f.Valid() && Sound(rec) && f.Rest() == RecordBytes(rec) + rest
    requires Read(Reading(cache, out), rec).Reading?
    modifies f
    ensures f.Valid() && f.Rest() == rest && Reading(cache', out + [id]) == Read(Reading(cache, out), rec)
  {
    ghost var tail := (if rec.Define? then rec.bytes else []) + rest;
    assert f.Rest() == Leb(ZigZag(rec.i)) + tail;
    ZigZagRoundTrip(rec.i);
    var z := f.GetLeb(ZigZag(rec.i), tail);
    var index := ToInt32(UnZigZag(z));
    if index < 0 {
      var bytes := f.GetBytes(rec.bytes, -index, rest);
      id := Some(CString(bytes));
      cache' := cache + [id];
    } else {
      id, cache' := cache[index - 1], cache;
    }
  }

  // A file holding the records is read back as the pure reading says.
  method ReadFile(f: Reader, count: nat, ghost recs: seq<Record>) returns (out: seq<Option<Name>>)
    requires f.Valid() && count == |recs| && ReadAll(recs).Reading? && AllSound(recs) && f.Rest() == Bytes(recs)
    modifies f
    ensures f.Valid() && f.Rest() == [] && out == ReadAll(recs).out
  {
    var cache := [None];
    out := [];
    for k := 0 to count
      invariant f.Valid() && f.Rest() == Bytes(recs[k..]) && ReadAll(recs[..k]) == Reading(cache, out)
    {
      ReadPrefix(recs, k + 1);
      assert recs[..k + 1] == recs[..k] + [recs[k]];
      ReadSnoc(recs[..k], recs[k]);
      assert recs[k..][1..] == recs[k + 1..];
      var id;
      id, cache := ReadOne(f, cache, recs[k], Bytes(recs[k + 1..]), out);
      out := out + [id];
    }
    assert recs[..count] == recs;
  }

  lemma {:induction false} BytesSnoc(recs: seq<Record>, rec: Record)
    requires AllSound(recs) && Sound(rec)
    ensures AllSound(recs + [rec]) && Bytes(recs + [rec]) == Bytes(recs) + RecordBytes(rec)
  {
    if recs == [] {
      assert ([] + [rec])[1..] == [];
    } else {
      BytesSnoc(recs[1..], rec);
      assert (recs + [rec])[1..] == recs[1..] + [rec];
    }
  }

  method WriteFile(recs: seq<Record>) returns (f: Writer)
    requires AllSound(recs)
    ensures fresh(f) && fresh(f.wbuf) && f.Open() && f.Data() == Bytes(recs)
  {
    f := new Writer();
    for k := 0 to |recs|
      invariant fresh(f) && fresh(f.wbuf) && f.Open() && f.Data() == Bytes(recs[..k])
    {
      WriteRecord(f, recs[k]);
      BytesSnoc(recs[..k], recs[k]);
      assert recs[..k + 1] == recs[..k] + [recs[k]];
    }
    assert recs[..|recs|] == recs;
  }

  // From calls to bytes and back: what a context wrote, however the contexts
  // interleave, goes through the blocks of its file and reads back as exactly the
  // identifiers it was asked to write.
  method FileRoundTrip(ghost calls: seq<Call>, ghost n: nat, recs: seq<Record>) returns (out: seq<Option<Name>>)
    requires Runs(World(map[], []), calls) && n < |After(World(map[], []), calls).contexts|
    requires recs == After(World(map[], []), calls).contexts[n].records
    ensures out == Asked(calls, n)
  {
    RoundTrip(calls, n);
    RunGood(World(map[], []), calls);
    assert Good(After(World(map[], []), calls), n);
    var w := WriteFile(recs);
    var total, s1, s2 := w.Close();
    var f := new Reader(Payload(w.blocks));
    out := ReadFile(f, |recs|, recs);
  }
}
