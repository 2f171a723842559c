// Source locations in binary files: the file names once, then each location as
// the difference from the one before it.
module Locations {
  import opened Adler
  import opened Codec
  import opened FileBuffer

  type Name = seq<u8>

  const MAGIC: nat := 0xf00f
  const LINE_INVALID: nat := 0xfffff
  const COLUMN_INVALID: nat := 0xfff
  const DELTA_INVALID: nat := 0xff
  const FILE_INVALID: nat := 0xffff

  datatype Loc = Loc(line: nat, column: nat, lineDelta: nat, columnDelta: nat, ref: nat)

  // The bit-fields are this wide.
  predicate LocOk(l: Loc) {
    l.line <= LINE_INVALID && l.column <= COLUMN_INVALID && l.lineDelta <= DELTA_INVALID
        && l.columnDelta <= DELTA_INVALID
    && l.ref <= FILE_INVALID
  }

  // A file name with its terminating NUL fits in one raw write.
  predicate NameOk(name: Name) { |name| < BLOCK_SIZE && 0 !in name }

  predicate NamesOk(names: seq<Name>) { |names| < FILE_INVALID && forall n :: 0 <= n < |names| ==> NameOk(names[n]) }

  // ---------------------------------------------------------------- encoding

  // Unsigned 32-bit subtraction.
  function Diff(a: nat, b: nat): nat { (a - b) % TWO32 }

  function IntBytes(v: nat): seq<u8>
    requires v < TWO32
  {
    Leb(ZigZag(v))
  }

  function NamesBytes(names: seq<Name>): seq<u8> {
    if names == [] then [] else Leb(|names[0]| + 1) + (names[0] + [0]) + NamesBytes(names[1..])
  }

  function IndexBytes(names: seq<Name>): seq<u8> { Fixed(MAGIC, 2) + Leb(|names|) + NamesBytes(names) }

  function PairBytes(a: nat, b: nat): seq<u8>
    requires a < TWO32 && b < TWO32
  {
    IntBytes(a) + IntBytes(b)
  }

  function CountersBytes(prev: Loc, l: Loc): seq<u8> {
    PairBytes(Diff(l.line, prev.line), Diff(l.lineDelta, prev.lineDelta))
    + PairBytes(Diff(l.column, prev.column), Diff(l.columnDelta, prev.columnDelta))
  }

  function LocBytes(prev: Loc, l: Loc): seq<u8> { Leb(l.ref) + CountersBytes(prev, l) }

  const ZERO := Loc(0, 0, 0, 0, 0)

  function LocsBytes(prev: Loc, locs: seq<Loc>): seq<u8>
    decreases |locs|
  {
    if locs == [] then [] else LocBytes(prev, locs[0]) + LocsBytes(locs[0], locs[1..])
  }

  // ---------------------------------------------------------------- writing

  class LocWriter {
    const f: Writer
    var prev: Loc
    var haveIndex: bool

    constructor (f: Writer)
      ensures this.f == f && prev == ZERO && !haveIndex
    {
      this.f, prev, haveIndex := f, ZERO, false;
    }

    method WriteIndex(names: seq<Name>)
      requires f.Open() && NamesOk(names)
      modifies f, f.wbuf
      ensures f.Open() && f.Data() == old(f.Data()) + IndexBytes(names)
    {
      f.WriteFixed(MAGIC, 2);
      f.PutUInt(|names|);
      WriteNames(names);
    }

    method WriteNames(names: seq<Name>)
      requires f.Open() && NamesOk(names)
      modifies f, f.wbuf
      ensures f.Open() && f.Data() == old(f.Data()) + NamesBytes(names)
    {
      for n := 0 to |names|
        invariant f.Open() && f.Data() + NamesBytes(names[n..]) == old(f.Data()) + NamesBytes(names)
      {
        assert names[n..][1..] == names[n + 1..];
        WriteName(names[n], NamesBytes(names[n + 1..]));
      }
    }

    method WriteName(name: Name, ghost rest: seq<u8>)
      requires f.Open() && NameOk(name)
      modifies f, f.wbuf
      ensures f.Open() && f.Data() + rest == old(f.Data()) + (Leb(|name| + 1) + (name + [0]) + rest)
    {
      f.PutUInt(|name| + 1);
      f.WriteRaw(name + [0]);
    }

    method WritePair(a: nat, b: nat)
      requires f.Open() && a < TWO32 && b < TWO32
      modifies f, f.wbuf
      ensures f.Open() && f.Data() == old(f.Data()) + PairBytes(a, b)
    {
      f.PutInt(a);
      f.PutInt(b);
    }

    method WriteCounters(l: Loc)
      requires f.Open() && LocOk(l) && LocOk(prev)
      modifies f, f.wbuf
      ensures f.Open() && f.Data() == old(f.Data()) + CountersBytes(prev, l)
    {
      WritePair(Diff(l.line, prev.line), Diff(l.lineDelta, prev.lineDelta));
      WritePair(Diff(l.column, prev.column), Diff(l.columnDelta, prev.columnDelta));
    }

    method WriteLoc(l: Loc)
      requires f.Open() && LocOk(l) && LocOk(prev)
      modifies f, f.wbuf
      ensures f.Open() && f.Data() == old(f.Data()) + LocBytes(prev, l)
    {
      f.PutUInt(l.ref);
      WriteCounters(l);
    }

    method Write(l: Loc, names: seq<Name>)
      requires f.Open() && NamesOk(names) && LocOk(l) && LocOk(prev)
      modifies this, f, f.wbuf
      ensures f.Open() && prev == l && haveIndex
      ensures f.Data() == old(f.Data()) + (if old(haveIndex) then [] else IndexBytes(names)) + LocBytes(old(prev), l)
    {
      if !haveIndex {
        WriteIndex(names);
        haveIndex := true;
      }
      WriteLoc(l);
      prev := l;
    }
  }

  // ---------------------------------------------------------------- reading

  // The names of all files known to the process; a reference is a position.
  class FileTable {
    var names: seq<Name>

    constructor (names: seq<Name>)
      ensures this.names == names
    {
      this.names := names;
    }
  }

  // The counter after adding a 64-bit difference, kept to 32 bits.
  function Advance(counter: nat, d: int): nat { (counter + d) % TWO32 }

  // Wrapping subtraction and addition cancel.
  lemma AdvanceDiff(a: nat, b: nat)
    requires a < TWO32 && b < TWO32
    ensures Advance(b, Diff(a, b)) == a
  {
  }

  function Min(a: nat, b: nat): nat { if a < b then a else b }

  ghost predicate IndexOk(fileMap: seq<Name>, refMap: seq<nat>, names: seq<Name>, files: seq<Name>) {
    && fileMap == names && |refMap| == |names|
    && forall n :: 0 <= n < |refMap| ==> refMap[n] == FILE_INVALID || Refers(files, refMap[n], names[n])
  }

  class LocReader {
    const f: Reader
    var fileMap: seq<Name>
    var refMap: seq<nat>
    var prev: Loc
    var haveIndex: bool

    // The index read is that of `names`, and resolved references name the same files.
    ghost predicate Valid(names: seq<Name>, table: FileTable)
      reads this, f, table
    {
      && f.Valid() && LocOk(prev)
      && (haveIndex ==> IndexOk(fileMap, refMap, names, table.names))
    }

    constructor (f: Reader)
      ensures this.f == f && prev == ZERO && !haveIndex
    {
      this.f, prev, haveIndex := f, ZERO, false;
      fileMap, refMap := [], [];
    }

    method ReadIndex(ghost names: seq<Name>, ghost rest: seq<u8>)
      requires f.Valid() && NamesOk(names) && f.Rest() == IndexBytes(names) + rest
      modifies this`fileMap, this`refMap, f
      ensures f.Valid() && f.Rest() == rest && fileMap == names
      ensures |refMap| == |names| && forall n :: 0 <= n < |refMap| ==> refMap[n] == FILE_INVALID
    {
      ghost var body := NamesBytes(names) + rest;
      assert f.Rest() == Fixed(MAGIC, 2) + (Leb(|names|) + body);
      assert Power(256, 2) == 256 * (256 * Power(256, 0));
      var magic := f.GetFixed(MAGIC, 2, Leb(|names|) + body);
      assert magic == MAGIC;
      var count := f.GetLeb(|names|, body);
      ReadNames(count, names, rest);
    }

    method ReadNames(count: nat, ghost names: seq<Name>, ghost rest: seq<u8>)
      requires f.Valid() && NamesOk(names) && count == |names| && f.Rest() == NamesBytes(names) + rest
      modifies this`fileMap, this`refMap, f
      ensures f.Valid() && f.Rest() == rest && fileMap == names
      ensures |refMap| == |names| && forall n :: 0 <= n < |refMap| ==> refMap[n] == FILE_INVALID
    {
      fileMap, refMap := [], [];
      for n := 0 to count
        invariant f.Valid() && f.Rest() == NamesBytes(names[n..]) + rest && fileMap == names[..n]
        invariant |refMap| == n && forall m :: 0 <= m < n ==> refMap[m] == FILE_INVALID
      {
        ghost var more := NamesBytes(names[n + 1..]);
        assert names[n..][1..] == names[n + 1..];
        Associate(Leb(|names[n]| + 1) + (names[n] + [0]), more, rest);
        var name := ReadName(names[n], more + rest);
        fileMap, refMap := fileMap + [name], refMap + [FILE_INVALID];
      }
    }

    // The bytes read end with the NUL that was written with the name.
    method ReadName(ghost name: Name, ghost rest: seq<u8>) returns (r: Name)
      requires f.Valid() && NameOk(name) && f.Rest() == Leb(|name| + 1) + (name + [0]) + rest
      modifies f
      ensures f.Valid() && f.Rest() == rest && r == name
    {
      assert f.Rest() == Leb(|name| + 1) + (name + [0] + rest);
      var len := f.GetLeb(|name| + 1, name + [0] + rest);
      var bytes := f.GetBytes(name + [0], len, rest);
      r := bytes[..len - 1];
    }

    // The reference in this process for the file numbered old in the file read.
    method Resolve(was: nat, table: FileTable, ghost names: seq<Name>) returns (ref: nat)
      requires Valid(names, table) && haveIndex && was < |names| && |table.names| < FILE_INVALID
      modifies this`refMap, table
      ensures Valid(names, table) && ref < FILE_INVALID && Refers(table.names, ref, names[was])
      ensures table.names == old(table.names)
              || (table.names == old(table.names) + [names[was]] && names[was] !in old(table.names))
    {
      if refMap[was] == FILE_INVALID {
        for i := 0 to |table.names|
          invariant Valid(names, table) && table.names == old(table.names)
          invariant refMap[was] == FILE_INVALID ==> names[was] !in table.names[..i]
        {
          if table.names[i] == fileMap[was] {
            refMap := refMap[was := i];
          }
        }
        if refMap[was] == FILE_INVALID {
          assert table.names[..|table.names|] == table.names;
          refMap := refMap[was := |table.names|];
          table.names := table.names + [fileMap[was]];
        }
      }
      ref := refMap[was];
    }

    // One difference, added to a counter.
    method ReadCounter(counter: nat, ghost v: nat, ghost rest: seq<u8>) returns (r: nat)
      requires f.Valid() && v < TWO32 && counter < TWO32 && f.Rest() == IntBytes(Diff(v, counter)) + rest
      modifies f
      ensures f.Valid() && f.Rest() == rest && r == v
    {
      ZigZagRoundTrip(Diff(v, counter));
      var z := f.GetLeb(ZigZag(Diff(v, counter)), rest);
      AdvanceDiff(v, counter);
      r := Advance(counter, UnZigZag(z));
    }

    method ReadPair(c: nat, d: nat, ghost v: nat, ghost w: nat, ghost rest: seq<u8>) returns (x: nat, y: nat)
      requires f.Valid() && v < TWO32 && w < TWO32 && c < TWO32 && d < TWO32
      requires f.Rest() == PairBytes(Diff(v, c), Diff(w, d)) + rest
      modifies f
      ensures f.Valid() && f.Rest() == rest && x == v && y == w
    {
      assert f.Rest() == IntBytes(Diff(v, c)) + (IntBytes(Diff(w, d)) + rest);
      x := ReadCounter(c, v, IntBytes(Diff(w, d)) + rest);
      y := ReadCounter(d, w, rest);
    }

    method ReadCounters(ghost l: Loc, ghost rest: seq<u8>) returns (r: Loc)
      requires f.Valid() && LocOk(prev) && LocOk(l)
      requires f.Rest() == CountersBytes(prev, l) + rest
      modifies f
      ensures f.Valid() && f.Rest() == rest && r == l.(ref := 0)
    {
      ghost var second := PairBytes(Diff(l.column, prev.column), Diff(l.columnDelta, prev.columnDelta));
      assert f.Rest() == PairBytes(Diff(l.line, prev.line), Diff(l.lineDelta, prev.lineDelta)) + (second + rest);
      var line, lineDelta := ReadPair(prev.line, prev.lineDelta, l.line, l.lineDelta, second + rest);
      var column, columnDelta := ReadPair(prev.column, prev.columnDelta, l.column, l.columnDelta, rest);
      r := Loc(line, column, lineDelta, columnDelta, 0);
    }

    method ReadRef(table: FileTable, ghost names: seq<Name>, ghost l: Loc, ghost rest: seq<u8>) returns (ref: nat)
      requires Valid(names, table) && haveIndex && (l.ref == FILE_INVALID || l.ref < |names| < FILE_INVALID)
               && |table.names| < FILE_INVALID
      requires f.Rest() == Leb(l.ref) + rest
      modifies this`refMap, f, table
      ensures Valid(names, table) && f.Rest() == rest
      ensures if l.ref == FILE_INVALID then ref == FILE_INVALID else Refers(table.names, ref, names[l.ref])
      ensures Extends(old(table.names), table.names, if l.ref == FILE_INVALID then [] else [names[l.ref]])
    {
      var was := f.GetLeb(l.ref, rest);
      ref := FILE_INVALID;
      if was % 0x10000 != FILE_INVALID {
        ref := Resolve(was % 0x10000, table, names);
      }
    }

    // Reads back a location written after `prev`; its file is the one of the same name.
    method Read(table: FileTable, ghost names: seq<Name>, ghost l: Loc, ghost rest: seq<u8>) returns (r: Loc)
      requires Valid(names, table) && NamesOk(names) && LocOk(l) && (l.ref == FILE_INVALID || l.ref < |names|)
      requires f.Rest() == (if haveIndex then [] else IndexBytes(names)) + (LocBytes(prev, l) + rest)
      requires |table.names| < FILE_INVALID
      modifies this, f, table
      ensures Valid(names, table) && f.Rest() == rest && prev == l.(ref := 0) && haveIndex
      ensures Same(table.names, names, r, l)
      ensures Extends(old(table.names), table.names, if l.ref == FILE_INVALID then [] else [names[l.ref]])
    {
      if !haveIndex {
        ReadIndex(names, LocBytes(prev, l) + rest);
        haveIndex := true;
      }
      r := ReadLoc(table, names, l, rest);
    }

    method ReadLoc(table: FileTable, ghost names: seq<Name>, ghost l: Loc, ghost rest: seq<u8>) returns (r: Loc)
      requires Valid(names, table) && NamesOk(names) && LocOk(l) && (l.ref == FILE_INVALID || l.ref < |names|)
               && haveIndex
      requires f.Rest() == LocBytes(prev, l) + rest && |table.names| < FILE_INVALID
      modifies this, f, table
      ensures Valid(names, table) && f.Rest() == rest && prev == l.(ref := 0) && haveIndex
      ensures Same(table.names, names, r, l)
      ensures Extends(old(table.names), table.names, if l.ref == FILE_INVALID then [] else [names[l.ref]])
    {
      assert f.Rest() == Leb(l.ref) + (CountersBytes(prev, l) + rest);
      var ref := ReadRef(table, names, l, CountersBytes(prev, l) + rest);
      prev := ReadCounters(l, rest);
      r := Loc(Min(prev.line, LINE_INVALID), Min(prev.column, COLUMN_INVALID),
               Min(prev.lineDelta, DELTA_INVALID), Min(prev.columnDelta, DELTA_INVALID), ref);
    }
  }

  // Equal but for the file, which has the same name in either numbering.
  ghost predicate Same(files: seq<Name>, names: seq<Name>, r: Loc, l: Loc) {
    && r.(ref := 0) == l.(ref := 0)
    && if l.ref == FILE_INVALID then r.ref == FILE_INVALID else l.ref < |names| && Refers(files, r.ref, names[l.ref])
  }

  // Only files not yet known are added.
  ghost predicate Extends(files: seq<Name>, files': seq<Name>, added: seq<Name>) {
    files' == files || (|added| == 1 && files' == files + added && added[0] !in files)
  }

  predicate Refers(files: seq<Name>, ref: nat, name: Name) { ref < |files| && ref < FILE_INVALID && files[ref] == name }

  // ---------------------------------------------------------------- whole files

  ghost predicate LocsOk(names: seq<Name>, locs: seq<Loc>) {
    forall n :: 0 <= n < |locs| ==> LocOk(locs[n]) && (locs[n].ref == FILE_INVALID || locs[n].ref < |names|)
  }

  function Encoded(names: seq<Name>, locs: seq<Loc>): seq<u8> {
    if locs == [] then [] else IndexBytes(names) + LocsBytes(ZERO, locs)
  }

  lemma {:induction false} LocsSnoc(prev: Loc, locs: seq<Loc>, l: Loc)
    ensures LocsBytes(prev, locs + [l])
            == LocsBytes(prev, locs) + LocBytes(if locs == [] then prev else locs[|locs| - 1], l)
    decreases |locs|
  {
    if locs == [] {
      assert ([] + [l])[1..] == [];
    } else {
      LocsSnoc(locs[0], locs[1..], l);
      assert (locs + [l])[1..] == locs[1..] + [l];
      var last := if locs[1..] == [] then locs[0] else locs[1..][|locs| - 2];
      Associate(LocBytes(prev, locs[0]), LocsBytes(locs[0], locs[1..]), LocBytes(last, l));
    }
  }

  lemma Associate(a: seq<u8>, b: seq<u8>, c: seq<u8>)
    ensures (a + b) + c == a + (b + c)
  {
  }

  lemma EncodedSnoc(names: seq<Name>, locs: seq<Loc>, l: Loc)
    ensures Encoded(names, locs + [l]) == Encoded(names, locs) + (if locs == [] then IndexBytes(names) else [])
                                          + LocBytes(if locs == [] then ZERO else locs[|locs| - 1], l)
  {
    LocsSnoc(ZERO, locs, l);
    if locs != [] { Associate(IndexBytes(names), LocsBytes(ZERO, locs), LocBytes(locs[|locs| - 1], l)); }
  }

  // The writer after the first n locations.
  ghost predicate Wrote(w: LocWriter, names: seq<Name>, locs: seq<Loc>)
    reads w, w.f, w.f.wbuf
  {
    && w.f.Open() && w.f.Data() == Encoded(names, locs)
    && LocOk(w.prev) && (w.haveIndex <==> locs != []) && w.prev == if locs == [] then ZERO else locs[|locs| - 1]
  }

  method WriteNext(w: LocWriter, names: seq<Name>, ghost locs: seq<Loc>, l: Loc)
    requires Wrote(w, names, locs) && NamesOk(names) && LocOk(l)
    modifies w, w.f, w.f.wbuf
    ensures Wrote(w, names, locs + [l])
  {
    EncodedSnoc(names, locs, l);
    w.Write(l, names);
  }

  method WriteAll(names: seq<Name>, locs: seq<Loc>) returns (w: LocWriter)
    requires NamesOk(names) && LocsOk(names, locs)
    ensures w.f.Open() && w.f.Data() == Encoded(names, locs)
  {
    var f := new Writer();
    w := new LocWriter(f);
    for n := 0 to |locs|
      invariant fresh(w) && fresh(w.f) && fresh(w.f.wbuf) && Wrote(w, names, locs[..n])
    {
      WriteNext(w, names, locs[..n], locs[n]);
      assert locs[..n + 1] == locs[..n] + [locs[n]];
    }
    assert locs[..|locs|] == locs;
  }

  // The names added to the table were in the index and are added once.
  ghost predicate Grown(was: seq<Name>, now: seq<Name>, names: seq<Name>) {
    && was <= now
    && (forall n :: |was| <= n < |now| ==> now[n] in names)
    && (forall m, n :: |was| <= m < n < |now| ==> now[m] != now[n])
  }

  lemma {:induction false} Cardinality(s: seq<Name>)
    ensures |set x | x in s| <= |s|
    ensures (forall m, n :: 0 <= m < n < |s| ==> s[m] != s[n]) ==> |set x | x in s| == |s|
  {
    if s != [] {
      var t := s[..|s| - 1];
      Cardinality(t);
      assert (set x | x in s) == (set x | x in t) + {s[|s| - 1]};
    }
  }

  lemma GrownBound(was: seq<Name>, now: seq<Name>, names: seq<Name>)
    requires Grown(was, now, names)
    ensures |now| <= |was| + |names|
  {
    var added := now[|was|..];
    Cardinality(added);
    Cardinality(names);
    SubsetSize(set x | x in added, set x | x in names);
  }

  lemma {:induction false} SubsetSize(a: set<Name>, b: set<Name>)
    requires a <= b
    ensures |a| <= |b|
  {
    if a != {} {
      var x :| x in a;
      SubsetSize(a - {x}, b - {x});
    }
  }

  lemma GrownStep(was: seq<Name>, now: seq<Name>, next: seq<Name>, names: seq<Name>, added: seq<Name>)
    requires Grown(was, now, names) && Extends(now, next, added) && (|added| == 1 ==> added[0] in names)
    ensures Grown(was, next, names)
  {
  }

  predicate Counters(a: Loc, b: Loc) { a.(ref := 0) == b.(ref := 0) }

  // What is left to read after n locations.
  ghost function Remaining(names: seq<Name>, locs: seq<Loc>, n: nat): seq<u8>
    requires n <= |locs|
  {
    if n == 0 then Encoded(names, locs) else LocsBytes(locs[n - 1], locs[n..])
  }

  // The reader after n locations.
  ghost predicate HasRead(c: LocReader, table: FileTable, names: seq<Name>, locs: seq<Loc>, n: nat)
    reads c, c.f, table
    requires n <= |locs|
  {
    && c.Valid(names, table) && (c.haveIndex <==> n > 0) && c.f.Rest() == Remaining(names, locs, n)
    && Counters(c.prev, if n == 0 then ZERO else locs[n - 1])
  }

  lemma RemainingStep(names: seq<Name>, locs: seq<Loc>, n: nat, prev: Loc)
    requires n < |locs| && Counters(prev, if n == 0 then ZERO else locs[n - 1])
    ensures Remaining(names, locs, n) ==
            (if n > 0 then [] else IndexBytes(names)) + (LocBytes(prev, locs[n]) + Remaining(names, locs, n + 1))
  {
    assert n > 0 ==> locs[n..][0] == locs[n] && locs[n..][1..] == locs[n + 1..];
    assert n == 0 ==> locs[1..] == locs[n + 1..];
  }

  method ReadNext(c: LocReader, table: FileTable, ghost names: seq<Name>, ghost locs: seq<Loc>, ghost n: nat)
    returns (r: Loc)
    requires n < |locs| && HasRead(c, table, names, locs, n)
    requires NamesOk(names) && LocsOk(names, locs) && |table.names| < FILE_INVALID
    modifies c, c.f, table
    ensures HasRead(c, table, names, locs, n + 1) && Same(table.names, names, r, locs[n])
    ensures Extends(old(table.names), table.names, if locs[n].ref == FILE_INVALID then [] else [names[locs[n].ref]])
  {
    RemainingStep(names, locs, n, c.prev);
    r := c.Read(table, names, locs[n], Remaining(names, locs, n + 1));
  }

  // Every location written in one context reads back with equal lines, columns and
  // deltas and a file of the same name, whatever files the reading process knew.
  method ReadAll(f: Reader, count: nat, table: FileTable, ghost names: seq<Name>, ghost locs: seq<Loc>)
    returns (r: seq<Loc>)
    requires f.Valid() && NamesOk(names) && LocsOk(names, locs) && count == |locs|
    requires f.Rest() == Encoded(names, locs) && |table.names| + |names| < FILE_INVALID
    modifies f, table
    ensures f.Valid() && f.Rest() == [] && |r| == |locs| && Grown(old(table.names), table.names, names)
    ensures forall n :: 0 <= n < |r| ==> Same(table.names, names, r[n], locs[n])
  {
    var c := new LocReader(f);
    r := [];
    for n := 0 to count
      invariant c.f == f && fresh(c) && HasRead(c, table, names, locs, n)
      invariant |r| == n && AllSame(table.names, names, r, locs)
      invariant Grown(old(table.names), table.names, names)
    {
      GrownBound(old(table.names), table.names, names);
      ghost var was := table.names;
      var x := ReadNext(c, table, names, locs, n);
      ghost var added := if locs[n].ref == FILE_INVALID then [] else [names[locs[n].ref]];
      GrownStep(old(table.names), was, table.names, names, added);
      StillSame(was, table.names, added, names, r, locs);
      r := r + [x];
    }
  }

  ghost predicate AllSame(files: seq<Name>, names: seq<Name>, r: seq<Loc>, locs: seq<Loc>) {
    |r| <= |locs| && forall n :: 0 <= n < |r| ==> Same(files, names, r[n], locs[n])
  }

  // Adding files does not change what a reference names.
  lemma StillSame(files: seq<Name>, files': seq<Name>, added: seq<Name>, names: seq<Name>, r: seq<Loc>, locs: seq<Loc>)
    requires AllSame(files, names, r, locs) && Extends(files, files', added)
    ensures AllSame(files', names, r, locs)
  {
  }
}
