// The hash of an identifier and the interning of strings given by parts.
module IdentHash {
  import opened InternTable
  import opened InternInvariant
  import opened InternTheorems

  const HASH_INIT: bv32 := 2166136261

  // canon_table: upper case for the letters of ISO 8859-1.
  function Canon(b: Byte): (c: Byte) {
    if 0x61 <= b <= 0x7a || (0xe0 <= b <= 0xfe && b != 0xf7) then b - 0x20 else b
  }

  function FnvStep(hash: bv32, b: Byte): bv32 { Stir(hash, Canon(b)) }

  function Stir(hash: bv32, c: Byte): bv32 { (hash ^ (c as bv32)) * 16777619 }

  // FNV-1a over the bytes before the first NUL.
  function Fnv(hash: bv32, key: Bytes): bv32
    decreases |key|
  {
    if key == [] || key[0] == 0 then hash else Fnv(FnvStep(hash, key[0]), key[1..])
  }

  function Mix(hash: bv32): bv32 {
    var a := hash ^ (hash >> 16);
    var b := a * 0x85ebca6b;
    b ^ (b >> 13)
  }

  function HashOf(bytes: Bytes): nat { Mix(Fnv(HASH_INIT, bytes)) as nat }

  predicate NulFree(s: Bytes) { forall i :: 0 <= i < |s| ==> s[i] != 0 }

  // hash_update: continues a hash over at most nchars bytes of key.
  method HashUpdate(state: bv32, key: Bytes, nchars: nat) returns (hash: bv32, used: nat)
    requires nchars <= |key|
    ensures hash == Fnv(state, key[..nchars])
    ensures used <= nchars && NulFree(key[..used]) && (used < nchars ==> key[used] == 0)
  {
    hash, used := state, 0;
    assert key[0..nchars] == key[..nchars];
    while used < nchars && key[used] != 0
      invariant used <= nchars
      invariant NulFree(key[..used])
      invariant Fnv(hash, key[used..nchars]) == Fnv(state, key[..nchars])
    {
      assert key[used..nchars][1..] == key[used + 1..nchars];
      hash := FnvStep(hash, key[used]);
      used := used + 1;
    }
  }

  // Hashing by parts is hashing the concatenation.
  lemma {:induction false} FnvConcat(hash: bv32, a: Bytes, b: Bytes)
    requires NulFree(a)
    ensures Fnv(Fnv(hash, a), b) == Fnv(hash, a + b)
    decreases |a|
  {
    if a == [] {
      assert a + b == b;
    } else {
      assert (a + b)[1..] == a[1..] + b;
      FnvConcat(FnvStep(hash, a[0]), a[1..], b);
    }
  }

  // ---------------------------------------------------------------- letter case

  // A lower-case letter of ISO 8859-1 that has an upper-case one 32 places before it.
  predicate IsLower(b: Byte) { 0x61 <= b <= 0x7a || 0xe0 <= b <= 0xf6 || 0xf8 <= b <= 0xfe }

  predicate SameLetter(x: Byte, y: Byte) {
    x == y || (IsLower(x) && x - 0x20 == y) || (IsLower(y) && y - 0x20 == x)
  }

  ghost predicate SameUpToCase(a: Bytes, b: Bytes) {
    |a| == |b| && forall i :: 0 <= i < |a| ==> SameLetter(a[i], b[i])
  }

  lemma CanonIff(x: Byte, y: Byte)
    ensures Canon(x) == Canon(y) <==> SameLetter(x, y)
  {
  }

  // Strings that differ in letter case only have the same hash.
  lemma {:induction false} HashIgnoresCase(hash: bv32, a: Bytes, b: Bytes)
    requires SameUpToCase(a, b)
    ensures Fnv(hash, a) == Fnv(hash, b)
    decreases |a|
  {
    if a != [] && a[0] != 0 {
      StepIgnoresCase(hash, a[0], b[0]);
      RestUpToCase(a, b);
      HashIgnoresCase(FnvStep(hash, a[0]), a[1..], b[1..]);
    }
  }

  lemma StepIgnoresCase(hash: bv32, x: Byte, y: Byte)
    requires SameLetter(x, y)
    ensures FnvStep(hash, x) == FnvStep(hash, y) && (x == 0 <==> y == 0)
  {
    CanonIff(x, y);
    SameStir(hash, Canon(x), Canon(y));
  }

  lemma SameStir(hash: bv32, c: Byte, d: Byte)
    requires c == d
    ensures Stir(hash, c) == Stir(hash, d)
  {
  }

  lemma RestUpToCase(a: Bytes, b: Bytes)
    requires SameUpToCase(a, b) && a != []
    ensures SameUpToCase(a[1..], b[1..]) && SameLetter(a[0], b[0])
  {
  }

  // ident_casecmp: the quick test on length and hash loses nothing.
  method CaseCompare(a: Ident, b: Ident) returns (same: bool)
    requires a.hash == HashOf(a.bytes) && b.hash == HashOf(b.bytes)
    ensures same <==> SameUpToCase(a.bytes, b.bytes)
  {
    if a == b {
      return true;
    }
    if |a.bytes| != |b.bytes| || a.hash != b.hash {
      if SameUpToCase(a.bytes, b.bytes) { HashIgnoresCase(HASH_INIT, a.bytes, b.bytes); }
      return false;
    }
    for i := 0 to |a.bytes|
      invariant forall j :: 0 <= j < i ==> SameLetter(a.bytes[j], b.bytes[j])
    {
      CanonIff(a.bytes[i], b.bytes[i]);
      if Canon(a.bytes[i]) != Canon(b.bytes[i]) {
        return false;
      }
    }
    return true;
  }

  // The published FNV-1a value of the letter A, for either case.
  lemma HashOfLetterA()
    ensures Fnv(HASH_INIT, [0x61]) == 0xc40b_f6cc && Fnv(HASH_INIT, [0x41]) == 0xc40b_f6cc
  {
    assert [0x61][1..] == [] && [0x41][1..] == [];
  }

  // ---------------------------------------------------------------- by parts

  lemma {:induction false} JoinedSnoc(parts: seq<Bytes>, p: Bytes)
    ensures Joined(parts + [p]) == Joined(parts) + p
  {
    if parts == [] {
      assert [p][1..] == [];
      assert parts + [p] == [p];
    } else {
      assert (parts + [p])[1..] == parts[1..] + [p];
      JoinedSnoc(parts[1..], p);
    }
  }

  // The comparison loop of ident_from_byte_vec against an identifier of the joined length.
  method MatchesParts(bytes: Bytes, parts: seq<Bytes>) returns (same: bool)
    requires |bytes| == TotalLength(parts)
    ensures same <==> SamePieces(bytes, parts)
    ensures same <==> bytes == Joined(parts)
  {
    PiecesIff(bytes, parts);
    var pos, p := 0, 0;
    assert parts[..|parts|] == parts;
    while pos < |parts|
      invariant 0 <= pos <= |parts| && p == |Joined(parts[..pos])| <= |bytes|
      invariant bytes[..p] == Joined(parts[..pos])
    {
      assert parts[..pos + 1] == parts[..pos] + [parts[pos]];
      JoinedSnoc(parts[..pos], parts[pos]);
      JoinedPrefix(parts, pos + 1);
      var q := p + |parts[pos]|;
      if bytes[p..q] != parts[pos] {
        assert Joined(parts)[..q][p..q] == parts[pos];
        return false;
      }
      assert bytes[..q] == bytes[..p] + bytes[p..q];
      pos, p := pos + 1, q;
    }
    assert bytes[..p] == bytes;
    return true;
  }

  lemma {:induction false} JoinedPrefix(parts: seq<Bytes>, n: nat)
    requires n <= |parts|
    ensures |Joined(parts[..n])| <= |Joined(parts)|
    ensures Joined(parts)[..|Joined(parts[..n])|] == Joined(parts[..n])
  {
    if n > 0 {
      assert parts[..n][1..] == parts[1..][..n - 1];
      JoinedPrefix(parts[1..], n - 1);
    }
  }

  // ---------------------------------------------------------------- requests

  // hash_update over each piece in turn.
  function Chain(hash: bv32, parts: seq<Bytes>): bv32
    decreases |parts|
  {
    if parts == [] then hash else Chain(Fnv(hash, parts[0]), parts[1..])
  }

  ghost predicate AllNulFree(parts: seq<Bytes>) { forall i :: 0 <= i < |parts| ==> NulFree(parts[i]) }

  // Hashing any number of pieces in turn is hashing the joined string.
  lemma {:induction false} ChainIsWhole(hash: bv32, parts: seq<Bytes>)
    requires AllNulFree(parts)
    ensures Chain(hash, parts) == Fnv(hash, Joined(parts)) && NulFree(Joined(parts))
    decreases |parts|
  {
    if parts != [] {
      ChainIsWhole(Fnv(hash, parts[0]), parts[1..]);
      FnvConcat(hash, parts[0], Joined(parts[1..]));
    }
  }

  // ident_new
  function NewRequest(bytes: Bytes): Request {
    Request([bytes], Mix(Fnv(HASH_INIT, bytes)) as nat, false, false)
  }

  // A request by pieces carries the hash chained over them.
  function PartsRequest(parts: seq<Bytes>, uniq: bool): Request {
    Request(parts, Mix(Chain(HASH_INIT, parts)) as nat, true, uniq)
  }

  // The pieces of ident_prefix: without a separator there are two.
  function PrefixParts(a: Bytes, b: Bytes, sep: Byte): seq<Bytes> { if sep == 0 then [a, b] else [a, [sep], b] }

  // What ident_prefix hands to ident_from_byte_vec.
  method PrefixRequest(a: Bytes, b: Bytes, sep: Byte) returns (req: Request)
    ensures req == PartsRequest(PrefixParts(a, b, sep), false)
  {
    var hash, used := HashUpdate(HASH_INIT, a, |a|);
    assert a[..|a|] == a && b[..|b|] == b && [sep][..1] == [sep];
    if sep == 0 {
      hash, used := HashUpdate(hash, b, |b|);
      ChainTwo(HASH_INIT, a, b);
      req := Request([a, b], Mix(hash) as nat, true, false);
    } else {
      hash, used := HashUpdate(hash, [sep], 1);
      hash, used := HashUpdate(hash, b, |b|);
      ChainThree(HASH_INIT, a, [sep], b);
      req := Request([a, [sep], b], Mix(hash) as nat, true, false);
    }
  }

  lemma ChainTwo(hash: bv32, a: Bytes, b: Bytes)
    ensures Chain(hash, [a, b]) == Fnv(Fnv(hash, a), b)
  {
    assert [a, b][1..] == [b] && [b][1..] == [];
    assert Chain(Fnv(hash, a), [b]) == Chain(Fnv(Fnv(hash, a), b), []);
  }

  lemma ChainThree(hash: bv32, a: Bytes, b: Bytes, c: Bytes)
    ensures Chain(hash, [a, b, c]) == Fnv(Fnv(Fnv(hash, a), b), c)
  {
    assert [a, b, c][1..] == [b, c];
    ChainTwo(Fnv(hash, a), b, c);
  }

  // What ident_uniq hands over for a prefix and a suffix.
  method UniqRequest(prefix: Bytes, suffix: Bytes) returns (req: Request)
    ensures req == PartsRequest([prefix, suffix], true)
  {
    var hash, used := HashUpdate(HASH_INIT, prefix, |prefix|);
    assert prefix[..|prefix|] == prefix && suffix[..|suffix|] == suffix;
    hash, used := HashUpdate(hash, suffix, |suffix|);
    ChainTwo(HASH_INIT, prefix, suffix);
    req := Request([prefix, suffix], Mix(hash) as nat, true, true);
  }

  // A request by any NUL-free pieces carries the hash of the joined string, so the
  // run theorems apply to it.
  lemma PartsProper(parts: seq<Bytes>, uniq: bool)
    requires AllNulFree(parts)
    ensures Proper(HashOf, PartsRequest(parts, uniq))
  {
    ChainIsWhole(HASH_INIT, parts);
  }

  lemma NewProper(bytes: Bytes)
    ensures Proper(HashOf, NewRequest(bytes)) && Joined(NewRequest(bytes).parts) == bytes
  {
    assert [bytes][1..] == [];
    assert Joined([bytes]) == bytes + Joined([]);
    assert bytes + [] == bytes;
  }

  // Interning by pieces returns the identifier of the whole string, wherever the
  // two calls fall in a run of requests with chained hashes.
  lemma PartsAreWhole(run: seq<Action>, m: nat, n: nat, parts: seq<Bytes>)
    requires ProperRun(HashOf, run) && AllNulFree(parts)
    requires var log := After(run).log;
             && m < |log| && n < |log| && log[m].result.Some? && log[n].result.Some?
             && log[m].request == PartsRequest(parts, false) && log[n].request == NewRequest(Joined(parts))
    ensures var log := After(run).log; log[m].result == log[n].result
  {
    NewProper(Joined(parts));
    CanonicalInterning(HashOf, run, m, n);
  }

  // In particular for a prefix, a separator and a suffix.
  lemma PrefixIsWhole(run: seq<Action>, m: nat, n: nat, a: Bytes, b: Bytes, sep: Byte)
    requires ProperRun(HashOf, run) && NulFree(a) && NulFree(b)
    requires var log := After(run).log;
             && m < |log| && n < |log| && log[m].result.Some? && log[n].result.Some?
             && log[m].request == PartsRequest(PrefixParts(a, b, sep), false)
             && log[n].request == NewRequest(if sep == 0 then a + b else a + [sep] + b)
    ensures var log := After(run).log; log[m].result == log[n].result
  {
    JoinedThree(a, [sep], b);
    PartsAreWhole(run, m, n, PrefixParts(a, b, sep));
  }

  lemma JoinedThree(a: Bytes, sep: Bytes, b: Bytes)
    ensures Joined([a, b]) == a + b && Joined([a, sep, b]) == a + sep + b
  {
    assert [a, b][1..] == [b] && [a, sep, b][1..] == [sep, b] && [sep, b][1..] == [b] && [b][1..] == [];
    assert Joined([b]) == b && Joined([sep, b]) == sep + b;
    assert a + (sep + b) == a + sep + b;
  }

  // Runs whose calls come from the entry points: new, by prefix, or unique.
  ghost predicate FromEntryPoints(run: seq<Action>) {
    forall n :: 0 <= n < |run| && run[n].Call? ==> FromEntryPoint(run[n].req)
  }

  ghost predicate FromEntryPoint(req: Request) {
    || (exists bytes :: req == NewRequest(bytes))
    || (exists parts, uniq :: AllNulFree(parts) && req == PartsRequest(parts, uniq))
  }

  lemma EntryPointsProper(run: seq<Action>)
    requires FromEntryPoints(run)
    ensures ProperRun(HashOf, run)
  {
    forall n | 0 <= n < |run| && run[n].Call? ensures Proper(HashOf, run[n].req) {
      assert FromEntryPoint(run[n].req);
      if bytes :| run[n].req == NewRequest(bytes) {
        NewProper(bytes);
      } else {
        var parts, uniq :| AllNulFree(parts) && run[n].req == PartsRequest(parts, uniq);
        PartsProper(parts, uniq);
      }
    }
  }
}
