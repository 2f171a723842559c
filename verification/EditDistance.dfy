// ident_distance: the two-row edit distance, against minimum-cost edit scripts.
module EditDistance {
  import opened InternTable

  datatype Edit = Keep | Change(ch: Byte) | Insert(ch: Byte) | Delete
  type Script = seq<Edit>

  function Cost(script: Script): nat {
    if script == [] then 0
    else Cost(script[..|script| - 1]) + (if script[|script| - 1] == Keep then 0 else 1)
  }

  function Init<T>(s: seq<T>): seq<T>
    requires s != []
  {
    s[..|s| - 1]
  }

  function Last<T>(s: seq<T>): T
    requires s != []
  {
    s[|s| - 1]
  }

  // The script, read left to right along both strings, turns a into b.
  predicate Edits(script: Script, a: Bytes, b: Bytes) {
    if script == [] then a == [] && b == [] else
    var rest := Init(script);
    match Last(script)
    case Keep => a != [] && b != [] && Last(a) == Last(b) && Edits(rest, Init(a), Init(b))
    case Change(c) => a != [] && b != [] && c == Last(b) && Edits(rest, Init(a), Init(b))
    case Insert(c) => b != [] && c == Last(b) && Edits(rest, a, Init(b))
    case Delete => a != [] && Edits(rest, Init(a), b)
  }

  function Min(x: nat, y: nat): nat { if x < y then x else y }

  // The recurrence that fills the table.
  function Lev(a: Bytes, b: Bytes): nat
    decreases |a| + |b|
  {
    if a == [] then |b|
    else if b == [] then |a|
    else Best(Lev(Init(a), b), Lev(a, Init(b)), Lev(Init(a), Init(b)), Last(a) == Last(b))
  }

  // Deleting, inserting, or keeping or changing the last byte.
  function Best(delete: nat, insert: nat, keep: nat, equal: bool): nat {
    Min(delete + 1, Min(insert + 1, keep + if equal then 0 else 1))
  }

  // ------------------------------------------------------------ minimality

  // No script is cheaper.
  lemma {:induction false} NoScriptCheaper(script: Script, a: Bytes, b: Bytes)
    requires Edits(script, a, b)
    ensures Cost(script) >= Lev(a, b)
  {
    if script != [] {
      var rest := Init(script);
      match Last(script)
      case Keep => NoScriptCheaper(rest, Init(a), Init(b));
      case Change(_) => NoScriptCheaper(rest, Init(a), Init(b));
      case Insert(_) => NoScriptCheaper(rest, a, Init(b));
      case Delete => NoScriptCheaper(rest, Init(a), b);
    }
  }

  lemma Extended(rest: Script, e: Edit)
    ensures Init(rest + [e]) == rest && Last(rest + [e]) == e
    ensures Cost(rest + [e]) == Cost(rest) + (if e == Keep then 0 else 1)
  {
  }

  // Some script costs exactly that much.
  lemma {:induction false} CheapestScript(a: Bytes, b: Bytes) returns (script: Script)
    ensures Edits(script, a, b) && Cost(script) == Lev(a, b)
    decreases |a| + |b|
  {
    if a == [] && b == [] {
      script := [];
    } else {
      var rest, e;
      if b != [] && Lev(a, b) == Lev(a, Init(b)) + 1 {
        e := Insert(Last(b));
        rest := CheapestScript(a, Init(b));
      } else if a != [] && Lev(a, b) == Lev(Init(a), b) + 1 {
        e := Delete;
        rest := CheapestScript(Init(a), b);
      } else {
        e := if Last(a) == Last(b) then Keep else Change(Last(b));
        rest := CheapestScript(Init(a), Init(b));
      }
      Extended(rest, e);
      script := rest + [e];
    }
  }

  // ------------------------------------------------------------ metric laws

  lemma {:induction false} Symmetric(a: Bytes, b: Bytes)
    ensures Lev(a, b) == Lev(b, a)
    decreases |a| + |b|
  {
    if a != [] && b != [] {
      Symmetric(Init(a), b);
      Symmetric(a, Init(b));
      Symmetric(Init(a), Init(b));
    }
  }

  lemma {:induction false} ZeroOnlyIfEqual(a: Bytes, b: Bytes)
    ensures Lev(a, b) == 0 <==> a == b
    decreases |a|
  {
    if a != [] && b != [] {
      ZeroOnlyIfEqual(Init(a), Init(b));
      assert a == Init(a) + [Last(a)] && b == Init(b) + [Last(b)];
    }
  }

  // The combined effect of an edit that produces a character and one that consumes it.
  function Fuse(p: Edit, q: Edit): Edit
    requires !p.Delete? && !q.Insert?
  {
    match q
    case Delete => Delete
    case Keep => p
    case Change(c) => if p.Insert? then Insert(c) else Change(c)
    case Insert(c) => q
  }

  // Scripts compose, and composing never costs more than both.
  lemma {:induction false} Compose(p: Script, q: Script, a: Bytes, b: Bytes, c: Bytes) returns (r: Script)
    requires Edits(p, a, b) && Edits(q, b, c)
    ensures Edits(r, a, c) && Cost(r) <= Cost(p) + Cost(q)
    decreases |p| + |q|
  {
    if p == [] && q == [] {
      r := [];
    } else if p != [] && Last(p).Delete? {
      r := Compose(Init(p), q, Init(a), b, c);
      Extended(r, Delete);
      r := r + [Delete];
    } else if q != [] && Last(q).Insert? {
      r := Compose(p, Init(q), a, b, Init(c));
      Extended(r, Last(q));
      r := r + [Last(q)];
    } else {
      var x, y := Last(p), Last(q);
      var a' := if x.Insert? then a else Init(a);
      var c' := if y.Delete? then c else Init(c);
      r := Compose(Init(p), Init(q), a', Init(b), c');
      if !(x.Insert? && y.Delete?) {
        Extended(r, Fuse(x, y));
        r := r + [Fuse(x, y)];
      }
    }
  }

  lemma Triangle(a: Bytes, b: Bytes, c: Bytes)
    ensures Lev(a, c) <= Lev(a, b) + Lev(b, c)
  {
    var p := CheapestScript(a, b);
    var q := CheapestScript(b, c);
    var r := Compose(p, q, a, b, c);
    NoScriptCheaper(r, a, c);
  }

  function Max(x: nat, y: nat): nat { if x < y then y else x }

  // At least the difference in length, at most the longer length.
  lemma {:induction false} Bounds(a: Bytes, b: Bytes)
    ensures |a| <= |b| + Lev(a, b) && |b| <= |a| + Lev(a, b) && Lev(a, b) <= Max(|a|, |b|)
    decreases |a| + |b|
  {
    if a != [] && b != [] {
      Bounds(Init(a), b);
      Bounds(a, Init(b));
      Bounds(Init(a), Init(b));
    }
  }

  // ------------------------------------------------------------ the two-row loop

  lemma LevSnoc(a: Bytes, b: Bytes, a': Bytes, b': Bytes, x: Byte, y: Byte)
    requires a' == a + [x] && b' == b + [y]
    ensures Lev(a', b') == Best(Lev(a, b'), Lev(a', b), Lev(a, b), x == y)
  {
    assert Init(a') == a && Init(b') == b;
  }

  lemma LevCell(s: Bytes, t: Bytes, i: nat, j: nat)
    requires i < |s| && j < |t|
    ensures Lev(s[..i + 1], t[..j + 1])
         == Best(Lev(s[..i], t[..j + 1]), Lev(s[..i + 1], t[..j]), Lev(s[..i], t[..j]), s[i] == t[j])
  {
    LevSnoc(s[..i], t[..j], s[..i + 1], t[..j + 1], s[i], t[j]);
  }

  // One cell from its neighbours above, to the left and between them.
  method Cell(s: Bytes, t: Bytes, i: nat, j: nat, above: nat, left: nat, corner: nat) returns (r: nat)
    requires i < |s| && j < |t|
    requires above == Lev(s[..i], t[..j + 1]) && left == Lev(s[..i + 1], t[..j]) && corner == Lev(s[..i], t[..j])
    ensures r == Lev(s[..i + 1], t[..j + 1])
  {
    var dc := above + 1;
    var ic := left + 1;
    var sc := if s[i] == t[j] then corner else corner + 1;
    r := Min(dc, Min(ic, sc));
    assert r == Best(above, left, corner, s[i] == t[j]);
    LevCell(s, t, i, j);
  }

  // The inner loop: fills one row from the row above it.
  method FillRow(s: Bytes, t: Bytes, i: nat, v0: array<nat>, v1: array<nat>)
    requires i < |s| && v0.Length == v1.Length == |t| + 1 && v0 != v1
    requires forall j :: 0 <= j <= |t| ==> v0[j] == Lev(s[..i], t[..j])
    modifies v1
    ensures forall j :: 0 <= j <= |t| ==> v1[j] == Lev(s[..i + 1], t[..j])
  {
    v1[0] := i + 1;
    for j := 0 to |t|
      invariant forall l :: 0 <= l <= j ==> v1[l] == Lev(s[..i + 1], t[..l])
    {
      v1[j + 1] := Cell(s, t, i, j, v0[j + 1], v1[j], v0[j]);
    }
  }

  // The rolling computation returns the cost of a cheapest edit script.
  method Distance(s: Bytes, t: Bytes) returns (d: nat)
    ensures exists script :: Edits(script, s, t) && Cost(script) == d
    ensures forall script :: Edits(script, s, t) ==> Cost(script) >= d
    ensures d == Lev(s, t)
  {
    var n := |t|;
    var v0, v1 := new nat[n + 1], new nat[n + 1];
    for i := 0 to n + 1
      invariant forall j :: 0 <= j < i ==> v0[j] == j
    {
      v0[i] := i;
    }
    assert s[..0] == [];
    for i := 0 to |s|
      invariant v0 != v1 && fresh(v0) && fresh(v1) && v0.Length == v1.Length == n + 1
      invariant forall j :: 0 <= j <= n ==> v0[j] == Lev(s[..i], t[..j])
    {
      FillRow(s, t, i, v0, v1);
      v0, v1 := v1, v0;
    }
    assert s[..|s|] == s && t[..n] == t;
    d := v0[n];
    ghost var best := CheapestScript(s, t);
    forall script | Edits(script, s, t) ensures Cost(script) >= d {
      NoScriptCheaper(script, s, t);
    }
  }
}
