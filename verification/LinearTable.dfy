// Open addressing with linear probing: the facts shared by the sequential hash
// tables, stated on the sequence of their slots.
module LinearTable {
  import opened Probing

  type Key = nat
  type Val = nat                     // 0 stands for NULL
  type HashFn = Key -> nat
  type SameFn = (Key, Key) -> bool

  // A slot: never used, or a key that a lookup may meet (live) or always skips.
  datatype Cell = Empty | Cell(key: Key, live: bool, value: Val)

  // The key comparison is an equivalence and equal keys hash alike.
  ghost predicate Lawful(h: HashFn, same: SameFn) {
    && (forall a: Key :: same(a, a))
    && (forall a: Key, b: Key :: same(a, b) ==> same(b, a) && h(a) == h(b))
    && (forall a: Key, b: Key, c: Key :: same(a, b) && same(b, c) ==> same(a, c))
  }

  predicate Matches(same: SameFn, c: Cell, key: Key) { c.Cell? && c.live && same(c.key, key) }

  // ---------------------------------------------------------------- the table as a dictionary

  ghost predicate Has(same: SameFn, cells: seq<Cell>, key: Key) {
    exists p :: 0 <= p < |cells| && Matches(same, cells[p], key)
  }

  // What the table says about a key; it does not depend on where the key sits.
  ghost function Lookup(same: SameFn, cells: seq<Cell>, key: Key): Val {
    if Has(same, cells, key) then
      var p :| 0 <= p < |cells| && Matches(same, cells[p], key);
      cells[p].value
    else 0
  }

  ghost predicate Unique(same: SameFn, cells: seq<Cell>) {
    forall p, q :: 0 <= p < q < |cells| && cells[p].Cell? && cells[q].Cell? && cells[p].live && cells[q].live ==>
      !same(cells[p].key, cells[q].key)
  }

  lemma LookupAt(h: HashFn, same: SameFn, cells: seq<Cell>, p: nat, key: Key)
    requires Lawful(h, same) && Unique(same, cells) && p < |cells| && Matches(same, cells[p], key)
    ensures Lookup(same, cells, key) == cells[p].value
    ensures forall q :: 0 <= q < |cells| && Matches(same, cells[q], key) ==> q == p
  {
    forall q | 0 <= q < |cells| && Matches(same, cells[q], key) ensures q == p {
      assert same(key, cells[p].key) && same(key, cells[q].key);
      assert same(cells[p].key, cells[q].key) && same(cells[q].key, cells[p].key);
    }
  }

  // Writing slot p: lookups change for its key only.
  lemma LookupElsewhere(h: HashFn, same: SameFn, cells: seq<Cell>, p: nat, c: Cell, key: Key)
    requires Lawful(h, same) && p < |cells| && Unique(same, cells) && Unique(same, cells[p := c])
    requires !Matches(same, cells[p], key) && !Matches(same, c, key)
    ensures Lookup(same, cells[p := c], key) == Lookup(same, cells, key)
  {
    var cells' := cells[p := c];
    if Has(same, cells, key) {
      var q :| 0 <= q < |cells| && Matches(same, cells[q], key);
      assert cells'[q] == cells[q];
      LookupAt(h, same, cells, q, key);
      LookupAt(h, same, cells', q, key);
    } else {
      forall q | 0 <= q < |cells| ensures !Matches(same, cells'[q], key) {
        assert q != p ==> cells'[q] == cells[q];
      }
    }
  }

  // ---------------------------------------------------------------- the probe

  ghost predicate ReachAt(cells: seq<Cell>, hash: nat, p: nat, k: nat)
    requires |cells| > 0
  {
    && p == LinearSlot(hash, k, |cells|)
    && forall j: nat :: j < k ==> !cells[LinearSlot(hash, j, |cells|)].Empty?
  }

  ghost predicate Reachable(cells: seq<Cell>, hash: nat, p: nat)
    requires |cells| > 0
  {
    exists k: nat :: ReachAt(cells, hash, p, k)
  }

  // No empty slot precedes a live key on its cyclic path, live keys differ, and dead ones hold nothing.
  ghost predicate Ok(h: HashFn, same: SameFn, cells: seq<Cell>) {
    && |cells| > 0
    && Unique(same, cells)
    && (forall p :: 0 <= p < |cells| && cells[p].Cell? && cells[p].live ==> Reachable(cells, h(cells[p].key), p))
    && (forall p :: 0 <= p < |cells| && cells[p].Cell? && !cells[p].live ==> cells[p].value == 0)
  }

  // The first k slots of the path are in use and do not match the key.
  ghost predicate Passed(h: HashFn, same: SameFn, cells: seq<Cell>, key: Key, k: nat)
    requires |cells| > 0
  {
    forall j: nat :: j < k ==>
      var c := cells[LinearSlot(h(key), j, |cells|)];
      !c.Empty? && !Matches(same, c, key)
  }

  predicate Stops(same: SameFn, c: Cell, key: Key) { c.Empty? || Matches(same, c, key) }

  lemma PassNext(h: HashFn, same: SameFn, cells: seq<Cell>, key: Key, slot: nat, k: nat)
    requires |cells| > 0 && slot == LinearSlot(h(key), k, |cells|) && Passed(h, same, cells, key, k)
    requires !Stops(same, cells[slot], key)
    ensures (slot + 1) % |cells| == LinearSlot(h(key), k + 1, |cells|) && Passed(h, same, cells, key, k + 1)
  {
    LinearStep(h(key), k, |cells|);
  }

  // An empty slot at the end of a probe: the key is not in the table.
  lemma EmptyMeansAbsent(h: HashFn, same: SameFn, cells: seq<Cell>, key: Key, slot: nat, k: nat)
    requires Lawful(h, same) && Ok(h, same, cells) && slot == LinearSlot(h(key), k, |cells|)
    requires Passed(h, same, cells, key, k) && cells[slot].Empty?
    ensures !Has(same, cells, key) && Lookup(same, cells, key) == 0
  {
    forall p | 0 <= p < |cells| && cells[p].Cell? && cells[p].live ensures !same(cells[p].key, key) {
      var m: nat :| ReachAt(cells, h(cells[p].key), p, m);
    }
  }

  // The probe for a key ends exactly when the key is there or some slot is empty.
  lemma ProbeEndsIff(h: HashFn, same: SameFn, cells: seq<Cell>, key: Key)
    requires |cells| > 0
    ensures (exists k: nat :: Stops(same, cells[LinearSlot(h(key), k, |cells|)], key)) <==>
            (exists p :: 0 <= p < |cells| && Stops(same, cells[p], key))
    ensures (exists p :: 0 <= p < |cells| && Stops(same, cells[p], key)) <==>
            Has(same, cells, key) || Used(cells) < |cells|
  {
    if p :| 0 <= p < |cells| && Stops(same, cells[p], key) {
      var k := LinearVisitsAll(h(key), |cells|, p);
      assert LinearSlot(h(key), k, |cells|) == p;
    }
    UsedAll(cells);
  }

  // ---------------------------------------------------------------- counting

  function Used(cells: seq<Cell>): (n: nat)
    ensures n <= |cells|
  {
    if cells == [] then 0 else Used(cells[..|cells| - 1]) + (if cells[|cells| - 1].Empty? then 0 else 1)
  }

  // A table is full exactly when every slot is in use.
  lemma {:induction false} UsedAll(cells: seq<Cell>)
    ensures Used(cells) == |cells| <==> forall p :: 0 <= p < |cells| ==> !cells[p].Empty?
    ensures Used(cells) < |cells| <==> exists p :: 0 <= p < |cells| && cells[p].Empty?
  {
    if cells != [] {
      var n := |cells| - 1;
      UsedAll(cells[..n]);
      assert forall p :: 0 <= p < n ==> cells[..n][p] == cells[p];
      if Used(cells) < |cells| && !cells[n].Empty? {
        var p :| 0 <= p < n && cells[..n][p].Empty?;
        assert cells[p].Empty?;
      }
    }
  }

  lemma {:induction false} UsedWrite(cells: seq<Cell>, p: nat, c: Cell)
    requires p < |cells| && c.Cell?
    ensures Used(cells[p := c]) == Used(cells) + if cells[p].Empty? then 1 else 0
  {
    var n := |cells| - 1;
    if p < n {
      UsedWrite(cells[..n], p, c);
      assert cells[p := c][..n] == cells[..n][p := c];
    } else {
      assert cells[p := c][..n] == cells[..n];
    }
  }

  lemma {:induction false} UsedNew(n: nat)
    ensures Used(seq(n, _ => Empty)) == 0
  {
    if n > 0 {
      UsedNew(n - 1);
      assert seq(n, _ => Empty)[..n - 1] == seq(n - 1, _ => Empty);
    }
  }

  // ---------------------------------------------------------------- updates

  lemma ReachKept(cells: seq<Cell>, p: nat, c: Cell, hash: nat, q: nat)
    requires p < |cells| && c.Cell? && Reachable(cells, hash, q)
    ensures Reachable(cells[p := c], hash, q)
  {
    var k: nat :| ReachAt(cells, hash, q, k);
    assert ReachAt(cells[p := c], hash, q, k);
  }

  // Filling the empty slot at the end of the probe.
  lemma Insert(h: HashFn, same: SameFn, cells: seq<Cell>, key: Key, slot: nat, k: nat, v: Val)
    requires Lawful(h, same) && Ok(h, same, cells) && slot == LinearSlot(h(key), k, |cells|)
    requires Passed(h, same, cells, key, k) && cells[slot].Empty?
    ensures var cells' := cells[slot := Cell(key, true, v)];
            Ok(h, same, cells') && Used(cells') == Used(cells) + 1 && Updates(same, cells, cells', key, v)
  {
    var c := Cell(key, true, v);
    var cells' := cells[slot := c];
    EmptyMeansAbsent(h, same, cells, key, slot, k);
    UsedWrite(cells, slot, c);
    forall p | 0 <= p < |cells| && cells[p].Cell? && cells[p].live
      ensures !same(cells[p].key, key) && !same(key, cells[p].key) && Reachable(cells', h(cells[p].key), p)
    {
      assert !Matches(same, cells[p], key);
      ReachKept(cells, slot, c, h(cells[p].key), p);
    }
    assert ReachAt(cells', h(key), slot, k);
    UpdateAt(h, same, cells, slot, c, key, v);
  }

  // Lookups of the key give v, all others are as before.
  ghost predicate Updates(same: SameFn, cells: seq<Cell>, cells': seq<Cell>, key: Key, v: Val) {
    forall other: Key :: Lookup(same, cells', other) == if same(other, key) then v else Lookup(same, cells, other)
  }

  lemma UpdateAt(h: HashFn, same: SameFn, cells: seq<Cell>, p: nat, c: Cell, key: Key, v: Val)
    requires Lawful(h, same) && p < |cells| && Unique(same, cells) && Unique(same, cells[p := c])
    requires c.Cell? && same(c.key, key) && c.value == v && (!c.live ==> v == 0)
    requires if Has(same, cells, key) then Matches(same, cells[p], key) && same(cells[p].key, c.key)
             else cells[p].Empty? && c.live
    ensures Updates(same, cells, cells[p := c], key, v)
  {
    var cells' := cells[p := c];
    forall other: Key ensures Lookup(same, cells', other) == if same(other, key) then v
        else Lookup(same, cells, other) {
      assert same(other, key) <==> same(c.key, other) by {
        assert same(other, key) ==> same(key, other);
        assert same(c.key, other) ==> same(other, c.key);
        assert same(c.key, key) ==> same(key, c.key);
      }
      if same(other, key) {
        if c.live {
          LookupAt(h, same, cells', p, other);
        } else {
          LookupAt(h, same, cells, p, key);
          forall q | 0 <= q < |cells'| ensures !Matches(same, cells'[q], other) {
            assert Matches(same, cells'[q], other) ==> Matches(same, cells[q], key);
          }
        }
      } else {
        LookupElsewhere(h, same, cells, p, c, other);
      }
    }
  }

  // Writing the value of a matching slot; clearing may also make lookups skip it.
  lemma Overwrite(h: HashFn, same: SameFn, cells: seq<Cell>, key: Key, slot: nat, v: Val, live: bool)
    requires Lawful(h, same) && Ok(h, same, cells) && slot < |cells| && Matches(same, cells[slot], key)
             && (!live ==> v == 0)
    ensures var cells' := cells[slot := Cell(cells[slot].key, live, v)];
            Ok(h, same, cells') && Used(cells') == Used(cells) && Updates(same, cells, cells', key, v)
  {
    var c := Cell(cells[slot].key, live, v);
    UsedWrite(cells, slot, c);
    forall p | 0 <= p < |cells| && cells[p].Cell? && cells[p].live
      ensures Reachable(cells[slot := c], h(cells[p].key), p) {
      ReachKept(cells, slot, c, h(cells[p].key), p);
    }
    UpdateAt(h, same, cells, slot, c, key, v);
  }

  // ---------------------------------------------------------------- rebuilding

  ghost predicate Agree(same: SameFn, a: seq<Cell>, b: seq<Cell>) {
    forall key: Key :: Lookup(same, a, key) == Lookup(same, b, key)
  }

  lemma AgreeStep(same: SameFn, a: seq<Cell>, a': seq<Cell>, b: seq<Cell>, b': seq<Cell>, key: Key, v: Val)
    requires Agree(same, a, b) && Updates(same, a, a', key, v) && Updates(same, b, b', key, v)
    ensures Agree(same, a', b')
  {
  }

  ghost predicate NoneDeleted(cells: seq<Cell>) {
    forall p :: 0 <= p < |cells| && cells[p].Cell? ==> cells[p].value != 0
  }

  lemma HasIffValue(same: SameFn, cells: seq<Cell>, key: Key)
    requires NoneDeleted(cells)
    ensures Has(same, cells, key) <==> Lookup(same, cells, key) != 0
  {
  }

  // Going one slot further through the old table.
  lemma OneMoreSlot(h: HashFn, same: SameFn, cells: seq<Cell>, i: nat)
    requires Lawful(h, same) && Unique(same, cells) && i < |cells|
    requires forall p :: 0 <= p < |cells| && cells[p].Cell? && !cells[p].live ==> cells[p].value == 0
    ensures cells[i].Cell? && cells[i].live ==>
              Updates(same, cells[..i], cells[..i + 1], cells[i].key, cells[i].value)
                  && Lookup(same, cells[..i], cells[i].key) == 0
    ensures !(cells[i].Cell? && cells[i].value != 0) ==> Agree(same, cells[..i + 1], cells[..i])
  {
    var was, now := cells[..i], cells[..i + 1];
    forall other: Key
      ensures Lookup(same, now, other) == if Matches(same, cells[i], other) then cells[i].value
              else Lookup(same, was, other)
      ensures Matches(same, cells[i], other) ==> Lookup(same, was, other) == 0
    {
      assert Unique(same, was) && Unique(same, now);
      if Matches(same, cells[i], other) {
        assert now[i] == cells[i];
        LookupAt(h, same, now, i, other);
        assert forall q :: 0 <= q < |was| ==> now[q] == was[q];
      } else if Has(same, was, other) {
        var q :| 0 <= q < |was| && Matches(same, was[q], other);
        assert now[q] == was[q];
        LookupAt(h, same, was, q, other);
        LookupAt(h, same, now, q, other);
      } else {
        forall q | 0 <= q < |now| ensures !Matches(same, now[q], other) {
          assert q < i ==> now[q] == was[q];
        }
      }
    }
  }
}
