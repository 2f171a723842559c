// The set of pointers (hset): an insertion into a table more than half full
// first inserts every old key again into one twice the size.
module HashSet {
  import opened Probing
  import opened Options
  import opened LinearTable
  import opened HashTables

  function KeyCells(keys: seq<Option<Key>>): (cells: seq<Cell>)
    ensures |cells| == |keys|
  {
    seq(|keys|, i requires 0 <= i < |keys| => if keys[i].None? then Empty else Cell(keys[i].value, true, 1))
  }

  lemma KeyWrite(keys: seq<Option<Key>>, p: nat, key: Key)
    requires p < |keys|
    ensures KeyCells(keys[p := Some(key)]) == KeyCells(keys)[p := Cell(key, true, 1)]
  {
  }

  lemma KeyHas(keys: seq<Option<Key>>, key: Key)
    ensures Has(Equal(), KeyCells(keys), key) <==> Some(key) in keys
  {
    if Has(Equal(), KeyCells(keys), key) {
      var p :| 0 <= p < |keys| && Matches(Equal(), KeyCells(keys)[p], key);
      assert keys[p] == Some(key);
    }
    if Some(key) in keys {
      var p :| 0 <= p < |keys| && keys[p] == Some(key);
      assert Matches(Equal(), KeyCells(keys)[p], key);
    }
  }

  lemma ProbeStops(h: HashFn, keys: seq<Option<Key>>, key: Key) returns (m: nat)
    requires |keys| > 0 && (Used(KeyCells(keys)) < |keys| || Some(key) in keys)
    ensures Stops(Equal(), KeyCells(keys)[LinearSlot(h(key), m, |keys|)], key)
  {
    KeyHas(keys, key);
    ProbeEndsIff(h, Equal(), KeyCells(keys), key);
    m :| Stops(Equal(), KeyCells(keys)[LinearSlot(h(key), m, |keys|)], key);
  }

  ghost function KeySet(keys: seq<Option<Key>>): (all: set<Key>)
    ensures forall k: Key :: k in all <==> Some(k) in keys
  {
    var all := set x | x in keys && x.Some? :: x.value;
    assert forall k: Key :: Some(k) in keys ==> Some(k).value in all;
    all
  }

  class PointerSet {
    const h: HashFn
    var size: nat
    var members: nat
    var keys: array<Option<Key>>          // None is NULL

    ghost function Cells(): (cells: seq<Cell>)
      reads this, keys
      ensures |cells| == keys.Length
    {
      KeyCells(keys[..])
    }

    ghost function Elements(): set<Key>
      reads this, keys
    {
      KeySet(keys[..])
    }

    ghost predicate Valid()
      reads this, keys
    {
      && size == keys.Length
      && Ok(h, Equal(), Cells())
      && members == Used(Cells()) <= size / 2 + 1
    }

    constructor (h: HashFn, size: nat)
      requires size > 0
      ensures Valid() && this.size == size && this.h == h && members == 0 && Elements() == {} && fresh(keys)
    {
      this.h, this.size, this.members := h, size, 0;
      keys := new Option<Key>[size](_ => None);
      new;
      UsedNew(size);
      assert Cells() == seq(size, _ => Empty);
    }

    method Find(key: Key) returns (slot: nat, ghost k: nat)
      requires size == keys.Length && Ok(h, Equal(), Cells()) && (Used(Cells()) < size || key in Elements())
      ensures slot < size && slot == LinearSlot(h(key), k, size) && Passed(h, Equal(), Cells(), key, k)
      ensures keys[slot].None? || keys[slot] == Some(key)
    {
      ghost var cells := Cells();
      ghost var m := ProbeStops(h, keys[..], key);
      slot, k := h(key) % size, 0;
      while keys[slot] != None && keys[slot] != Some(key)
        invariant slot == LinearSlot(h(key), k, size) && Passed(h, Equal(), cells, key, k) && k <= m
        decreases m - k
      {
        PassNext(h, Equal(), cells, key, slot, k);
        slot, k := (slot + 1) % size, k + 1;
      }
    }

    method Contains(key: Key) returns (found: bool)
      requires Valid() && (size >= 4 || members < size || key in Elements())
      ensures found <==> key in Elements()
    {
      var slot, k := Find(key);
      KeyHas(keys[..], key);
      if keys[slot].None? {
        EmptyMeansAbsent(h, Equal(), Cells(), key, slot, k);
        return false;
      }
      return true;
    }

    // The part of an insertion after the rebuild.
    method Place(key: Key)
      requires Valid() && members <= size / 2
      modifies this`members, keys
      ensures Valid() && Elements() == old(Elements()) + {key}
      ensures members == old(members) + (if key in old(Elements()) then 0 else 1)
    {
      var slot, k := Find(key);
      KeyHas(keys[..], key);
      if keys[slot] == Some(key) {
        assert keys[..][slot] == Some(key);
        return;
      }
      KeyWrite(keys[..], slot, key);
      EmptyMeansAbsent(h, Equal(), Cells(), key, slot, k);
      LinearTable.Insert(h, Equal(), Cells(), key, slot, k, 1);
      UsedWrite(Cells(), slot, Cell(key, true, 1));
      ghost var was := keys[..];
      keys[slot] := Some(key);
      members := members + 1;
      OneMoreKey(was, slot, key);
    }

    method Insert(key: Key)
      requires Valid()
      modifies this, keys
      ensures Valid() && size == (if old(members) > old(size) / 2 then 2 * old(size) else old(size))
      ensures if size == old(size) then keys == old(keys) else fresh(keys)
      ensures Elements() == old(Elements()) + {key}
      ensures members == old(members) + (if key in old(Elements()) then 0 else 1)
      decreases if members > size / 2 then 1 else 0, 1
    {
      if members > size / 2 {
        Rebuild();
      }
      Place(key);
    }

    method Allocate(newSize: nat)
      requires newSize > 0
      modifies this
      ensures Valid() && size == newSize && members == 0 && Elements() == {} && fresh(keys)
    {
      size, members := newSize, 0;
      keys := new Option<Key>[size](_ => None);
      UsedNew(size);
      assert Cells() == seq(size, _ => Empty);
    }

    method Rebuild()
      requires Valid() && members > size / 2
      modifies this
      ensures Valid() && size == 2 * old(size) && members == old(members) && Elements() == old(Elements())
              && fresh(keys)
      decreases 1, 0
    {
      var oldSize, oldKeys := size, keys;
      ghost var was := keys[..];
      Allocate(2 * size);
      for i := 0 to oldSize
        invariant Valid() && size == 2 * oldSize && fresh(keys) && oldSize == oldKeys.Length && oldKeys[..] == was
        invariant Elements() == KeySet(was[..i]) && members == Used(KeyCells(was)[..i]) <= i
      {
        KeyPrefix(h, was, i);
        if oldKeys[i].Some? {
          Insert(oldKeys[i].value);
        }
      }
      assert was[..oldSize] == was && KeyCells(was)[..oldSize] == KeyCells(was);
    }
  }

  lemma OneMoreKey(keys: seq<Option<Key>>, p: nat, key: Key)
    requires p < |keys| && keys[p].None?
    ensures KeySet(keys[p := Some(key)]) == KeySet(keys) + {key}
  {
    var keys' := keys[p := Some(key)];
    assert keys'[p] == Some(key);
    forall k | Some(k) in keys ensures Some(k) in keys' {
      var q :| 0 <= q < |keys| && keys[q] == Some(k);
      assert keys'[q] == Some(k);
    }
  }

  // Going one slot further: its key was not met before.
  lemma KeyPrefix(h: HashFn, keys: seq<Option<Key>>, i: nat)
    requires i < |keys| && Unique(Equal(), KeyCells(keys))
    ensures KeySet(keys[..i + 1]) == KeySet(keys[..i]) + (if keys[i].None? then {} else {keys[i].value})
    ensures keys[i].Some? ==> keys[i].value !in KeySet(keys[..i])
    ensures Used(KeyCells(keys)[..i + 1]) == Used(KeyCells(keys)[..i]) + (if keys[i].None? then 0 else 1)
  {
    var cells := KeyCells(keys);
    assert keys[..i + 1] == keys[..i] + [keys[i]];
    assert cells[..i + 1][..i] == cells[..i];
    forall p | 0 <= p < i && keys[i].Some? ensures keys[p] != keys[i] {
      assert cells[i].Cell? && (cells[p].Cell? ==> cells[p].key != cells[i].key);
    }
  }
}
