// The hash table from pointers to pointers (hash): a deleted key keeps its slot
// until the table is rebuilt.
module HashTables {
  import opened Probing
  import opened Options
  import opened LinearTable

  function Equal(): SameFn { (a: Key, b: Key) => a == b }

  function View(keys: seq<Option<Key>>, values: seq<Val>): (cells: seq<Cell>)
    requires |keys| == |values|
    ensures |cells| == |keys|
  {
    seq(|keys|, i requires 0 <= i < |keys| => if keys[i].None? then Empty else Cell(keys[i].value, true, values[i]))
  }

  lemma ViewAt(keys: seq<Option<Key>>, values: seq<Val>, i: nat)
    requires |keys| == |values| && i < |keys|
    ensures View(keys, values)[i] == if keys[i].None? then Empty else Cell(keys[i].value, true, values[i])
  {
  }

  lemma ViewWrite(keys: seq<Option<Key>>, values: seq<Val>, p: nat, key: Key, v: Val)
    requires |keys| == |values| && p < |keys|
    ensures View(keys[p := Some(key)], values[p := v]) == View(keys, values)[p := Cell(key, true, v)]
  {
  }

  ghost predicate AddsKey(cells: seq<Cell>, cells': seq<Cell>, key: Key) {
    forall other: Key :: Has(Equal(), cells', other) <==> other == key || Has(Equal(), cells, other)
  }

  lemma HasAfterWrite(cells: seq<Cell>, p: nat, key: Key, v: Val)
    requires p < |cells| && (cells[p].Empty? || Matches(Equal(), cells[p], key))
    ensures AddsKey(cells, cells[p := Cell(key, true, v)], key)
  {
    var cells' := cells[p := Cell(key, true, v)];
    assert Matches(Equal(), cells'[p], key);
    forall other: Key | other != key ensures Has(Equal(), cells', other) <==> Has(Equal(), cells, other) {
      assert forall q :: 0 <= q < |cells| ==>
          (Matches(Equal(), cells'[q], other) <==> Matches(Equal(), cells[q], other));
    }
  }

  // ---------------------------------------------------------------- hash

  class HashTable {
    const h: HashFn
    var size: nat
    var members: nat
    var values: array<Val>
    var keys: array<Option<Key>>

    ghost function Cells(): (cells: seq<Cell>)
      reads this, keys, values
      requires keys.Length == values.Length
      ensures |cells| == keys.Length
    {
      View(keys[..], values[..])
    }

    ghost predicate Valid()
      reads this, keys, values
    {
      && size == keys.Length == values.Length
      && Ok(h, Equal(), Cells())
      && members == Used(Cells()) <= size / 2 + 1
    }

    // The value a lookup of the key must return.
    ghost function Value(key: Key): Val
      reads this, keys, values
      requires Valid()
    {
      Lookup(Equal(), Cells(), key)
    }

    constructor (h: HashFn, size: nat)
      requires size > 0
      ensures Valid() && this.size == size && this.h == h && members == 0 && Cells() == seq(size, _ => Empty)
      ensures fresh(keys) && fresh(values)
    {
      this.h, this.size, this.members := h, size, 0;
      values := new Val[size](_ => 0);
      keys := new Option<Key>[size](_ => None);
      new;
      UsedNew(size);
      assert Cells() == seq(size, _ => Empty);
    }

    // The probe shared by put, get and delete.
    method Find(key: Key) returns (slot: nat, ghost k: nat)
      requires Valid() && (size >= 4 || members < size || Has(Equal(), Cells(), key))
      ensures slot < size && slot == LinearSlot(h(key), k, size) && Passed(h, Equal(), Cells(), key, k)
      ensures keys[slot].None? || keys[slot] == Some(key)
    {
      ghost var cells := Cells();
      assert members < size || Has(Equal(), cells, key);
      ProbeEndsIff(h, Equal(), cells, key);
      ghost var m: nat :| Stops(Equal(), cells[LinearSlot(h(key), m, |cells|)], key);
      slot, k := h(key) % size, 0;
      while keys[slot] != Some(key) && keys[slot] != None
        invariant slot == LinearSlot(h(key), k, size) && Passed(h, Equal(), cells, key, k) && k <= m
        decreases m - k
      {
        PassNext(h, Equal(), cells, key, slot, k);
        slot, k := (slot + 1) % size, k + 1;
      }
    }

    method Get(key: Key) returns (value: Val)
      requires Valid() && (size >= 4 || members < size || Has(Equal(), Cells(), key))
      ensures value == Value(key)
    {
      var slot, k := Find(key);
      if keys[slot] == Some(key) {
        LookupAt(h, Equal(), Cells(), slot, key);
        value := values[slot];
      } else {
        EmptyMeansAbsent(h, Equal(), Cells(), key, slot, k);
        value := 0;
      }
    }

    method Delete(key: Key)
      requires Valid() && (size >= 4 || members < size || Has(Equal(), Cells(), key))
      modifies values
      ensures Valid() && members == old(members)
      ensures Updates(Equal(), old(Cells()), Cells(), key, 0)
    {
      var slot, k := Find(key);
      if keys[slot] == Some(key) {
        Assign(key, 0, slot);
      } else {
        EmptyMeansAbsent(h, Equal(), Cells(), key, slot, k);
      }
    }

    method Assign(key: Key, value: Val, slot: nat)
      requires Valid() && slot < size && keys[slot] == Some(key)
      modifies values
      ensures Valid() && Updates(Equal(), old(Cells()), Cells(), key, value)
      ensures Cells() == old(Cells())[slot := Cell(key, true, value)]
    {
      assert Matches(Equal(), Cells()[slot], key);
      ViewWrite(keys[..], values[..], slot, key, value);
      Overwrite(h, Equal(), Cells(), key, slot, value, true);
      values[slot] := value;
      assert keys[..] == keys[..][slot := Some(key)];
    }

    // Takes an empty slot at the end of a probe.
    method Store(key: Key, value: Val, slot: nat, ghost k: nat)
      requires Valid() && slot < size && slot == LinearSlot(h(key), k, size) && Passed(h, Equal(), Cells(), key, k)
      requires keys[slot].None? && members <= size / 2
      modifies this`members, keys, values
      ensures Valid() && members == old(members) + 1
      ensures Cells() == old(Cells())[slot := Cell(key, true, value)]
      ensures Updates(Equal(), old(Cells()), Cells(), key, value)
    {
      ghost var cells := Cells();
      ViewWrite(keys[..], values[..], slot, key, value);
      Insert(h, Equal(), cells, key, slot, k, value);
      values[slot] := value;
      keys[slot] := Some(key);
      members := members + 1;
    }

    // One entry of the old table.
    method Reinsert(key: Option<Key>, value: Val, ghost cells: seq<Cell>, ghost i: nat)
      requires Valid() && members <= size / 2 && NoneDeleted(Cells()) && Ok(h, Equal(), cells)
      requires i < |cells| && cells[i] == (if key.None? then Empty else Cell(key.value, true, value))
      requires Agree(Equal(), Cells(), cells[..i])
      modifies this`members, keys, values
      ensures Valid() && members <= old(members) + 1 && NoneDeleted(Cells())
      ensures Agree(Equal(), Cells(), cells[..i + 1])
    {
      OneMoreSlot(h, Equal(), cells, i);
      if key.Some? && value != 0 {
        HasIffValue(Equal(), Cells(), key.value);
        var slot, k := FindEmpty(key.value);
        Store(key.value, value, slot, k);
      }
    }

    // The inner loop of a rebuild: the key is known to be new.
    method FindEmpty(key: Key) returns (slot: nat, ghost k: nat)
      requires Valid() && members < size && !Has(Equal(), Cells(), key)
      ensures slot < size && slot == LinearSlot(h(key), k, size) && Passed(h, Equal(), Cells(), key, k)
      ensures keys[slot].None?
    {
      ghost var cells := Cells();
      ProbeEndsIff(h, Equal(), cells, key);
      ghost var m: nat :| Stops(Equal(), cells[LinearSlot(h(key), m, |cells|)], key);
      slot, k := h(key) % size, 0;
      while keys[slot] != None
        invariant slot == LinearSlot(h(key), k, size) && Passed(h, Equal(), cells, key, k) && k <= m
        decreases m - k
      {
        assert keys[slot] != Some(key) by { assert !Matches(Equal(), cells[slot], key); }
        PassNext(h, Equal(), cells, key, slot, k);
        slot, k := (slot + 1) % size, k + 1;
      }
    }

    method Allocate(newSize: nat)
      requires newSize > 0
      modifies this
      ensures Valid() && size == newSize && members == 0 && Cells() == seq(size, _ => Empty)
      ensures fresh(keys) && fresh(values)
    {
      size, members := newSize, 0;
      values := new Val[size](_ => 0);
      keys := new Option<Key>[size](_ => None);
      UsedNew(size);
      assert Cells() == seq(size, _ => Empty);
    }

    // Inserts the entries of another table into this one, which is new.
    method Refill(oldKeys: array<Option<Key>>, oldValues: array<Val>, ghost cells: seq<Cell>)
      requires Valid() && members == 0 && Cells() == seq(size, _ => Empty) && oldKeys != keys && oldValues != values
      requires oldKeys.Length == oldValues.Length <= size / 2 && cells == View(oldKeys[..], oldValues[..])
               && Ok(h, Equal(), cells)
      modifies this`members, keys, values
      ensures Valid() && members <= oldKeys.Length
      ensures Agree(Equal(), Cells(), cells) && NoneDeleted(Cells())
    {
      for i := 0 to oldKeys.Length
        invariant Valid() && members <= i && cells == View(oldKeys[..], oldValues[..])
        invariant NoneDeleted(Cells()) && Agree(Equal(), Cells(), cells[..i])
      {
        ViewAt(oldKeys[..], oldValues[..], i);
        Reinsert(oldKeys[i], oldValues[i], cells, i);
      }
      assert cells[..oldKeys.Length] == cells;
    }

    // Doubles the table; deleted keys are dropped and every lookup stays the same.
    method Rebuild()
      requires Valid()
      modifies this
      ensures Valid() && size == 2 * old(size) && members <= old(size)
      ensures fresh(keys) && fresh(values)
      ensures Agree(Equal(), Cells(), old(Cells())) && NoneDeleted(Cells())
    {
      var oldKeys, oldValues := keys, values;
      ghost var cells := Cells();
      Allocate(2 * size);
      Refill(oldKeys, oldValues, cells);
    }

    // The part of a put after the rebuild; returns whether the key had a slot.
    method Place(key: Key, value: Val) returns (found: bool)
      requires Valid() && members <= size / 2
      modifies this`members, keys, values
      ensures Valid() && (found <==> old(Has(Equal(), Cells(), key)))
              && members == old(members) + (if found then 0 else 1)
      ensures Updates(Equal(), old(Cells()), Cells(), key, value) && AddsKey(old(Cells()), Cells(), key)
    {
      var slot, k := Find(key);
      found := keys[slot] == Some(key);
      assert found ==> Matches(Equal(), Cells()[slot], key);
      HasAfterWrite(Cells(), slot, key, value);
      if found {
        Assign(key, value, slot);
      } else {
        EmptyMeansAbsent(h, Equal(), Cells(), key, slot, k);
        Store(key, value, slot, k);
      }
    }

    // A rebuild forgets the deleted keys, so `found` then tells whether the key had a value.
    method Put(key: Key, value: Val) returns (found: bool)
      requires Valid()
      modifies this, keys, values
      ensures Valid() && size == (if old(members) > old(size) / 2 then 2 * old(size) else old(size))
      ensures (keys == old(keys) && values == old(values)) || (fresh(keys) && fresh(values))
      ensures size == old(size) ==>
                members == old(members) + (if found then 0 else 1) && AddsKey(old(Cells()), Cells(), key)
      ensures found <==> if size == old(size) then old(Has(Equal(), Cells(), key)) else old(Value(key)) != 0
      ensures Updates(Equal(), old(Cells()), Cells(), key, value)
    {
      if members > size / 2 {
        Rebuild();
        HasIffValue(Equal(), Cells(), key);
      }
      found := Place(key, value);
    }
  }

  // A table created with two slots fills up, and then no probe for a third key ever ends.
  method TwoSlotsFill(h: HashFn, a: Key, b: Key, v: Val) returns (t: HashTable)
    requires a != b
    ensures t.Valid() && t.size == 2 && t.h == h
    ensures forall key: Key, k: nat :: key != a && key != b ==>
            !Stops(Equal(), t.Cells()[LinearSlot(h(key), k, 2)], key)
  {
    t := new HashTable(h, 2);
    assert !Has(Equal(), t.Cells(), a);
    var p := t.Put(a, v);
    var q := t.Put(b, v);
    ghost var cells := t.Cells();
    UsedAll(cells);
    forall key: Key, k: nat | key != a && key != b ensures !Stops(Equal(), cells[LinearSlot(h(key), k, 2)], key) {
      assert !Has(Equal(), cells, key);
    }
  }
}
