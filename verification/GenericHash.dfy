// The generic hash table (ghash): hash and comparison are supplied by the user,
// the hash of every key is kept in its slot, and a delete clears it, so that
// later probes skip the slot.
module GenericHash {
  import opened Probing
  import opened Options
  import opened LinearTable

  function View(h: HashFn, keys: seq<Option<Key>>, values: seq<Val>, hashes: seq<nat>): (cells: seq<Cell>)
    requires |keys| == |values| == |hashes|
    ensures |cells| == |keys|
  {
    seq(|keys|, i requires 0 <= i < |keys| =>
      if keys[i].None? then Empty else Cell(keys[i].value, hashes[i] == h(keys[i].value), values[i]))
  }

  lemma ViewWrite(h: HashFn, keys: seq<Option<Key>>, values: seq<Val>, hashes: seq<nat>, p: nat, key: Key, v: Val,
      hash: nat)
    requires |keys| == |values| == |hashes| && p < |keys|
    ensures View(h, keys[p := Some(key)], values[p := v], hashes[p := hash]) ==
            View(h, keys, values, hashes)[p := Cell(key, hash == h(key), v)]
  {
  }

  // Keys match when they are the same pointer or compare equal.
  function Same(cmp: SameFn): SameFn { (a: Key, b: Key) => a == b || cmp(a, b) }

  class GenericTable {
    const h: HashFn
    const cmp: SameFn
    var size: nat
    var members: nat
    var values: array<Val>
    var keys: array<Option<Key>>
    var hashes: array<nat>

    ghost predicate Shape()
      reads this
    {
      size == keys.Length == values.Length == hashes.Length && hashes != values
    }

    ghost function Cells(): (cells: seq<Cell>)
      reads this, keys, values, hashes
      requires Shape()
      ensures |cells| == keys.Length
    {
      View(h, keys[..], values[..], hashes[..])
    }

    ghost predicate Valid()
      reads this, keys, values, hashes
    {
      && Shape()
      && Lawful(h, Same(cmp))
      && Ok(h, Same(cmp), Cells())
      && members == Used(Cells()) <= size / 2 + 1
    }

    constructor (h: HashFn, cmp: SameFn, size: nat)
      requires size > 0 && Lawful(h, Same(cmp))
      ensures Valid() && this.size == size && this.h == h && this.cmp == cmp && members == 0
              && Cells() == seq(size, _ => Empty)
      ensures fresh(keys) && fresh(values) && fresh(hashes)
    {
      this.h, this.cmp, this.size, this.members := h, cmp, size, 0;
      values := new Val[size](_ => 0);
      keys := new Option<Key>[size](_ => None);
      hashes := new nat[size](_ => 0);
      new;
      UsedNew(size);
      assert Cells() == seq(size, _ => Empty);
    }

    // A cleared slot never matches: its stored hash is that of no equal key.
    lemma MatchesIff(slot: nat, key: Key)
      requires Shape() && Lawful(h, Same(cmp)) && slot < size && keys[slot].Some?
      ensures Matches(Same(cmp), Cells()[slot], key) <==>
              hashes[slot] == h(key) && (keys[slot].value == key || cmp(keys[slot].value, key))
    {
      assert Same(cmp)(keys[slot].value, key) ==> h(keys[slot].value) == h(key);
    }

    // The probe shared by put, get and delete.
    method Find(key: Key) returns (slot: nat, ghost k: nat)
      requires Valid() && (members < size || Has(Same(cmp), Cells(), key))
      ensures slot < size && slot == LinearSlot(h(key), k, size) && Passed(h, Same(cmp), Cells(), key, k)
      ensures keys[slot].None? || Matches(Same(cmp), Cells()[slot], key)
    {
      ghost var cells := Cells();
      ProbeEndsIff(h, Same(cmp), cells, key);
      ghost var m: nat :| Stops(Same(cmp), cells[LinearSlot(h(key), m, |cells|)], key);
      var hash := h(key);
      slot, k := hash % size, 0;
      while keys[slot].Some? && !(hashes[slot] == hash && (keys[slot].value == key || cmp(keys[slot].value, key)))
        invariant slot == LinearSlot(h(key), k, size) && Passed(h, Same(cmp), cells, key, k) && k <= m
        decreases m - k
      {
        MatchesIff(slot, key);
        PassNext(h, Same(cmp), cells, key, slot, k);
        slot, k := (slot + 1) % size, k + 1;
      }
      if keys[slot].Some? { MatchesIff(slot, key); }
    }

    method Get(key: Key) returns (value: Val)
      requires Valid() && (size >= 4 || members < size || Has(Same(cmp), Cells(), key))
      ensures value == Lookup(Same(cmp), Cells(), key)
    {
      var slot, k := Find(key);
      if keys[slot].None? {
        EmptyMeansAbsent(h, Same(cmp), Cells(), key, slot, k);
        value := 0;
      } else {
        LookupAt(h, Same(cmp), Cells(), slot, key);
        value := values[slot];
      }
    }

    method Delete(key: Key)
      requires Valid() && (size >= 4 || members < size || Has(Same(cmp), Cells(), key))
      modifies values, hashes
      ensures Valid() && members == old(members)
      ensures Updates(Same(cmp), old(Cells()), Cells(), key, 0)
    {
      var slot, k := Find(key);
      if keys[slot].Some? {
        ViewWrite(h, keys[..], values[..], hashes[..], slot, keys[slot].value, 0, 0);
        Overwrite(h, Same(cmp), Cells(), key, slot, 0, 0 == h(keys[slot].value));
        values[slot] := 0;
        hashes[slot] := 0;
        assert keys[..] == keys[..][slot := Some(keys[slot].value)];
      } else {
        EmptyMeansAbsent(h, Same(cmp), Cells(), key, slot, k);
      }
    }

    // Overwrites the value of a matching slot, which keeps its own key.
    method Assign(key: Key, value: Val, slot: nat)
      requires Valid() && slot < size && Matches(Same(cmp), Cells()[slot], key)
      modifies values
      ensures Valid() && Updates(Same(cmp), old(Cells()), Cells(), key, value)
    {
      ViewWrite(h, keys[..], values[..], hashes[..], slot, keys[slot].value, value, hashes[slot]);
      Overwrite(h, Same(cmp), Cells(), key, slot, value, true);
      values[slot] := value;
      assert keys[..] == keys[..][slot := Some(keys[slot].value)];
      assert hashes[..] == hashes[..][slot := hashes[slot]];
    }

    method Store(key: Key, value: Val, slot: nat, ghost k: nat)
      requires Valid() && slot < size && slot == LinearSlot(h(key), k, size) && Passed(h, Same(cmp), Cells(), key, k)
      requires keys[slot].None? && members <= size / 2
      modifies this`members, keys, values, hashes
      ensures Valid() && members == old(members) + 1
      ensures Cells() == old(Cells())[slot := Cell(key, true, value)]
      ensures Updates(Same(cmp), old(Cells()), Cells(), key, value)
    {
      ViewWrite(h, keys[..], values[..], hashes[..], slot, key, value, h(key));
      Insert(h, Same(cmp), Cells(), key, slot, k, value);
      values[slot] := value;
      keys[slot] := Some(key);
      hashes[slot] := h(key);
      members := members + 1;
    }

    // The inner loop of a rebuild: the stored hash is used and the key is known to be new.
    method FindEmpty(key: Key, hash: nat) returns (slot: nat, ghost k: nat)
      requires Valid() && members < size && hash == h(key) && !Has(Same(cmp), Cells(), key) && NoneDeleted(Cells())
      ensures slot < size && slot == LinearSlot(h(key), k, size) && Passed(h, Same(cmp), Cells(), key, k)
      ensures keys[slot].None?
    {
      ghost var cells := Cells();
      ProbeEndsIff(h, Same(cmp), cells, key);
      ghost var m: nat :| Stops(Same(cmp), cells[LinearSlot(h(key), m, |cells|)], key);
      slot, k := hash % size, 0;
      while keys[slot] != None
        invariant slot == LinearSlot(h(key), k, size) && Passed(h, Same(cmp), cells, key, k) && k <= m
        decreases m - k
      {
        assert keys[slot] != Some(key) by { assert !Matches(Same(cmp), cells[slot], key); }
        PassNext(h, Same(cmp), cells, key, slot, k);
        slot, k := (slot + 1) % size, k + 1;
      }
    }

    // One entry of the old table.
    method Reinsert(key: Option<Key>, value: Val, hash: nat, ghost cells: seq<Cell>, ghost i: nat)
      requires Valid() && members <= size / 2 && NoneDeleted(Cells()) && Ok(h, Same(cmp), cells)
      requires i < |cells| && cells[i] == (if key.None? then Empty else Cell(key.value, hash == h(key.value), value))
      requires Agree(Same(cmp), Cells(), cells[..i])
      modifies this`members, keys, values, hashes
      ensures Valid() && members <= old(members) + 1 && NoneDeleted(Cells())
      ensures Agree(Same(cmp), Cells(), cells[..i + 1])
    {
      OneMoreSlot(h, Same(cmp), cells, i);
      if key.Some? && value != 0 {
        HasIffValue(Same(cmp), Cells(), key.value);
        var slot, k := FindEmpty(key.value, hash);
        Store(key.value, value, slot, k);
      }
    }

    method Allocate(newSize: nat)
      requires newSize > 0 && Lawful(h, Same(cmp))
      modifies this
      ensures Valid() && size == newSize && members == 0 && Cells() == seq(size, _ => Empty)
      ensures fresh(keys) && fresh(values) && fresh(hashes)
    {
      size, members := newSize, 0;
      values := new Val[size](_ => 0);
      keys := new Option<Key>[size](_ => None);
      hashes := new nat[size](_ => 0);
      UsedNew(size);
      assert Cells() == seq(size, _ => Empty);
    }

    // Entries whose value is NULL are dropped; no key pointer is met twice.
    method Rebuild()
      requires Valid()
      modifies this
      ensures Valid() && size == 2 * old(size) && members <= old(size)
      ensures fresh(keys) && fresh(values) && fresh(hashes)
      ensures Agree(Same(cmp), Cells(), old(Cells()))
    {
      var oldSize, oldKeys, oldValues, oldHashes := size, keys, values, hashes;
      ghost var cells := Cells();
      Allocate(2 * size);
      for i := 0 to oldSize
        invariant Valid() && size == 2 * oldSize && members <= i && fresh(keys) && fresh(values) && fresh(hashes)
        invariant oldSize == oldKeys.Length == oldValues.Length == oldHashes.Length
        invariant cells == View(h, oldKeys[..], oldValues[..], oldHashes[..])
        invariant NoneDeleted(Cells()) && Agree(Same(cmp), Cells(), cells[..i])
      {
        Reinsert(oldKeys[i], oldValues[i], oldHashes[i], cells, i);
      }
      assert cells[..oldSize] == cells;
    }

    method Put(key: Key, value: Val)
      requires Valid()
      modifies this, keys, values, hashes
      ensures Valid() && size == (if old(members) > old(size) / 2 then 2 * old(size) else old(size))
      ensures (keys == old(keys) && values == old(values) && hashes == old(hashes))
              || (fresh(keys) && fresh(values) && fresh(hashes))
      ensures Updates(Same(cmp), old(Cells()), Cells(), key, value)
    {
      if members > size / 2 {
        Rebuild();
      }
      var slot, k := Find(key);
      if keys[slot].None? {
        Store(key, value, slot, k);
      } else {
        Assign(key, value, slot);
      }
    }
  }
}
