// The hash table from integers to pointers (ihash): a put rebuilds by putting
// every entry again, and the last key looked up is cached.
module IntHash {
  import opened Probing
  import opened Options
  import opened LinearTable
  import opened HashTables

  class IntHashTable {
    const h: HashFn
    var size: nat
    var members: nat
    var cachekey: Key
    var cacheval: Val
    var values: array<Val>
    var keys: array<Option<Key>>       // None where the mask bit is clear

    ghost function Cells(): (cells: seq<Cell>)
      reads this, keys, values
      requires keys.Length == values.Length
      ensures |cells| == keys.Length
    {
      View(keys[..], values[..])
    }

    ghost predicate Valid()
      reads this, keys, values
    {
      && size == keys.Length == values.Length
      && Ok(h, Equal(), Cells())
      && members == Used(Cells()) <= size / 2 + 1
      && (members > 0 ==> cacheval == Lookup(Equal(), Cells(), cachekey))
    }

    // The cache is left as it was allocated.
    constructor (h: HashFn, size: nat, anyKey: Key, anyVal: Val)
      requires size > 0
      ensures Valid() && this.size == size && this.h == h && members == 0 && Cells() == seq(size, _ => Empty)
      ensures fresh(keys) && fresh(values)
    {
      this.h, this.size, this.members := h, size, 0;
      cachekey, cacheval := anyKey, anyVal;
      values := new Val[size](_ => 0);
      keys := new Option<Key>[size](_ => None);
      new;
      UsedNew(size);
      assert Cells() == seq(size, _ => Empty);
    }

    method Find(key: Key) returns (slot: nat, ghost k: nat)
      requires size == keys.Length == values.Length && Ok(h, Equal(), Cells())
      requires Used(Cells()) < size || Has(Equal(), Cells(), key)
      ensures slot < size && slot == LinearSlot(h(key), k, size) && Passed(h, Equal(), Cells(), key, k)
      ensures keys[slot].None? || keys[slot] == Some(key)
    {
      ghost var cells := Cells();
      ghost var m := ProbeStops(h, cells, key);
      slot, k := h(key) % size, 0;
      while keys[slot] != None && keys[slot] != Some(key)
        invariant slot == LinearSlot(h(key), k, size) && Passed(h, Equal(), cells, key, k) && k <= m
        decreases m - k
      {
        PassNext(h, Equal(), cells, key, slot, k);
        slot, k := (slot + 1) % size, k + 1;
      }
    }

    // A cached answer is the answer of a full lookup.
    method Get(key: Key) returns (value: Val)
      requires Valid() && (size >= 4 || members < size || Has(Equal(), Cells(), key))
      modifies this`cachekey, this`cacheval
      ensures Valid() && value == Lookup(Equal(), Cells(), key) && cachekey == key && cacheval == value
    {
      if members > 0 && key == cachekey {
        return cacheval;
      }
      cachekey := key;
      var slot, k := Find(key);
      if keys[slot].None? {
        EmptyMeansAbsent(h, Equal(), Cells(), key, slot, k);
        cacheval := 0;
      } else {
        LookupAt(h, Equal(), Cells(), slot, key);
        cacheval := values[slot];
      }
      value := cacheval;
    }

    method Allocate(newSize: nat)
      requires newSize > 0
      modifies this
      ensures Valid() && size == newSize && members == 0 && Cells() == seq(size, _ => Empty)
      ensures fresh(keys) && fresh(values)
    {
      size, members := newSize, 0;
      values := new Val[size](_ => 0);
      keys := new Option<Key>[size](_ => None);
      UsedNew(size);
      assert Cells() == seq(size, _ => Empty);
    }

    // Fills or overwrites the slot at the end of a probe; the cache already holds the new value.
    method Write(key: Key, value: Val, slot: nat, ghost k: nat)
      requires size == keys.Length == values.Length && Ok(h, Equal(), Cells()) && members == Used(Cells()) <= size / 2
      requires slot < size && slot == LinearSlot(h(key), k, size) && Passed(h, Equal(), Cells(), key, k)
      requires keys[slot].None? || keys[slot] == Some(key)
      modifies this`members, keys, values
      ensures size == keys.Length == values.Length && Ok(h, Equal(), Cells())
      ensures members == Used(Cells()) == old(members) + (if old(keys[slot]).None? then 1 else 0)
      ensures Updates(Equal(), old(Cells()), Cells(), key, value)
    {
      ViewWrite(keys[..], values[..], slot, key, value);
      if keys[slot].None? {
        Insert(h, Equal(), Cells(), key, slot, k, value);
        members := members + 1;
      } else {
        assert Matches(Equal(), Cells()[slot], key);
        Overwrite(h, Equal(), Cells(), key, slot, value, true);
      }
      values[slot] := value;
      keys[slot] := Some(key);
    }

    // The part of a put after the rebuild.
    method Place(key: Key, value: Val)
      requires Valid() && members <= size / 2
      modifies this`members, this`cachekey, this`cacheval, keys, values
      ensures Valid() && members <= old(members) + 1 && cachekey == key && cacheval == value
      ensures Updates(Equal(), old(Cells()), Cells(), key, value)
    {
      cachekey, cacheval := key, value;
      var slot, k := Find(key);
      Write(key, value, slot, k);
    }

    method Put(key: Key, value: Val)
      requires Valid()
      modifies this, keys, values
      ensures Valid() && size == (if old(members) > old(size) / 2 then 2 * old(size) else old(size))
      ensures if size == old(size) then keys == old(keys) && values == old(values) else fresh(keys) && fresh(values)
      ensures members <= old(members) + 1 && cachekey == key && cacheval == value
      ensures Updates(Equal(), old(Cells()), Cells(), key, value)
      decreases if members > size / 2 then 1 else 0, 1
    {
      if members > size / 2 {
        Rebuild();
      }
      Place(key, value);
    }

    // One entry of the old table; this put does not rebuild.
    method Reinsert(key: Option<Key>, value: Val, ghost cells: seq<Cell>, ghost i: nat)
      requires Valid() && i < |cells| <= size / 2 && members <= Used(cells[..i]) && Ok(h, Equal(), cells)
      requires cells[i] == (if key.None? then Empty else Cell(key.value, true, value))
      requires Agree(Equal(), Cells(), cells[..i])
      modifies this, keys, values
      ensures Valid() && size == old(size) && keys == old(keys) && values == old(values)
      ensures members <= Used(cells[..i + 1]) && Agree(Equal(), Cells(), cells[..i + 1])
      decreases 0, 2
    {
      UsedPrefix(cells, i);
      OneMoreSlot(h, Equal(), cells, i);
      if key.Some? {
        ghost var before := Cells();
        Put(key.value, value);
        AgreeStep(Equal(), before, Cells(), cells[..i], cells[..i + 1], key.value, value);
      }
    }

    // Puts every entry of the old table again.
    method Rebuild()
      requires Valid() && members > size / 2
      modifies this
      ensures Valid() && size == 2 * old(size) && members <= old(members)
      ensures fresh(keys) && fresh(values)
      ensures Agree(Equal(), Cells(), old(Cells()))
      decreases 1, 0
    {
      var oldSize, oldKeys, oldValues := size, keys, values;
      ghost var cells := Cells();
      Allocate(2 * size);
      for i := 0 to oldSize
        invariant Valid() && size == 2 * oldSize && members <= Used(cells[..i]) && fresh(keys) && fresh(values)
        invariant oldSize == oldKeys.Length == oldValues.Length && cells == View(oldKeys[..], oldValues[..])
        invariant Agree(Equal(), Cells(), cells[..i])
      {
        ViewAt(oldKeys[..], oldValues[..], i);
        Reinsert(oldKeys[i], oldValues[i], cells, i);
      }
      assert cells[..oldSize] == cells;
    }
  }

  lemma ProbeStops(h: HashFn, cells: seq<Cell>, key: Key) returns (m: nat)
    requires |cells| > 0 && (Used(cells) < |cells| || Has(Equal(), cells, key))
    ensures Stops(Equal(), cells[LinearSlot(h(key), m, |cells|)], key)
  {
    ProbeEndsIff(h, Equal(), cells, key);
    m :| Stops(Equal(), cells[LinearSlot(h(key), m, |cells|)], key);
  }

  lemma UsedPrefix(cells: seq<Cell>, i: nat)
    requires i < |cells|
    ensures Used(cells[..i + 1]) == Used(cells[..i]) + (if cells[i].Empty? then 0 else 1) && Used(cells[..i]) <= i
  {
    assert cells[..i + 1][..i] == cells[..i];
  }
}
