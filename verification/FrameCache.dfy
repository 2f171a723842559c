// The cache of debug frames: a doubly linked list, most recently used first,
// relinked on every access.
module FrameCache {

  const SIZE: nat := 256

  // ---------------------------------------------------------------- the list of addresses

  // The list without an address.
  function Without(s: seq<nat>, pc: nat): seq<nat> {
    if s == [] then [] else if s[0] == pc then s[1..] else [s[0]] + Without(s[1..], pc)
  }

  function Take(s: seq<nat>, n: nat): seq<nat> { if |s| <= n then s else s[..n] }

  // All addresses accessed, each at its last access, the latest first.
  function Recency(history: seq<nat>): seq<nat> {
    if history == [] then [] else
    var pc := history[|history| - 1];
    [pc] + Without(Recency(history[..|history| - 1]), pc)
  }

  // What one access does to the cache.
  function Touch(s: seq<nat>, pc: nat): seq<nat> { [pc] + Take(Without(s, pc), SIZE - 1) }

  ghost predicate Distinct(s: seq<nat>) { forall i, j :: 0 <= i < j < |s| ==> s[i] != s[j] }

  lemma {:induction false} WithoutAt(s: seq<nat>, k: nat, pc: nat)
    requires k <= |s| && (forall j :: 0 <= j < k ==> s[j] != pc) && (k < |s| ==> s[k] == pc)
    ensures Without(s, pc) == if k < |s| then s[..k] + s[k + 1..] else s
  {
    if k > 0 {
      WithoutAt(s[1..], k - 1, pc);
      assert k < |s| ==> [s[0]] + (s[1..][..k - 1] + s[1..][k..]) == s[..k] + s[k + 1..];
    }
  }

  lemma FirstIndex(s: seq<nat>, pc: nat) returns (k: nat)
    ensures k <= |s| && (forall j :: 0 <= j < k ==> s[j] != pc) && (k < |s| ==> s[k] == pc)
  {
    k := 0;
    while k < |s| && s[k] != pc
      invariant k <= |s| && forall j :: 0 <= j < k ==> s[j] != pc
    {
      k := k + 1;
    }
  }

  lemma TouchHit(s: seq<nat>, k: nat)
    requires k < |s| <= SIZE && forall j :: 0 <= j < k ==> s[j] != s[k]
    ensures var t := Touch(s, s[k]);
            && |t| == |s| && t[0] == s[k]
            && (forall i :: 0 < i <= k ==> t[i] == s[i - 1])
            && (forall i :: k < i < |s| ==> t[i] == s[i])
  {
    WithoutAt(s, k, s[k]);
  }

  lemma TouchHead(s: seq<nat>)
    requires 0 < |s| <= SIZE
    ensures Touch(s, s[0]) == s
  {
    assert s == [s[0]] + s[1..];
  }

  lemma TouchMiss(s: seq<nat>, pc: nat)
    requires |s| <= SIZE && pc !in s
    ensures Touch(s, pc) == [pc] + (if |s| < SIZE then s else s[..SIZE - 1])
  {
    WithoutAt(s, |s|, pc);
  }

  // Truncating before or after the access makes no difference.
  lemma TouchTake(s: seq<nat>, pc: nat)
    ensures Touch(Take(s, SIZE), pc) == Take([pc] + Without(s, pc), SIZE)
  {
    if |s| > SIZE { TakeWithout(s, pc); }
    TakeCons(pc, Without(s, pc));
  }

  lemma TakeWithout(s: seq<nat>, pc: nat)
    requires |s| > SIZE
    ensures Take(Without(s[..SIZE], pc), SIZE - 1) == Take(Without(s, pc), SIZE - 1)
  {
    var k := FirstIndex(s, pc);
    var t := s[..SIZE];
    WithoutAt(s, k, pc);
    WithoutAt(t, if k < SIZE then k else SIZE, pc);
    if k < SIZE {
      assert t[..k] + t[k + 1..] == (s[..k] + s[k + 1..])[..SIZE - 1];
    } else if k < |s| {
      assert (s[..k] + s[k + 1..])[..SIZE - 1] == t[..SIZE - 1];
    }
  }

  lemma TakeCons(pc: nat, s: seq<nat>)
    ensures Take([pc] + s, SIZE) == [pc] + Take(s, SIZE - 1)
  {
  }

  function Accesses(history: seq<nat>): seq<nat> {
    if history == [] then [] else Touch(Accesses(history[..|history| - 1]), history[|history| - 1])
  }

  // After any accesses the cache holds the most recently used addresses in order.
  lemma {:induction false} MostRecentlyUsed(history: seq<nat>)
    ensures Accesses(history) == Take(Recency(history), SIZE)
  {
    if history != [] {
      MostRecentlyUsed(history[..|history| - 1]);
      TouchTake(Recency(history[..|history| - 1]), history[|history| - 1]);
    }
  }

  lemma {:induction false} WithoutMembers(s: seq<nat>, pc: nat)
    requires Distinct(s)
    ensures Distinct(Without(s, pc)) && forall x :: x in Without(s, pc) <==> x in s && x != pc
  {
    if s != [] {
      assert Distinct(s[1..]);
      assert s[0] !in s[1..] && forall x :: x in s <==> x == s[0] || x in s[1..];
      WithoutMembers(s[1..], pc);
    }
  }

  // The addresses are exactly those accessed, without repetition.
  lemma {:induction false} RecencyIsHistory(history: seq<nat>)
    ensures Distinct(Recency(history)) && forall pc :: pc in Recency(history) <==> pc in history
  {
    if history != [] {
      var before, pc := history[..|history| - 1], history[|history| - 1];
      RecencyIsHistory(before);
      WithoutMembers(Recency(before), pc);
      assert history == before + [pc];
      var rest := Without(Recency(before), pc);
      assert pc !in rest;
      assert Recency(history) == [pc] + rest;
      assert forall j :: 0 <= j < |rest| ==> Recency(history)[j + 1] == rest[j];
    }
  }

  // The address is accessed at n and not afterwards.
  ghost predicate LastUse(history: seq<nat>, pc: nat, n: int) {
    0 <= n < |history| && history[n] == pc && forall m :: n < m < |history| ==> history[m] != pc
  }

  lemma {:induction false} WithoutOrder(s: seq<nat>, pc: nat, i: nat, j: nat)
    requires i < j < |Without(s, pc)|
    ensures exists k, l :: 0 <= k < l < |s| && s[k] == Without(s, pc)[i] && s[l] == Without(s, pc)[j]
  {
    var n := FirstIndex(s, pc);
    WithoutAt(s, n, pc);
    if n < |s| {
      var k, l := if i < n then i else i + 1, if j < n then j else j + 1;
      assert s[k] == Without(s, pc)[i] && s[l] == Without(s, pc)[j];
    } else {
      assert s[i] == Without(s, pc)[i] && s[j] == Without(s, pc)[j];
    }
  }

  lemma LatestFirst(history: seq<nat>, j: nat, n: int)
    requires 0 < j < |Recency(history)| && LastUse(history, Recency(history)[j], n)
    ensures n < |history| - 1
  {
    RecencyIsHistory(history);
    assert Recency(history)[0] == history[|history| - 1];
  }

  // The addresses before the last access, with their last uses.
  lemma Behind(history: seq<nat>, i: nat, m: int)
    requires 0 < i < |Recency(history)| && LastUse(history, Recency(history)[i], m)
    ensures var before := history[..|history| - 1]; LastUse(before, Recency(history)[i], m)
  {
    LatestFirst(history, i, m);
    var before := history[..|history| - 1];
    assert forall k :: 0 <= k < |before| ==> before[k] == history[k];
  }

  // What stands before another address was used after it.
  lemma {:induction false} RecencyOrder(history: seq<nat>, i: nat, j: nat, m: int, n: int)
    requires i < j < |Recency(history)|
    requires LastUse(history, Recency(history)[i], m) && LastUse(history, Recency(history)[j], n)
    ensures m > n
  {
    LatestFirst(history, j, n);
    if i == 0 {
      assert m == |history| - 1;
    } else {
      var before, pc := history[..|history| - 1], history[|history| - 1];
      Behind(history, i, m);
      Behind(history, j, n);
      WithoutOrder(Recency(before), pc, i - 1, j - 1);
      var k, l :| 0 <= k < l < |Recency(before)| && Recency(before)[k] == Recency(history)[i]
                  && Recency(before)[l] == Recency(history)[j];
      RecencyOrder(before, k, l, m, n);
    }
  }

  // ---------------------------------------------------------------- the linked list

  class Node {
    var pc: nat
    var prev: Node?
    var next: Node?

    constructor (pc: nat)
      ensures this.pc == pc && prev == null && next == null
    {
      this.pc, prev, next := pc, null, null;
    }
  }

  // The neighbours of a node in the list.
  ghost function After(list: seq<Node>, i: int): Node? { if 0 <= i + 1 < |list| then list[i + 1] else null }
  ghost function Before(list: seq<Node>, i: int): Node? { if 0 < i <= |list| then list[i - 1] else null }

  ghost function Pcs(list: seq<Node>): (s: seq<nat>)
    reads list
    ensures |s| == |list| && forall i :: 0 <= i < |s| ==> s[i] == list[i].pc
  {
    seq(|list|, i requires 0 <= i < |list| reads list => list[i].pc)
  }

  ghost predicate Apart(list: seq<Node>)
    reads list
  {
    forall i, j :: 0 <= i < j < |list| ==> list[i] != list[j] && list[i].pc != list[j].pc
  }

  ghost predicate NextOk(list: seq<Node>)
    reads list
  {
    forall i {:trigger list[i].next} :: 0 <= i < |list| ==> list[i].next == After(list, i)
  }

  ghost predicate PrevOk(list: seq<Node>)
    reads list
  {
    forall i {:trigger list[i].prev} :: 0 < i < |list| ==> list[i].prev == Before(list, i)
  }

  // The list without its node k.
  ghost function Remove(list: seq<Node>, k: nat): (t: seq<Node>)
    requires k < |list|
    ensures |t| == |list| - 1 && forall i :: 0 <= i < |t| ==> t[i] == list[if i < k then i else i + 1]
  {
    list[..k] + list[k + 1..]
  }

  lemma RemoveApart(list: seq<Node>, k: nat)
    requires k < |list| && Apart(list)
    ensures Apart(Remove(list, k)) && list[k] !in Remove(list, k)
    ensures forall n :: n in Remove(list, k) ==> n in list && n.pc != list[k].pc
  {
  }

  lemma RemoveNext(list: seq<Node>, k: nat)
    requires 0 < k < |list| && list[k - 1].next == After(list, k)
    requires forall i {:trigger list[i].next} :: 0 <= i < |list| && i != k - 1 ==> list[i].next == After(list, i)
    ensures NextOk(Remove(list, k))
  {
  }

  lemma RemovePrev(list: seq<Node>, k: nat)
    requires 0 < k < |list| && (k + 1 < |list| ==> list[k + 1].prev == list[k - 1])
    requires forall i {:trigger list[i].prev} :: 0 < i < |list| && i != k + 1 ==> list[i].prev == Before(list, i)
    ensures PrevOk(Remove(list, k))
  {
  }

  // Moving a node to the front is an access to its address.
  lemma PcsPromoted(list: seq<Node>, k: nat)
    requires k < |list| <= SIZE && Apart(list)
    ensures Pcs([list[k]] + Remove(list, k)) == Touch(Pcs(list), list[k].pc)
  {
    TouchHit(Pcs(list), k);
  }

  // The addresses are those of before if no node was given a new one.
  twostate lemma SamePcs(list: seq<Node>)
    requires forall i :: 0 <= i < |list| ==>
             allocated(list[i]) && old(allocated(list[i])) && list[i].pc == old(list[i].pc)
    ensures Pcs(list) == old(Pcs(list))
  {
  }

  lemma PcsPushed(node: Node, list: seq<Node>)
    ensures Pcs([node] + list) == [node.pc] + Pcs(list)
  {
  }

  class Cache {
    var head: Node?
    ghost var list: seq<Node>

    // The back link of the head is not maintained.
    ghost predicate Valid()
      reads this, list
    {
      && |list| <= SIZE && Apart(list) && NextOk(list) && PrevOk(list)
      && head == (if list == [] then null else list[0])
    }

    ghost function Contents(): seq<nat>
      reads this, list
    {
      Pcs(list)
    }

    constructor ()
      ensures Valid() && list == []
    {
      head, list := null, [];
    }

    method Find(pc: nat) returns (before: Node?, cur: Node?, size: nat)
      requires Valid()
      ensures size <= |list| && cur == (if size < |list| then list[size] else null)
      ensures before == (if size == 0 then null else list[size - 1])
      ensures (forall j :: 0 <= j < size ==> list[j].pc != pc) && (cur != null ==> cur.pc == pc)
      ensures cur != null <==> pc in Contents()
    {
      before, cur, size := null, head, 0;
      while cur != null && cur.pc != pc
        invariant size <= |list| && cur == (if size < |list| then list[size] else null)
        invariant before == (if size == 0 then null else list[size - 1])
        invariant forall j :: 0 <= j < size ==> list[j].pc != pc
        decreases |list| - size
      {
        before, cur, size := cur, cur.next, size + 1;
      }
    }

    // Links the neighbours of a node that is not the head with each other.
    method Splice(before: Node, node: Node, ghost k: nat)
      requires Valid() && 0 < k < |list| && node == list[k] && before == list[k - 1]
      modifies list`next, list`prev
      ensures before.next == After(list, k) && (k + 1 < |list| ==> list[k + 1].prev == before)
      ensures forall i {:trigger list[i].next} :: 0 <= i < |list| && i != k - 1 ==> list[i].next == After(list, i)
      ensures forall i {:trigger list[i].prev} :: 0 < i < |list| && i != k + 1 ==> list[i].prev == Before(list, i)
    {
      assert forall i :: 0 <= i < |list| && i != k - 1 ==> list[i] != before;
      assert node.next == After(list, k) && node.prev == Before(list, k);
      if node.next != null {
        node.next.prev := node.prev;
      }
      before.next := node.next;
    }

    // Takes a node that is not the head out of the list.
    method Unlink(before: Node, node: Node, ghost k: nat)
      requires Valid() && 0 < k < |list| && node == list[k] && before == list[k - 1]
      modifies this`list, list`next, list`prev
      ensures Valid() && list == Remove(old(list), k) && head == old(head) && node !in list
      ensures forall n :: n in list ==> n in old(list) && n.pc != node.pc
    {
      Splice(before, node, k);
      RemoveApart(list, k);
      RemoveNext(list, k);
      RemovePrev(list, k);
      list := Remove(list, k);
    }

    method PushFront(node: Node)
      requires Valid() && |list| < SIZE && node !in list && forall n :: n in list ==> n.pc != node.pc
      modifies this, node`next, list`prev
      ensures Valid() && list == [node] + old(list)
    {
      ghost var was := list;
      node.next := head;
      if head != null {
        head.prev := node;
      }
      head := node;
      list := [node] + was;
      assert forall i :: 0 < i < |list| ==> list[i] == was[i - 1];
    }

    method Promote(before: Node, node: Node, ghost k: nat)
      requires Valid() && 0 < k < |list| && node == list[k] && before == list[k - 1]
      modifies this, list`next, list`prev
      ensures Valid() && list != [] && list[0] == node && Contents() == Touch(old(Contents()), node.pc)
      ensures forall n :: n in list ==> n in old(list)
    {
      ghost var was := list;
      PcsPromoted(was, k);
      Unlink(before, node, k);
      node.prev := null;
      PushFront(node);
      SamePcs([node] + Remove(was, k));
    }

    method Add(pc: nat) returns (node: Node)
      requires Valid() && |list| < SIZE && pc !in Contents()
      modifies this, list`prev
      ensures Valid() && fresh(node) && list != [] && list[0] == node && Contents() == Touch(old(Contents()), pc)
      ensures forall n :: n in list ==> n == node || n in old(list)
    {
      TouchMiss(Contents(), pc);
      NotIn(list, pc);
      node := new Node(pc);
      PushFront(node);
      PcsPushed(node, old(list));
      assert Pcs(old(list)) == old(Contents());
    }

    // The last node is taken for the new address.
    method Evict(lru: Node, pc: nat)
      requires Valid() && |list| == SIZE && lru == list[SIZE - 1] && pc !in Contents()
      modifies this, list`next, list`prev, lru`pc
      ensures Valid() && list != [] && list[0] == lru && Contents() == Touch(old(Contents()), pc)
      ensures forall n :: n in list ==> n in old(list)
    {
      TouchMiss(Contents(), pc);
      NotIn(list, pc);
      assert lru.prev == Before(list, SIZE - 1);
      ghost var s := Contents();
      Unlink(lru.prev, lru, SIZE - 1);
      ghost var rest := list;
      assert Pcs(rest) == s[..SIZE - 1];
      lru.pc := pc;
      PushFront(lru);
      PcsPushed(lru, rest);
      assert Pcs(rest) == s[..SIZE - 1];
    }

    // An access: the frame of the address becomes the head; a hit keeps what it holds.
    method Get(pc: nat) returns (frame: Node, hit: bool)
      requires Valid()
      modifies this, list
      ensures Valid() && list != [] && frame == list[0] && Contents() == Touch(old(Contents()), pc)
      ensures forall n :: n in list ==> n in old(list) || fresh(n)
      ensures (hit <==> pc in old(Contents())) && (hit ==> frame in old(list) && old(frame.pc) == pc)
    {
      var before, cur, size := Find(pc);
      if cur != null && cur == head {
        TouchHead(Contents());
        frame, hit := cur, true;
      } else if cur != null {
        frame, hit := cur, true;
        Promote(before, cur, size);
      } else if size < SIZE {
        hit := false;
        frame := Add(pc);
      } else {
        frame, hit := before, false;
        Evict(frame, pc);
      }
    }
  }

  lemma NotIn(list: seq<Node>, pc: nat)
    requires pc !in Pcs(list)
    ensures forall n :: n in list ==> n.pc != pc
  {
    forall i | 0 <= i < |list| ensures list[i].pc != pc {
      assert Pcs(list)[i] in Pcs(list);
    }
  }

  lemma AccessesSnoc(history: seq<nat>, n: nat)
    requires n < |history|
    ensures Accesses(history[..n + 1]) == Touch(Accesses(history[..n]), history[n])
  {
    assert history[..n + 1][..n] == history[..n];
  }

  // Whatever is accessed, the list holds the 256 addresses used last, latest first.
  method Replay(history: seq<nat>) returns (cache: Cache)
    ensures cache.Valid() && cache.Contents() == Take(Recency(history), SIZE)
  {
    cache := new Cache();
    for n := 0 to |history|
      invariant cache.Valid() && cache.Contents() == Accesses(history[..n]) && fresh(cache)
      invariant forall x :: x in cache.list ==> fresh(x)
    {
      AccessesSnoc(history, n);
      assert forall i :: 0 <= i < |cache.list| ==> cache.list[i] in cache.list;
      var frame, hit := cache.Get(history[n]);
    }
    assert history[..|history|] == history;
    MostRecentlyUsed(history);
  }
}
