/** The seq_file iteration of /proc/myps over a task's children: a circular list linked through the
    heap, whose head is not a child. */
module TaskSequence {
  import opened PidSelector

  /** struct list_head; only `next` is followed. */
  class ListHead {
    var next: ListHead

    constructor ()
      ensures next == this
    {
      next := this;
    }
  }

  /** The nodes of a circular list in order, the head first. */
  ghost predicate Ring(nodes: seq<ListHead>)
    reads nodes
  {
    && |nodes| > 0
    && (forall i, j | 0 <= i < j < |nodes| :: nodes[i] != nodes[j])
    && (forall i | 0 <= i < |nodes| - 1 :: nodes[i].next == nodes[i + 1])
    && nodes[|nodes| - 1].next == nodes[0]
  }

  /** Only the last node leads back to the head. */
  lemma BackToHead(nodes: seq<ListHead>, i: nat)
    requires Ring(nodes) && i < |nodes|
    ensures nodes[i].next == nodes[0] <==> i + 1 == |nodes|
  {
    var j := if i + 1 < |nodes| then i + 1 else 0;
    assert nodes[i].next == nodes[j];
  }

  /** The links and the head determine the order, so "in list order" below has one meaning. */
  lemma RingUnique(a: seq<ListHead>, b: seq<ListHead>)
    requires Ring(a) && Ring(b) && a[0] == b[0]
    ensures a == b
  {
    var k := if |a| <= |b| then |a| else |b|;
    SamePrefix(a, b, k);
    BackToHead(a, k - 1);
    BackToHead(b, k - 1);
  }

  lemma {:induction false} SamePrefix(a: seq<ListHead>, b: seq<ListHead>, k: nat)
    requires Ring(a) && Ring(b) && a[0] == b[0] && k <= |a| && k <= |b|
    ensures forall i | 0 <= i < k :: a[i] == b[i]
  {
    if k > 1 {
      SamePrefix(a, b, k - 1);
      assert a[k - 2].next == b[k - 2].next;
    }
  }

  /** seqiter_t. */
  class SeqIter {
    var pos: ListHead
    const head: ListHead
    var posMax: int

    constructor (head: ListHead)
      ensures this.head == head && pos == head && posMax == 0
    {
      this.head := head;
      pos := head;
      posMax := 0;
    }
  }

  /** ct_seq_start at position 0: allocate the iterator (or give up), choose the task, count its children, and stand
      on the first. None of the chosen tasks has exited, so each has a list. */
  method Start(selector: Selector, granted: bool, contended: bool, childrenOf: map<Target, ListHead>, ghost rings: map<Target, seq<ListHead>>)
    returns (iter: SeqIter?)
    requires TargetOf(selector.testid, contended) in childrenOf && childrenOf.Keys == rings.Keys
    requires forall t | t in rings :: Ring(rings[t]) && rings[t][0] == childrenOf[t]
    modifies selector
    ensures selector.testid == TestidAfter(old(selector.testid), PidSelector.Start(granted, contended))
    ensures var ring := rings[TargetOf(old(selector.testid), contended)];
            if !granted || |ring| <= 1 then iter == null
            else iter != null && fresh(iter) && iter.head == ring[0] && iter.pos == ring[1] && iter.posMax == |ring| - 1
  {
    if !granted {
      return null;
    }
    var target := selector.StartSession(contended);
    var p := childrenOf[target];
    ghost var ring := rings[target];
    BackToHead(ring, 0);
    if p.next == p {
      return null;
    }
    iter := new SeqIter(p);
    var list := p.next;
    ghost var k := 1;
    while list != p
      invariant selector.testid == TestidAfter(old(selector.testid), PidSelector.Start(granted, contended))
      invariant 1 <= k <= |ring| && iter.posMax == k - 1
      invariant list == if k < |ring| then ring[k] else p
      decreases |ring| - k
    {
      iter.posMax := iter.posMax + 1;
      list := list.next;
      k := k + 1;
    }
    iter.pos := p.next;
  }

  /** ct_seq_next. */
  method Next(iter: SeqIter, ghost ring: seq<ListHead>, ghost k: nat) returns (r: SeqIter?)
    requires Ring(ring) && 1 <= k < |ring| && iter.pos == ring[k] && iter.head == ring[0]
    modifies iter`pos
    ensures iter.pos == if k + 1 < |ring| then ring[k + 1] else ring[0]
    ensures r == if k + 1 < |ring| then iter else null
  {
    iter.pos := iter.pos.next;
    if iter.pos == iter.head {
      return null;
    }
    return iter;
  }

  /** ct_seq_show names the child it stands on. */
  method Show(iter: SeqIter) returns (child: ListHead)
    ensures child == iter.pos
  {
    return iter.pos;
  }

  /** One session as seq_file runs it, from the start to the final next: every child of the selected
      task is shown exactly once, in list order; the head never; and there are pos_max shows. Without
      memory nothing is shown, and the selection is left for the next session. */
  method Session(selector: Selector, granted: bool, contended: bool, childrenOf: map<Target, ListHead>, ghost rings: map<Target, seq<ListHead>>)
    returns (shown: seq<ListHead>, posMax: int)
    requires TargetOf(selector.testid, contended) in childrenOf && childrenOf.Keys == rings.Keys
    requires forall t | t in rings :: Ring(rings[t]) && rings[t][0] == childrenOf[t]
    modifies selector
    ensures selector.testid == TestidAfter(old(selector.testid), PidSelector.Start(granted, contended))
    ensures var target := TargetOf(old(selector.testid), contended);
            && |rings[target]| > 0 && shown == (if granted then rings[target][1..] else [])
            && childrenOf[target] !in shown
            && |shown| == posMax
  {
    ghost var target := TargetOf(selector.testid, contended);
    ghost var ring := rings[target];
    shown, posMax := [], 0;
    var iter := Start(selector, granted, contended, childrenOf, rings);
    if iter != null {
      posMax := iter.posMax;
      var v: SeqIter? := iter;
      ghost var k := 1;
      while v != null
        invariant selector.testid == TestidAfter(old(selector.testid), PidSelector.Start(granted, contended))
        invariant 1 <= k <= |ring| && Ring(ring)
        invariant v == if k < |ring| then iter else null
        invariant k < |ring| ==> iter.pos == ring[k]
        invariant shown == ring[1..k]
        decreases |ring| - k
      {
        var child := Show(v);
        shown := shown + [child];
        v := Next(v, ring, k);
        k := k + 1;
      }
    }
    assert granted ==> shown == ring[1..];
  }
}
