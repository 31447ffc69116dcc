/**
 * The background task queue: items ordered by priority alone, the
 * minimal-priority item the worker takes, and the order in which a queue is
 * drained.
 */
module TaskQueue {
  import opened VectorStore

  /** The deferred jobs the service enqueues; ingesting a media record is the only kind. */
  datatype Task = IngestMediaRecordTask(mediaRecordId: MediaRecordId)

  /** A queued job; a lower priority runs sooner. */
  datatype BackgroundTaskItem = BackgroundTaskItem(task: Task, priority: int)

  /** `BackgroundTaskItem.__lt__`: compares priorities and nothing else. */
  predicate Less(a: BackgroundTaskItem, b: BackgroundTaskItem) {
    a.priority < b.priority
  }

  /**
   * `__lt__` is a strict weak order: irreflexive and transitive, and two
   * items are unordered exactly when their priorities are equal, whatever
   * their tasks.
   */
  lemma LessIsStrictWeakOrder(a: BackgroundTaskItem, b: BackgroundTaskItem, c: BackgroundTaskItem)
    ensures !Less(a, a)
    ensures Less(a, b) && Less(b, c) ==> Less(a, c)
    ensures !Less(a, b) && !Less(b, a) <==> a.priority == b.priority
  {
  }

  /** `m` is in the queue and nothing in the queue is less than it. */
  predicate IsMinimal(m: BackgroundTaskItem, q: multiset<BackgroundTaskItem>) {
    m in q && forall x :: x in q ==> !Less(x, m)
  }

  /** A non-empty queue has a minimal item. */
  ghost function MinimalItem(q: multiset<BackgroundTaskItem>): (m: BackgroundTaskItem)
    requires q != multiset{}
    ensures IsMinimal(m, q)
    decreases |q|
  {
    var x :| x in q;
    var rest := q - multiset{x};
    assert |rest| == |q| - 1;
    assert forall z :: z in q && z != x ==> z in rest;
    if rest == multiset{} then x
    else
      var y := MinimalItem(rest);
      if Less(y, x) then y else x
  }

  /** No item is followed by one less than it. */
  ghost predicate PrioritySorted(s: seq<BackgroundTaskItem>) {
    forall i, j :: 0 <= i < j < |s| ==> !Less(s[j], s[i])
  }

  /**
   * The worker keeps its run order sorted: appending a minimal item of the
   * queue to a sorted run that nothing queued undercuts yields such a run again.
   */
  lemma RunMinimalNext(ran: seq<BackgroundTaskItem>, q: multiset<BackgroundTaskItem>, x: BackgroundTaskItem)
    requires PrioritySorted(ran)
    requires forall u, v :: u in ran && v in q ==> !Less(v, u)
    requires IsMinimal(x, q)
    ensures PrioritySorted(ran + [x])
    ensures forall u, v :: u in ran + [x] && v in q - multiset{x} ==> !Less(v, u)
    ensures multiset(ran + [x]) + (q - multiset{x}) == multiset(ran) + q
  {
    forall u, v | u in ran + [x] && v in q - multiset{x}
      ensures !Less(v, u)
    {
      assert v in q;
    }
  }

  /** `s` runs every item of `q` once, in priority order. */
  ghost predicate IsDrainOrder(q: multiset<BackgroundTaskItem>, s: seq<BackgroundTaskItem>) {
    multiset(s) == q && PrioritySorted(s)
  }

  function Priorities(s: seq<BackgroundTaskItem>): seq<int> {
    seq(|s|, i requires 0 <= i < |s| => s[i].priority)
  }

  ghost predicate Ascending(a: seq<int>) {
    forall i, j :: 0 <= i < j < |a| ==> a[i] <= a[j]
  }

  lemma PrioritiesConcat(a: seq<BackgroundTaskItem>, b: seq<BackgroundTaskItem>)
    ensures Priorities(a + b) == Priorities(a) + Priorities(b)
  {
  }

  /** Taking one item out of a sequence takes its priority out of the priorities. */
  lemma PrioritiesWithout(front: seq<BackgroundTaskItem>, x: BackgroundTaskItem, back: seq<BackgroundTaskItem>)
    ensures multiset(Priorities(front + ([x] + back))) == multiset{x.priority} + multiset(Priorities(front + back))
  {
    PrioritiesConcat(front, [x] + back);
    PrioritiesConcat([x], back);
    PrioritiesConcat(front, back);
    assert Priorities([x]) == [x.priority];
  }

  /** Cutting out the item at `j` takes exactly that item out of the multiset. */
  lemma MultisetWithout(t: seq<BackgroundTaskItem>, j: nat)
    requires j < |t|
    ensures multiset(t[..j] + t[j + 1..]) == multiset(t) - multiset{t[j]}
  {
    assert t == t[..j] + ([t[j]] + t[j + 1..]);
  }

  /** Reordering items reorders their priorities. */
  lemma {:induction false} PermutedPriorities(s: seq<BackgroundTaskItem>, t: seq<BackgroundTaskItem>)
    requires multiset(s) == multiset(t)
    ensures multiset(Priorities(s)) == multiset(Priorities(t))
    decreases |s|
  {
    assert |s| == |multiset(s)| == |t|;
    if s != [] {
      var x := s[0];
      assert x in multiset(t);
      var j :| 0 <= j < |t| && t[j] == x;
      var front, back := t[..j], t[j + 1..];
      assert t == front + ([x] + back);
      assert s == [x] + s[1..];
      MultisetWithout(t, j);
      MultisetWithout(s, 0);
      PermutedPriorities(s[1..], front + back);
      PrioritiesWithout(front, x, back);
      PrioritiesWithout([], x, s[1..]);
      assert [] + ([x] + s[1..]) == s && [] + s[1..] == s[1..];
    }
  }

  lemma AscendingHeadIsLeast(a: seq<int>, v: int)
    requires Ascending(a) && v in multiset(a)
    ensures a[0] <= v
  {
    var k :| 0 <= k < |a| && a[k] == v;
    if k > 0 {
      assert a[0] <= a[k];
    }
  }

  /** Two ascending sequences with the same elements are equal. */
  lemma {:induction false} AscendingPermutationsEqual(a: seq<int>, b: seq<int>)
    requires Ascending(a) && Ascending(b) && multiset(a) == multiset(b)
    ensures a == b
    decreases |a|
  {
    assert |a| == |multiset(a)| == |multiset(b)| == |b|;
    if a != [] {
      assert a[0] in a && b[0] in b;
      AscendingHeadIsLeast(b, a[0]);
      AscendingHeadIsLeast(a, b[0]);
      var a', b' := a[1..], b[1..];
      assert a == [a[0]] + a';
      assert b == [b[0]] + b';
      assert a[0] == b[0];
      calc {
        multiset(a');
        multiset(a) - multiset{a[0]};
        multiset(b) - multiset{b[0]};
        multiset(b');
      }
      AscendingPermutationsEqual(a', b');
    }
  }

  /** Any two drain orders of a queue run the same sequence of priorities; only ties may differ. */
  lemma DrainOrdersAgree(q: multiset<BackgroundTaskItem>, s: seq<BackgroundTaskItem>, t: seq<BackgroundTaskItem>)
    requires IsDrainOrder(q, s) && IsDrainOrder(q, t)
    ensures Priorities(s) == Priorities(t)
  {
    PermutedPriorities(s, t);
    AscendingPermutationsEqual(Priorities(s), Priorities(t));
  }

  /** Items queued with priorities 5, 1 and 3 together, before the worker's next `get`, are drained as 1, 3, 5. */
  lemma DrainFiveOneThree(a: BackgroundTaskItem, b: BackgroundTaskItem, c: BackgroundTaskItem,
                          s: seq<BackgroundTaskItem>)
    requires a.priority == 5 && b.priority == 1 && c.priority == 3
    requires IsDrainOrder(multiset{a, b, c}, s)
    ensures Priorities(s) == [1, 3, 5]
  {
    var t := [b, c, a];
    assert multiset(t) == multiset{a, b, c};
    assert IsDrainOrder(multiset{a, b, c}, t);
    DrainOrdersAgree(multiset{a, b, c}, s, t);
    assert Priorities(t) == [1, 3, 5];
  }
}
