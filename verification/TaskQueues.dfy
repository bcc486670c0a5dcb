/** Queues of tasks: rings threaded through the prev/next fields of the tasks themselves, edited in place. */
module TaskQueues {
  import opened Common
  import opened SchedulerModel

  class Task {
    var prev: Task?
    var next: Task?
    var taskSwitchedInTimeSlice: bool
    var wakeupAfterMsec: word
    var wakeupAfterEvent: byte

    constructor (flag: bool)
      ensures taskSwitchedInTimeSlice == flag
    {
      taskSwitchedInTimeSlice := flag;
    }
  }

  /** `members` hang together in a cycle, in both directions. */
  ghost predicate Linked(members: seq<Task>)
    reads members
  {
    Distinct(members) && forall i :: 0 <= i < |members| ==> Link(members, i, After(i, |members|))
  }

  ghost predicate Link(m: seq<Task>, i: nat, j: nat)
    requires i < |m| && j < |m|
    reads m
  {
    m[i].next == m[j] && m[j].prev == m[i]
  }

  /** A length, counted in an unsigned 32-bit field. */
  function Counted(n: nat): word {
    n % WORD
  }

  lemma CountedSteps(n: nat)
    ensures Increment(Counted(n)) == Counted(n + 1)
    ensures n > 0 ==> Decrement(Counted(n)) == Counted(n - 1)
  {
  }

  /** The member after position k when position i is skipped. */
  function Skipping(k: nat, i: nat, n: nat): (j: nat)
    requires k < n && i < n && k != i
    ensures j < n && j != i
  {
    if After(k, n) == i then After(i, n) else After(k, n)
  }

  lemma Spliced(m: seq<Task>, i: nat)
    requires Distinct(m) && i < |m|
    requires forall k :: 0 <= k < |m| && k != i ==> Link(m, k, Skipping(k, i, |m|))
    ensures Linked(RemoveAt(m, i))
  {
    var r := RemoveAt(m, i);
    forall k | 0 <= k < |r| ensures Link(r, k, After(k, |r|)) {
      var k' := if k < i then k else k + 1;
      assert Link(m, k', Skipping(k', i, |m|));
      assert r[k] == m[k'];
      assert r[After(k, |r|)] == m[Skipping(k', i, |m|)];
    }
  }

  ghost function Before(i: nat, n: nat): nat
    requires i < n
  {
    if i == 0 then n - 1 else i - 1
  }

  lemma Neighbours(m: seq<Task>, i: nat)
    requires Linked(m) && i < |m|
    ensures m[i].prev == m[Before(i, |m|)] && m[Before(i, |m|)].next == m[i]
    ensures m[i].next == m[After(i, |m|)]
    ensures (m[i].next == m[i]) <==> |m| == 1
  {
    assert Link(m, i, After(i, |m|));
    assert Link(m, Before(i, |m|), After(Before(i, |m|), |m|));
  }

  /** Take t out of the ring it is in; t itself keeps pointing where it pointed. */
  method Unlink(t: Task, ghost m: seq<Task>, ghost i: nat)
    requires Linked(m) && 2 <= |m| && i < |m| && m[i] == t
    modifies m`prev, m`next
    ensures Linked(RemoveAt(m, i)) && t.next == old(t.next)
  {
    Neighbours(m, i);
    t.prev.next := t.next;
    t.next.prev := t.prev;
    forall k | 0 <= k < |m| && k != i ensures Link(m, k, Skipping(k, i, |m|)) {
      assert old(Link(m, k, After(k, |m|)));
    }
    Spliced(m, i);
  }

  /** A queue: the head of a ring and its length, an unsigned 32-bit number. */
  class TaskQueue {
    var head: Task?
    var len: word
    ghost var members: seq<Task>

    ghost predicate Valid()
      reads this, members
    {
      && Linked(members)
      && head == (if members == [] then null else members[0])
      && len == Counted(|members|)
    }

    /** The queue in its fields: a ring in both directions from the head on, and its length in 32 bits. */
    lemma Shape(i: nat)
      requires Valid() && i < |members|
      ensures len == |members| % 0x1_0000_0000 && head == members[0]
      ensures members[i].next == if i + 1 < |members| then members[i + 1] else members[0]
      ensures members[i].prev == if i > 0 then members[i - 1] else members[|members| - 1]
      ensures forall j :: 0 <= j < |members| && j != i ==> members[i] != members[j]
    {
      Neighbours(members, i);
    }

    constructor ()
      ensures Valid() && members == []
    {
      head, len, members := null, 0, [];
    }

    method Enqueue(t: Task)
      requires Valid() && t !in members
      modifies this, t`prev, t`next, members`prev, members`next
      ensures Valid() && members == old(members) + [t]
    {
      ghost var before := members;
      if head != null {
        Neighbours(members, 0);
        t.prev := head.prev;
        t.next := head;
        head.prev.next := t;
        head.prev := t;
      } else {
        t.prev := t;
        t.next := t;
        head := t;
      }
      CountedSteps(|members|);
      len := Increment(len);
      members := members + [t];
      forall k | 0 <= k < |members| ensures Link(members, k, After(k, |members|)) {
        if k + 1 < |before| {
          assert old(Link(members, k, After(k, |members|)));
        }
      }
    }

    /** The caller deletes a member, or learns that the queue is empty. */
    method Delete(t: Task, ghost i: nat) returns (status: int)
      requires Valid() && (members == [] || (i < |members| && members[i] == t))
      modifies this, members`prev, members`next
      ensures Valid() && status == (if old(members) == [] then -1 else 0)
      ensures members == if old(members) == [] then [] else RemoveAt(old(members), i)
      ensures t.next == old(t.next)
    {
      if head == null {
        return -1;
      }
      ghost var rest := RemoveAt(members, i);
      Neighbours(members, 0);
      CountedSteps(|members|);
      if head.next != head {
        if head == t {
          head := head.next;
        }
        assert head == rest[0];
        Unlink(t, members, i);
      } else {
        head := null;
        assert rest == [];
      }
      len := Decrement(len);
      members := rest;
      return 0;
    }
  }

  /** A queue stays as it is when neither it nor a link of a member changes. */
  twostate lemma Untouched(q: TaskQueue)
    requires old(q.Valid()) && unchanged(q)
    requires forall t :: t in q.members ==> unchanged(t`next) && unchanged(t`prev)
    ensures q.Valid()
  {
    forall k | 0 <= k < |q.members| ensures Link(q.members, k, After(k, |q.members|)) {
      assert old(Link(q.members, k, After(k, |q.members|)));
      assert q.members[k] in q.members && q.members[After(k, |q.members|)] in q.members;
    }
  }
}
