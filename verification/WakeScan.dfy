/**
 The do-while loop shared by the two wake scans, visit by visit. The loop deletes members while it walks
 the ring and stops when the successor it read beforehand is the head; this module shows that it then has
 woken what Woken says and left what Remaining says.
 */
module WakeScan {
  import opened Common
  import opened SchedulerModel

  /** A scan in progress: the queue, the run ring, and the position to visit next. */
  datatype Scan<T> = Scan(queue: seq<Entry<T>>, run: seq<T>, pos: nat)

  /** What the loop body does to one member. */
  ghost predicate Visit<T>(rule: Rule, a: Scan<T>, b: Scan<T>) {
    && a.pos < |a.queue|
    && var x := a.queue[a.pos];
      if rule.Wakes(x) then b == Scan(RemoveAt(a.queue, a.pos), a.run + [x.task], a.pos)
      else b == Scan(a.queue[a.pos := rule.Passed(x)], a.run, a.pos + 1)
  }

  predicate BackAtHead<T(==)>(m: seq<T>, next: T) {
    m == [] || next == m[0]
  }

  /** The loop condition after the visit: the successor read before it is the head of what is left. */
  ghost predicate Over<T>(a: Scan<T>, b: Scan<T>)
    requires a.pos < |a.queue|
  {
    BackAtHead(Tasks(b.queue), a.queue[After(a.pos, |a.queue|)].task)
  }

  /** Visit follows visit, and the loop has ended after the last one exactly if `over`. */
  ghost predicate History<T>(rule: Rule, h: seq<Scan<T>>, over: bool) {
    forall j :: 0 <= j < |h| - 1 ==> Round(rule, h, j, over)
  }

  ghost predicate Round<T>(rule: Rule, h: seq<Scan<T>>, j: nat, over: bool)
    requires j + 1 < |h|
  {
    Visit(rule, h[j], h[j + 1]) && (Over(h[j], h[j + 1]) <==> over && j == |h| - 2)
  }

  lemma HistoryExtends<T>(rule: Rule, h: seq<Scan<T>>, b: Scan<T>)
    requires h != [] && History(rule, h, false) && Visit(rule, h[|h| - 1], b)
    ensures History(rule, h + [b], Over(h[|h| - 1], b))
  {
    var h', over := h + [b], Over(h[|h| - 1], b);
    forall j | 0 <= j < |h'| - 1 ensures Round(rule, h', j, over) {
      if j < |h| - 1 {
        assert Round(rule, h, j, false);
      }
    }
  }

  /** While the loop goes on, the successor is the member at the next position. */
  lemma GoesOn<T>(rule: Rule, a: Scan<T>, b: Scan<T>)
    requires Distinct(Tasks(a.queue)) && Visit(rule, a, b) && !Over(a, b)
    ensures b.pos < |b.queue| && b.queue[b.pos].task == a.queue[After(a.pos, |a.queue|)].task
    ensures Distinct(Tasks(b.queue))
  {
    var q, r := Tasks(a.queue), Tasks(b.queue);
    if rule.Wakes(a.queue[a.pos]) {
      assert r == RemoveAt(q, a.pos);
    } else {
      assert r == q;
    }
  }

  /** The queue when k members of q have been visited: those kept, then those still ahead. */
  function Visited<T>(rule: Rule, q: seq<Entry<T>>, k: nat): seq<Entry<T>>
    requires k <= |q|
  {
    Kept(rule, q[..k]) + q[k..]
  }

  lemma VisitOne<T>(rule: Rule, q: seq<Entry<T>>, k: nat)
    requires k < |q|
    ensures var kept, cur, x := |Kept(rule, q[..k])|, Visited(rule, q, k), q[k];
      && kept < |cur| && cur[kept] == x && (kept + 1 < |cur| <==> k + 1 < |q|)
      && (kept + 1 < |cur| ==> cur[kept + 1] == q[k + 1])
      && Selected(rule, q[..k + 1]) == Selected(rule, q[..k]) + (if rule.Wakes(x) then [x.task] else [])
      && Visited(rule, q, k + 1) == if rule.Wakes(x) then RemoveAt(cur, kept) else cur[kept := rule.Passed(x)]
  {
    assert q[..k + 1][..k] == q[..k];
  }

  /** A head that is not woken stays the head. */
  lemma {:induction false} HeadStays<T>(rule: Rule, q: seq<Entry<T>>, k: nat)
    requires 0 < k <= |q| && !HeadWakes(rule, q)
    ensures Kept(rule, q[..k]) != [] && Kept(rule, q[..k])[0].task == q[0].task
  {
    assert q[..k][..k - 1] == q[..k - 1];
    if k > 1 {
      HeadStays(rule, q, k - 1);
    }
  }

  /** The loop is over at once if the head was woken, otherwise after a full round. */
  lemma WhenOver<T>(rule: Rule, q: seq<Entry<T>>, k: nat, m: seq<T>, next: T)
    requires k < |q| && (k > 0 ==> !HeadWakes(rule, q))
    requires Distinct(m) && m == Tasks(Visited(rule, q, k))
    requires var kept := |Kept(rule, q[..k])|; kept < |m| && next == m[After(kept, |m|)]
    ensures BackAtHead(Tasks(Visited(rule, q, k + 1)), next) <==> k + 1 == if HeadWakes(rule, q) then 1 else |q|
  {
    VisitOne(rule, q, k);
    if HeadWakes(rule, q) {
      assert k == 0 && Visited(rule, q, 0) == q;
    } else {
      HeadStays(rule, q, k + 1);
      if k > 0 {
        HeadStays(rule, q, k);
      } else {
        assert Visited(rule, q, 0) == q;
      }
      assert m[0] == q[0].task;
      assert Tasks(Visited(rule, q, k + 1))[0] == q[0].task;
    }
  }

  lemma HistoryStep<T>(rule: Rule, q: seq<Entry<T>>, k: nat, run: seq<T>, a: Scan<T>, b: Scan<T>)
    requires k <= |q| && a.queue == Visited(rule, q, k) && a.run == run + Selected(rule, q[..k])
    requires a.pos == |Kept(rule, q[..k])|
    requires Distinct(Tasks(a.queue)) && (k > 0 ==> !HeadWakes(rule, q)) && Visit(rule, a, b)
    ensures k < |q| && b.queue == Visited(rule, q, k + 1) && b.run == run + Selected(rule, q[..k + 1])
    ensures b.pos == |Kept(rule, q[..k + 1])|
    ensures Over(a, b) <==> k + 1 == if HeadWakes(rule, q) then 1 else |q|
    ensures !Over(a, b) ==> Distinct(Tasks(b.queue)) && !HeadWakes(rule, q)
  {
    VisitOne(rule, q, k);
    WhenOver(rule, q, k, Tasks(a.queue), a.queue[After(a.pos, |a.queue|)].task);
    assert q[..k + 1][..k] == q[..k];
    if !Over(a, b) {
      GoesOn(rule, a, b);
    }
  }

  lemma {:induction false} HistoryAt<T>(rule: Rule, h: seq<Scan<T>>, over: bool, j: nat)
    requires h != [] && h[0].pos == 0 && Distinct(Tasks(h[0].queue))
    requires History(rule, h, over) && j < |h|
    ensures var q := h[0].queue;
      j <= |q| && h[j].queue == Visited(rule, q, j) && h[j].run == h[0].run + Selected(rule, q[..j])
    ensures j < |h| - 1 || !over ==>
      && Distinct(Tasks(h[j].queue)) && h[j].pos == |Kept(rule, h[0].queue[..j])|
      && (j > 0 ==> !HeadWakes(rule, h[0].queue))
    ensures 0 < j == |h| - 1 && over ==> j == if HeadWakes(rule, h[0].queue) then 1 else |h[0].queue|
  {
    if j > 0 {
      HistoryAt(rule, h, over, j - 1);
      assert Round(rule, h, j - 1, over);
      HistoryStep(rule, h[0].queue, j - 1, h[0].run, h[j - 1], h[j]);
    } else {
      assert h[0].queue[..0] == [];
      assert [] + h[0].queue == h[0].queue;
    }
  }

  /** A scan that runs until it is back at the head has moved the tasks of Woken to the run ring and left
      Remaining in the queue. */
  lemma ScanResult<T>(rule: Rule, h: seq<Scan<T>>)
    requires |h| >= 2 && h[0].queue != [] && h[0].pos == 0 && Distinct(Tasks(h[0].queue))
    requires History(rule, h, true)
    ensures h[|h| - 1].run == h[0].run + Woken(rule, h[0].queue)
    ensures h[|h| - 1].queue == Remaining(rule, h[0].queue)
  {
    var q, k := h[0].queue, |h| - 1;
    HistoryAt(rule, h, true, k);
    if HeadWakes(rule, q) {
      assert q[..1][..0] == [] && Kept(rule, q[..1]) == [];
      assert [] + q[1..] == q[1..];
    } else {
      assert q[..k] == q;
    }
  }

  /** The queue that a rule scans, and the state when it has been scanned. */
  function Scanned<T>(rule: Rule, s: State<T>): seq<Entry<T>> {
    if rule.TimeUp? then s.timed else s.waiting
  }

  function Rescanned<T>(rule: Rule, s: State<T>, a: Scan<T>): State<T> {
    if rule.TimeUp? then s.(run := a.run, timed := a.queue) else s.(run := a.run, waiting := a.queue)
  }

  lemma ScannedState<T>(rule: Rule, s: State<T>, h: seq<Scan<T>>)
    requires |h| >= 2 && h[0] == Scan(Scanned(rule, s), s.run, 0)
    requires h[0].queue != [] && Distinct(Tasks(h[0].queue)) && History(rule, h, true)
    ensures Rescanned(rule, s, h[|h| - 1]) == if rule.TimeUp? then WakeSleepers(s) else WakeWaiters(s, rule.event)
  {
    ScanResult(rule, h);
  }

  lemma EmptyScan<T>(s: State<T>, event: byte)
    ensures s.timed == [] ==> WakeSleepers(s) == s
    ensures s.waiting == [] ==> WakeWaiters(s, event) == s
  {
    assert s.run + [] == s.run;
  }
}
