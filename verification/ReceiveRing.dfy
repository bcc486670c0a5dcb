/** The receive side of the i825xx driver: polling the ring of descriptors that the network card fills. */
module ReceiveRing {
  import opened Common
  import opened PageAllocator

  const NUM_RX_DESCRIPTORS: nat := 768

  /** Descriptor done: the card has filled the descriptor. */
  predicate Ready(status: byte) {
    status as int % 2 == 1
  }

  /** The slot k places behind `tail`, round the ring. */
  function Slot(tail: nat, k: nat): (s: nat)
    requires tail < NUM_RX_DESCRIPTORS && k <= NUM_RX_DESCRIPTORS
    ensures s < NUM_RX_DESCRIPTORS
  {
    if tail + k < NUM_RX_DESCRIPTORS then tail + k else tail + k - NUM_RX_DESCRIPTORS
  }

  /** How far slot s lies behind `tail`. */
  function Behind(tail: nat, s: nat): (k: nat)
    requires tail < NUM_RX_DESCRIPTORS && s < NUM_RX_DESCRIPTORS
    ensures k < NUM_RX_DESCRIPTORS && Slot(tail, k) == s
  {
    if tail <= s then s - tail else s + NUM_RX_DESCRIPTORS - tail
  }

  /** `run` is the length of the longest run of ready slots from `tail` on. */
  ghost predicate LongestRun(status: seq<byte>, tail: nat, run: nat)
    requires |status| == NUM_RX_DESCRIPTORS && tail < NUM_RX_DESCRIPTORS
  {
    && run <= NUM_RX_DESCRIPTORS
    && (forall k :: 0 <= k < run ==> Ready(status[Slot(tail, k)]))
    && (run < NUM_RX_DESCRIPTORS ==> !Ready(status[Slot(tail, run)]))
  }

  function ReadyCount(status: seq<byte>): nat {
    if status == [] then 0
    else ReadyCount(status[..|status| - 1]) + if Ready(status[|status| - 1]) then 1 else 0
  }

  lemma {:induction false} CountCleared(status: seq<byte>, s: nat, value: byte)
    requires s < |status| && Ready(status[s]) != Ready(value)
    ensures ReadyCount(status[s := value]) == ReadyCount(status) + if Ready(value) then 1 else -1
  {
    var n := |status| - 1;
    if s < n {
      CountCleared(status[..n], s, value);
      assert status[s := value][..n] == status[..n][s := value];
    } else {
      assert status[s := value][..n] == status[..n];
    }
  }

  // ---- the ring and the card together ----

  datatype Ring = Ring(status: seq<byte>, tail: nat, count: word) {
    ghost predicate Valid() {
      |status| == NUM_RX_DESCRIPTORS && tail < NUM_RX_DESCRIPTORS
    }
  }

  /** b is a after the driver has taken the `run` slots behind the tail, all of them ready. */
  ghost predicate Took(a: Ring, b: Ring, run: nat) {
    && a.Valid() && b.Valid() && run <= NUM_RX_DESCRIPTORS
    && (forall k :: 0 <= k < run ==> Ready(a.status[Slot(a.tail, k)]))
    && (forall s :: 0 <= s < NUM_RX_DESCRIPTORS ==>
          b.status[s] == if Behind(a.tail, s) < run then 0 else a.status[s])
    && b.tail == Slot(a.tail, run) && b.count == (a.count + run) % WORD
    && ReadyCount(b.status) + run == ReadyCount(a.status)
  }

  /** What a poll does: it stops at the first slot that is not ready. */
  ghost predicate Polled(a: Ring, b: Ring, run: nat) {
    Took(a, b, run) && LongestRun(a.status, a.tail, run)
  }

  /** The ring after one round of the poll's loop. */
  function TakeNext(r: Ring): Ring
    requires r.Valid()
  {
    Ring(r.status[r.tail := 0], Slot(r.tail, 1), (r.count + 1) % WORD)
  }

  /** What has been taken, slot by slot. */
  lemma TookMeans(a: Ring, b: Ring, run: nat)
    requires Took(a, b, run)
    ensures b.tail == (if a.tail + run < 768 then a.tail + run else a.tail + run - 768)
    ensures forall s :: 0 <= s < 768 ==>
      var taken := a.tail <= s < a.tail + run || s < a.tail + run - 768;
      if taken then a.status[s] as int % 2 == 1 && b.status[s] == 0 else b.status[s] == a.status[s]
  {
    forall s | 0 <= s < 768
      ensures var taken := a.tail <= s < a.tail + run || s < a.tail + run - 768;
        if taken then a.status[s] as int % 2 == 1 && b.status[s] == 0 else b.status[s] == a.status[s]
    {
      var k := Behind(a.tail, s);
      if k < run {
        assert Ready(a.status[Slot(a.tail, k)]);
      }
    }
  }

  lemma TookOneMore(a: Ring, b: Ring, run: nat)
    requires Took(a, b, run) && Ready(b.status[b.tail])
    ensures run < NUM_RX_DESCRIPTORS && Took(a, TakeNext(b), run + 1)
  {
    CountCleared(b.status, b.tail, 0);
    ModularSum(a.count + run, 1);
    assert run < NUM_RX_DESCRIPTORS;
    assert Behind(a.tail, b.tail) == run;
  }

  lemma TookAll(a: Ring, b: Ring, run: nat)
    requires Took(a, b, run) && !Ready(b.status[b.tail])
    ensures Polled(a, b, run)
  {
    if run < NUM_RX_DESCRIPTORS {
      assert Behind(a.tail, b.tail) == run;
    }
  }

  /** The card fills a descriptor that is free, in whatever slot, or the driver polls. */
  datatype Activity = Fill(slot: nat, value: byte) | Poll(run: nat)

  ghost predicate Happens(a: Ring, e: Activity, b: Ring) {
    match e
    case Fill(slot, value) =>
      && a.Valid() && slot < NUM_RX_DESCRIPTORS && !Ready(a.status[slot]) && Ready(value)
      && b == a.(status := a.status[slot := value])
    case Poll(run) => Polled(a, b, run)
  }

  ghost predicate IsRingRun(rings: seq<Ring>, es: seq<Activity>) {
    |rings| == |es| + 1 && forall i :: 0 <= i < |es| ==> HappensAt(rings, es, i)
  }

  ghost predicate HappensAt(rings: seq<Ring>, es: seq<Activity>, i: nat)
    requires |rings| == |es| + 1 && i < |es|
  {
    Happens(rings[i], es[i], rings[i + 1])
  }

  /** The packets that the card has delivered in the first n steps. */
  function Packets(es: seq<Activity>, n: nat): nat
    requires n <= |es|
  {
    if n == 0 then 0 else Packets(es, n - 1) + if es[n - 1].Fill? then 1 else 0
  }

  lemma CountStep(a: Ring, e: Activity, b: Ring)
    requires Happens(a, e, b)
    ensures b.Valid()
    ensures (b.count + ReadyCount(b.status)) % WORD ==
      (a.count + ReadyCount(a.status) + if e.Fill? then 1 else 0) % WORD
  {
    match e {
      case Fill(slot, value) => CountCleared(a.status, slot, value);
      case Poll(run) => ModularSum(a.count + run, ReadyCount(b.status));
    }
  }

  lemma ModularSum(x: int, y: int)
    ensures (x % WORD + y) % WORD == (x + y) % WORD
  {
  }

  /** No packet is lost or counted twice: over any sequence of fills and polls, the receive count and the
      descriptors still ready together account for every packet delivered. */
  lemma {:induction false} PacketsAccounted(rings: seq<Ring>, es: seq<Activity>, n: nat)
    requires IsRingRun(rings, es) && rings[0].Valid() && n <= |es|
    ensures rings[n].Valid()
    ensures var a, b := rings[0], rings[n];
      (b.count + ReadyCount(b.status)) % WORD == (a.count + ReadyCount(a.status) + Packets(es, n)) % WORD
  {
    if n > 0 {
      PacketsAccounted(rings, es, n - 1);
      assert HappensAt(rings, es, n - 1);
      var a, b, c, fill := rings[0], rings[n - 1], rings[n], if es[n - 1].Fill? then 1 else 0;
      CountStep(b, es[n - 1], c);
      ModularSum(b.count + ReadyCount(b.status), fill);
      ModularSum(a.count + ReadyCount(a.status) + Packets(es, n - 1), fill);
    }
  }

  /** Exactly the n slots from the tail on are ready: what a card that fills the ring in order keeps up. */
  ghost predicate InOrder(r: Ring, n: nat) {
    r.Valid() && n <= NUM_RX_DESCRIPTORS
    && forall s :: 0 <= s < NUM_RX_DESCRIPTORS ==> (Ready(r.status[s]) <==> Behind(r.tail, s) < n)
  }

  lemma InOrderFill(a: Ring, b: Ring, n: nat, value: byte)
    requires InOrder(a, n) && n < NUM_RX_DESCRIPTORS && Ready(value) && Happens(a, Fill(Slot(a.tail, n), value), b)
    ensures InOrder(b, n + 1)
  {
  }

  /** A poll then takes all n of them. */
  lemma InOrderPoll(a: Ring, b: Ring, n: nat, run: nat)
    requires InOrder(a, n) && Polled(a, b, run)
    ensures run == n && InOrder(b, 0) && b.count == (a.count + n) % WORD
  {
    if run < NUM_RX_DESCRIPTORS {
      assert Behind(a.tail, Slot(a.tail, run)) == run;
    }
    if n < NUM_RX_DESCRIPTORS {
      assert Behind(a.tail, Slot(a.tail, n)) == n;
    }
  }

  /** What rx_init asks for: the descriptors and room to align them. */
  const RING_BYTES: word := 16 * NUM_RX_DESCRIPTORS + 16

  /** kmalloc never gives it: the ring is larger than the page that kmalloc cuts up. */
  method AllocateRing(a: Allocator) returns (base: Option<word>)
    requires a.Valid()
    modifies a, a.heapAllocTable
    ensures base.None? && RING_BYTES == 12304
  {
    base := a.Kmalloc(RING_BYTES);
  }

  class Nic {
    const status: array<byte>
    var rxTail: nat
    var rxCount: word
    /** The card's receive descriptor tail register. */
    var rdt: nat

    ghost predicate Valid()
      reads this
    {
      status.Length == NUM_RX_DESCRIPTORS && rxTail < NUM_RX_DESCRIPTORS
    }

    ghost function Now(): Ring
      reads this, status
    {
      Ring(status[..], rxTail, rxCount)
    }

    /** The state that rx_init prepares, for a driver that has been given the memory it asks for. */
    constructor ()
      ensures Valid() && rxTail == 0 && fresh(status)
      ensures forall s :: 0 <= s < NUM_RX_DESCRIPTORS ==> status[s] == 0
    {
      status := new byte[NUM_RX_DESCRIPTORS](_ => 0);
      rxTail, rdt := 0, NUM_RX_DESCRIPTORS;
    }

    /** The body of the poll's loop, as far as it has an effect. */
    method TakeOne()
      requires Valid() && Ready(status[rxTail])
      modifies this, status
      ensures Valid() && Now() == TakeNext(old(Now())) && rdt == rxTail
      ensures rxTail == (if old(rxTail) < 767 then old(rxTail) + 1 else 0)
        && status[..] == old(status[..])[old(rxTail) := 0]
      ensures rxCount == if old(rxCount) < 0xffff_ffff then old(rxCount) + 1 else 0
    {
      rxCount := Increment(rxCount);
      status[rxTail] := 0;
      rxTail := (rxTail + 1) % NUM_RX_DESCRIPTORS;
      rdt := rxTail;
    }

    /** The poll takes exactly the run of ready slots behind the tail, and terminates because each round
        clears one of them; the card sets no bits meanwhile. `run` is its length. */
    method RxPoll() returns (ghost run: nat)
      requires Valid()
      modifies this, status
      ensures Valid() && Polled(old(Now()), Now(), run) && !Ready(status[rxTail])
      ensures rdt == if run == 0 then old(rdt) else rxTail
      ensures run <= 768 && rxTail == (if old(rxTail) + run < 768 then old(rxTail) + run else old(rxTail) + run - 768)
      ensures rxCount == (old(rxCount) + run) % 0x1_0000_0000
      ensures forall s :: 0 <= s < 768 ==>
        var taken := old(rxTail) <= s < old(rxTail) + run || s < old(rxTail) + run - 768;
        if taken then old(status[s]) as int % 2 == 1 && status[s] == 0 else status[s] == old(status[s])
      ensures run < 768 ==> status[rxTail] as int % 2 == 0
    {
      ghost var r := Now();
      run := TakeAll();
      TookMeans(r, Now(), run);
    }

    /** The loop. */
    method TakeAll() returns (ghost run: nat)
      requires Valid()
      modifies this, status
      ensures Valid() && Polled(old(Now()), Now(), run) && !Ready(status[rxTail])
      ensures rdt == if run == 0 then old(rdt) else rxTail
    {
      run := 0;
      ghost var r := Now();
      while Ready(status[rxTail])
        invariant Valid() && Took(r, Now(), run)
        invariant rdt == if run == 0 then old(rdt) else rxTail
        decreases NUM_RX_DESCRIPTORS - run
      {
        TookOneMore(r, Now(), run);
        TakeOne();
        run := run + 1;
      }
      TookAll(r, Now(), run);
    }
  }
}
