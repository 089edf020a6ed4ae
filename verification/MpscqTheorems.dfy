/** What callers of the ring may rely on in every run, and why the consumer must not peek during a jump. */
module MpscqTheorems {
  import opened Options
  import opened Mpscq
  import opened MpscqRing
  import opened MpscqMoves
  import opened MpscqSafety

  // ------------------------------------------------------------------ every reachable state

  /** Delivery is first-in first-out: what was dequeued is a prefix of what was reserved, without the padding. */
  lemma Fifo(q: Queue)
    requires Reached(q)
    ensures q.taken <= Contents(q.cells)
    ensures q.head <= |q.cells| && q.taken == Contents(q.cells[..q.head])
  {
    ReachedOk(q);
    ContentsPrefix(q.cells, q.head);
  }

  /** The counters stay in order, and no push of a reserved token fails. */
  lemma CountersOrdered(q: Queue)
    requires Reached(q)
    ensures q.head <= q.commit <= q.reserve <= q.head + q.size
    ensures forall p :: 0 <= p < |q.producers| ==> !q.producers[p].PushFailed?
  {
    ReachedOk(q);
    forall p | 0 <= p < |q.producers| ensures !q.producers[p].PushFailed? {
      assert LocalOk(q, q.producers[p]);
    }
  }

  /** Every uncommitted position belongs to exactly one actor; the last index stands for the consumer. */
  lemma ExactlyOneOwner(q: Queue, i: nat)
    requires Reached(q) && q.commit <= i < q.reserve
    ensures var claims := ClaimsOf(q);
            && (exists o :: 0 <= o < |claims| && Owns(claims[o], i))
            && (forall o, o' :: 0 <= o < |claims| && 0 <= o' < |claims| && Owns(claims[o], i) && Owns(claims[o'], i) ==> o == o')
  {
    ReachedOk(q);
    var r := RingOf(q);
    assert Tiled(r);
    assert Owns(r.claims[r.cells[i].owner], i);
    forall o, o' | 0 <= o < |r.claims| && 0 <= o' < |r.claims| && Owns(r.claims[o], i) && Owns(r.claims[o'], i)
      ensures o == o'
    {
      OneOwner(r, o, o', i);
    }
  }

  /** The position at which a claim starts. */
  function Token(c: Claim): (tok: nat)
    requires !c.NoClaim?
  {
    if c.Data? then c.tok else c.at
  }

  /** The owner of commit_tail holds it as its token, so exactly one actor may commit next. */
  lemma OneCommitter(q: Queue) returns (o: nat)
    requires Reached(q) && q.commit < q.reserve
    ensures var claims := ClaimsOf(q);
            && o < |claims| && Owns(claims[o], q.commit) && Token(claims[o]) == q.commit
            && forall o' :: 0 <= o' < |claims| && o' != o ==> !Owns(claims[o'], q.commit)
  {
    ExactlyOneOwner(q, q.commit);
    o :| 0 <= o < |ClaimsOf(q)| && Owns(ClaimsOf(q)[o], q.commit);
    ReachedOk(q);
    assert ClaimOk(RingOf(q), o, ClaimsOf(q)[o]);
  }

  /** Positions that are reserved or unread never share a slot, so nothing is overwritten before it is popped. */
  lemma SlotsDisjoint(q: Queue, i: nat, j: nat)
    requires Reached(q) && q.head <= i < j < q.reserve
    ensures q.size > 0 && i % q.size != j % q.size
  {
    ReachedOk(q);
    DistinctSlots(q.size, i, j);
  }

  /** Every committed element that has not been popped is still in its slot. */
  lemma CommittedIntact(q: Queue, i: nat)
    requires Reached(q) && q.head <= i < q.commit <= |q.cells| && q.cells[i].item.Some?
    ensures q.size > 0 && i % q.size < |q.slots| && q.slots[i % q.size] == q.cells[i].item.value
  {
    ReachedOk(q);
    assert Visible(RingOf(q));
  }

  // ------------------------------------------------------------------ a drained queue

  /** The consumer is not inside mpscq_pop after its update of head. */
  predicate OutsidePop(c: Consumer) {
    c.Resting? || c.PeekHead? || c.PeekTail? || c.Copy? || c.PopAdd?
  }

  lemma DrainedAtLap(q: Queue)
    requires Reached(q) && OutsidePop(q.consumer) && q.head == q.commit == q.reserve
    ensures q.size > 0 && |q.slots| == q.size && q.head % q.size == 0
  {
    ReachedOk(q);
  }

  // ------------------------------------------------------------------ a peek that overlaps a jump

  lemma {:induction false} ExecAppend(q: Queue, a: seq<Step>, b: seq<Step>)
    requires q.size > 0 && |q.slots| == q.size
    ensures Exec(q, a + b) == Exec(Exec(q, a), b)
    decreases |a|
  {
    hide Next;
    if a == [] {
      assert a + b == b;
    } else {
      assert (a + b)[1..] == a[1..] + b && (a + b)[0] == a[0];
      ExecAppend(Next(q, a[0]), a[1..], b);
    }
  }

  lemma ExecOne(q: Queue, s: Step)
    requires q.size > 0 && |q.slots| == q.size
    ensures Exec(q, [s]) == Next(q, s)
  {
    assert [s][1..] == [];
  }

  function Times(s: Step, n: nat): seq<Step> {
    seq(n, _ => s)
  }

  /** Left alone, the consumer copies all the slots it was granted. */
  lemma {:induction false} CopyAll(q: Queue)
    requires q.size > 0 && |q.slots| == q.size && q.consumer.Copy?
    requires |q.consumer.out| < q.consumer.n && q.consumer.h % q.size + q.consumer.n <= q.size
    ensures var Copy(n, h, out) := q.consumer;
            Exec(q, Times(Consume, n - |out|)) ==
            q.(consumer := PopAdd(n, out + q.slots[h % q.size + |out|..h % q.size + n]))
    decreases q.consumer.n - |q.consumer.out|
  {
    var Copy(n, h, out) := q.consumer;
    var lo, hi := h % q.size + |out|, h % q.size + n;
    CopyOne(q);
    TakeOne(out, q.slots, lo, hi);
    ExecTimes(q, Consume, n - |out|);
    hide Next, Exec, Times;
    if |out| + 1 < n {
      CopyAll(Next(q, Consume));
    } else {
      ExecTimes(Next(q, Consume), Consume, 0);
    }
  }

  lemma TakeOne(out: seq<Elem>, slots: seq<Elem>, lo: nat, hi: nat)
    requires lo < hi <= |slots|
    ensures out + [slots[lo]] + slots[lo + 1..hi] == out + slots[lo..hi]
    ensures lo + 1 == hi ==> out + [slots[lo]] == out + slots[lo..hi]
  {
  }

  lemma ExecTimes(q: Queue, s: Step, n: nat)
    requires q.size > 0 && |q.slots| == q.size
    ensures Exec(q, Times(s, n)) == if n == 0 then q else Exec(Next(q, s), Times(s, n - 1))
  {
    hide Next;
    if n > 0 {
      assert Times(s, n)[1..] == Times(s, n - 1);
    }
  }

  lemma CopyOne(q: Queue)
    requires q.size > 0 && |q.slots| == q.size && q.consumer.Copy?
    requires |q.consumer.out| < q.consumer.n && q.consumer.h % q.size + q.consumer.n <= q.size
    ensures var Copy(n, h, out) := q.consumer;
            var out' := out + [q.slots[h % q.size + |out|]];
            Next(q, Consume) == q.(consumer := if |out'| == n then PopAdd(n, out') else Copy(n, h, out'))
  {
  }

  /** The consumer has handed out elements that are not the ones reserved. */
  ghost predicate OutOfOrder(q: Queue) {
    q.head <= |q.cells| && q.taken != Contents(q.cells[..q.head])
  }

  /** From `q` on nothing was reserved, and more was handed out than head has passed. */
  ghost predicate HandsOutPadding(q: Queue, q': Queue) {
    && q'.cells == q.cells && q.head <= q'.head <= |q'.cells|
    && Contents(q'.cells[..q'.head]) == q.taken && |q'.taken| > |q.taken|
  }

  predicate NoCalls(steps: seq<Step>) {
    forall i :: 0 <= i < |steps| ==> !steps[i].Enqueue?
  }

  lemma PeekAndPop(q: Queue)
    requires q.size > 0 && |q.slots| == q.size && Peeking(q) && q.consumer.h == q.head
    requires q.consumer.n > 0 && q.head + q.consumer.n <= q.commit
    ensures var n := q.consumer.n;
            var m := q.head % q.size;
            && Next(q, Consume) == q.(consumer := Copy(n, q.head, []))
            && Next(q.(consumer := PopAdd(n, q.slots[m..m + n])), Consume) ==
               q.(head := q.head + n, taken := q.taken + q.slots[m..m + n], consumer := PopTail(q.head + n))
  {
  }

  lemma PeekCopies(q: Queue)
    requires q.size > 0 && |q.slots| == q.size && Peeking(q) && q.consumer.h == q.head
    requires q.consumer.n > 0 && q.head + q.consumer.n <= q.commit
    ensures var n := q.consumer.n;
            var m := q.head % q.size;
            Exec(q.(consumer := Copy(n, q.head, [])), Times(Consume, n)) == q.(consumer := PopAdd(n, q.slots[m..m + n]))
  {
    hide Exec, Next, Times;
    var n, m := q.consumer.n, q.head % q.size;
    CopyAll(q.(consumer := Copy(n, q.head, [])));
    assert [] + q.slots[m..m + n] == q.slots[m..m + n];
  }

  /** A peek that is granted ends in a pop of the slots from head on. */
  lemma GrantedPeek(q: Queue)
    requires q.size > 0 && |q.slots| == q.size && Peeking(q) && q.consumer.h == q.head
    requires q.consumer.n > 0 && q.head + q.consumer.n <= q.commit
    ensures var n := q.consumer.n;
            Exec(q, [Consume] + Times(Consume, n) + [Consume]) ==
            q.(head := q.head + n, taken := q.taken + q.slots[q.head % q.size..q.head % q.size + n],
               consumer := PopTail(q.head + n))
  {
    hide Exec, Next, Times;
    PeekAndPop(q);
    PeekCopies(q);
    var n, m := q.consumer.n, q.head % q.size;
    Bracketed(q, q.(consumer := Copy(n, q.head, [])), q.(consumer := PopAdd(n, q.slots[m..m + n])), Times(Consume, n));
  }

  lemma Bracketed(q: Queue, q1: Queue, q2: Queue, steps: seq<Step>)
    requires q.size > 0 && |q.slots| == q.size && q1.size == q.size && q1.slots == q.slots
    requires q2.size == q.size && q2.slots == q.slots
    requires Next(q, Consume) == q1 && Exec(q1, steps) == q2
    ensures Exec(q, [Consume] + steps + [Consume]) == Next(q2, Consume)
  {
    hide Exec, Next;
    ExecOne(q, Consume);
    ExecOne(q2, Consume);
    ExecAppend(q, [Consume], steps);
    ExecAppend(q, [Consume] + steps, [Consume]);
  }

  /** A producer that has moved commit_tail but not head leaves the rest of the lap as committed padding. */
  lemma PaddingAhead(q: Queue, p: nat)
    requires q.size > 0 && RingOk(RingOf(q)) && p < |q.producers| && q.producers[p].NormHead?
    requires Peeking(q) && q.consumer.h == q.head
    ensures |q.slots| == q.size && q.head + q.consumer.n <= q.commit <= |q.cells|
    ensures q.taken == Contents(q.cells[..q.head])
    ensures forall i :: q.head <= i < q.head + q.consumer.n ==> q.cells[i].item.None?
  {
    GotoRing(q, p, Idle);
    assert ClaimOk(RingOf(q), p, RingOf(q).claims[p]);
  }

  lemma PopsPadding(q: Queue, n: nat, q': Queue)
    requires n > 0 && q.head + n <= |q.cells| && q.taken == Contents(q.cells[..q.head])
    requires forall i :: q.head <= i < q.head + n ==> q.cells[i].item.None?
    requires q'.cells == q.cells && q'.head == q.head + n && |q'.taken| == |q.taken| + n
    ensures HandsOutPadding(q, q') && OutOfOrder(q')
  {
    var skipped := q.cells[q.head..q.head + n];
    ContentsPadding(skipped);
    ContentsAppend(q.cells[..q.head], skipped);
    assert q.cells[..q.head] + skipped == q.cells[..q.head + n];
  }

  /** While a producer has moved commit_tail but not head, a peek that fits the lap is granted, and it is padding. */
  lemma TornPeek(q: Queue, p: nat) returns (steps: seq<Step>)
    requires q.size > 0 && RingOk(RingOf(q)) && p < |q.producers| && q.producers[p].NormHead?
    requires Peeking(q) && q.consumer.h == q.head && q.consumer.n > 0
    ensures |q.slots| == q.size && NoCalls(steps) && HandsOutPadding(q, Exec(q, steps)) && OutOfOrder(Exec(q, steps))
  {
    PaddingAhead(q, p);
    steps := [Consume] + Times(Consume, q.consumer.n) + [Consume];
    assert NoCalls(steps);
    hide *;
    GrantedPeek(q);
    PopsPadding(q, q.consumer.n, Exec(q, steps));
  }

  /** The jump's update of commit_tail, as far as the shared ring is concerned. */
  lemma PublishRing(q: Queue, p: nat)
    requires q.size > 0 && RingOk(RingOf(q)) && p < |q.producers| && q.producers[p].NormPublish?
    ensures |q.slots| == q.size
    ensures var q' := Next(q, Produce(p));
            RingOk(RingOf(q')) && q'.producers[p].NormHead? && q'.head == q.head && q'.consumer == q.consumer
            && q'.taken == q.taken && q'.cells == q.cells
  {
    var pc := q.producers[p];
    GotoRing(q, p, NormHead(pc.data, pc.at, pc.lap));
    PublishLapOk(RingOf(q), p);
    assert RingOf(NextProducer(q, p)) == PublishLap(RingOf(q), p);
  }

  lemma TornFromPublish(q: Queue, p: nat) returns (steps: seq<Step>)
    requires q.size > 0 && RingOk(RingOf(q)) && p < |q.producers| && q.producers[p].NormPublish?
    requires Peeking(q) && q.consumer.h == q.head && q.consumer.n > 0
    ensures |q.slots| == q.size && NoCalls(steps) && HandsOutPadding(q, Exec(q, steps)) && OutOfOrder(Exec(q, steps))
  {
    PublishRing(q, p);
    var q1 := Next(q, Produce(p));
    var rest := TornPeek(q1, p);
    steps := [Produce(p)] + rest;
    ExecOne(q, Produce(p));
    ExecAppend(q, [Produce(p)], rest);
  }

  /** The discipline cannot be weakened: after any step that breaks it, some schedule delivers padding. */
  lemma DisciplineNeeded(q: Queue, s: Step) returns (steps: seq<Step>)
    requires QueueOk(q) && !Disciplined(q, s)
    ensures |q.slots| == q.size && NoCalls(steps)
    ensures HandsOutPadding(q, Exec(Next(q, s), steps)) && OutOfOrder(Exec(Next(q, s), steps))
  {
    assert Bounds(RingOf(q));
    var q1 := Next(q, s);
    var p :| 0 <= p < |q.producers| && Jumping(q.producers[p]);
    ConsumerRing(q, q1.consumer);
    assert RingOf(q1) == RingOf(q);
    if q.producers[p].NormHead? {
      steps := TornPeek(q1, p);
    } else {
      steps := TornFromPublish(q1, p);
    }
  }

  /** A producer can start a jump only while the consumer is finishing the pop that emptied the queue. */
  lemma JumpsStartInPop(q: Queue, p: nat)
    requires Reached(q) && p < |q.producers| && !Jumping(q.producers[p])
    ensures q.size > 0 && |q.slots| == q.size
    ensures Jumping(Next(q, Produce(p)).producers[p]) ==> Finishing(q.consumer, q.head)
  {
    ReachedOk(q);
    assert LocalOk(q, q.producers[p]);
  }

  // ------------------------------------------------------------------ a schedule that meets the hazard

  /** A ring of two slots with one producer, in a given situation. */
  function Small(head: nat, commit: nat, reserve: nat, a: Elem, y: Elem, pc: Producer, c: Consumer,
                 cells: seq<Cell>, taken: seq<Elem>): Queue {
    Queue(2, head, commit, reserve, [a, y], [pc], c, cells, taken)
  }

  /** A step of the producer that changes no shared field of the small queue. */
  lemma SmallStep(q: Queue, s: Step, pc: Producer)
    requires Reached(q) && q.size == |q.slots| == 2 && |q.producers| == 1 && Disciplined(q, s)
    requires Next(q, s) == Goto(q, 0, pc)
    ensures Reached(q.(producers := [pc]))
  {
    ReachedStep(q, s);
    assert q.producers[0 := pc] == [pc];
  }

  lemma HazardAsk(a: Elem, y: Elem)
    ensures Reached(Small(0, 0, 0, a, y, Take([a], 0), Resting, [], []))
  {
    hide Reached;
    ReachedInit(2, 1, [a, y]);
    var q0 := Small(0, 0, 0, a, y, Idle, Resting, [], []);
    assert Init(2, 1, [a, y]) == q0;
    SmallStep(q0, Enqueue(0, [a]), ReadHead([a]));
    SmallStep(q0.(producers := [ReadHead([a])]), Produce(0), ReadReserve([a], 0));
    SmallStep(q0.(producers := [ReadReserve([a], 0)]), Produce(0), Take([a], 0));
  }

  lemma HazardReserve(a: Elem, y: Elem)
    ensures Reached(Small(0, 0, 1, a, y, Write([a], 0, 0), Resting, [Cell(0, Some(a))], []))
  {
    hide Reached;
    HazardAsk(a, y);
    var q3 := Small(0, 0, 0, a, y, Take([a], 0), Resting, [], []);
    ReachedStep(q3, Produce(0));
    assert [] + Items(0, [a]) == [Cell(0, Some(a))];
    assert Next(q3, Produce(0)) == Small(0, 0, 1, a, y, Write([a], 0, 0), Resting, [Cell(0, Some(a))], []);
  }

  lemma HazardEnqueue(a: Elem, y: Elem)
    ensures Reached(Small(0, 1, 1, a, y, Idle, Resting, [Cell(0, Some(a))], []))
  {
    HazardReserve(a, y);
    hide Reached;
    var cells := [Cell(0, Some(a))];
    var q4 := Small(0, 0, 1, a, y, Write([a], 0, 0), Resting, cells, []);
    ReachedStep(q4, Produce(0));
    var q5 := Small(0, 0, 1, a, y, PushCheck([a], 0), Resting, cells, []);
    assert Next(q4, Produce(0)) == q5;
    SmallStep(q5, Produce(0), PushWait([a], 0));
    SmallStep(q5.(producers := [PushWait([a], 0)]), Produce(0), PushWrite([a], 0));
    var q7 := Small(0, 0, 1, a, y, PushWrite([a], 0), Resting, cells, []);
    ReachedStep(q7, Produce(0));
    assert Next(q7, Produce(0)) == Small(0, 1, 1, a, y, Idle, Resting, cells, []);
  }

  lemma HazardDequeue(a: Elem, y: Elem)
    ensures Reached(Small(1, 1, 1, a, y, Idle, PopTail(1), [Cell(0, Some(a))], [a]))
  {
    HazardEnqueue(a, y);
    hide Reached;
    var cells := [Cell(0, Some(a))];
    var q0 := Small(0, 1, 1, a, y, Idle, Resting, cells, []);
    ReachedStep(q0, Dequeue(1));
    var q1 := Small(0, 1, 1, a, y, Idle, PeekHead(1), cells, []);
    ReachedStep(q1, Consume);
    var q2 := Small(0, 1, 1, a, y, Idle, PeekTail(1, 0), cells, []);
    ReachedStep(q2, Consume);
    var q3 := Small(0, 1, 1, a, y, Idle, Copy(1, 0, []), cells, []);
    ReachedStep(q3, Consume);
    var q4 := Small(0, 1, 1, a, y, Idle, PopAdd(1, [a]), cells, []);
    assert [] + [a] == [a];
    assert Next(q3, Consume) == q4;
    ReachedStep(q4, Consume);
  }

  lemma HazardJump(a: Elem, y: Elem)
    ensures Reached(Small(1, 1, 2, a, y, NormPublish([a, a], 1, 2), PopTail(1), [Cell(0, Some(a)), Cell(0, None)], [a]))
  {
    HazardDequeue(a, y);
    hide Reached;
    var cells, data := [Cell(0, Some(a))], [a, a];
    var q0 := Small(1, 1, 1, a, y, Idle, PopTail(1), cells, [a]);
    SmallStep(q0, Enqueue(0, data), ReadHead(data));
    SmallStep(q0.(producers := [ReadHead(data)]), Produce(0), ReadReserve(data, 1));
    SmallStep(q0.(producers := [ReadReserve(data, 1)]), Produce(0), CheckCommit(data, 1));
    SmallStep(q0.(producers := [CheckCommit(data, 1)]), Produce(0), NormCommit(data, 1));
    SmallStep(q0.(producers := [NormCommit(data, 1)]), Produce(0), NormReserve(data, 1));
    SmallStep(q0.(producers := [NormReserve(data, 1)]), Produce(0), NormTake(data, 1));
    var q6 := Small(1, 1, 1, a, y, NormTake(data, 1), PopTail(1), cells, [a]);
    ReachedStep(q6, Produce(0));
    assert cells + Padding(0, 1) == [Cell(0, Some(a)), Cell(0, None)];
    assert Next(q6, Produce(0)) ==
           Small(1, 1, 2, a, y, NormPublish(data, 1, 2), PopTail(1), [Cell(0, Some(a)), Cell(0, None)], [a]);
  }

  /** The hazard is real: one producer and a ring of two slots reach a peek that breaks the discipline. */
  lemma HazardReached(a: Elem, y: Elem) returns (q: Queue)
    ensures Reached(q) && q.size > 0 && !Disciplined(q, Consume)
    ensures q.head == 1 && q.cells == [Cell(0, Some(a)), Cell(0, None)] && q.taken == [a]
  {
    HazardJump(a, y);
    hide Reached;
    var cells := [Cell(0, Some(a)), Cell(0, None)];
    var pc := NormPublish([a, a], 1, 2);
    var q0 := Small(1, 1, 2, a, y, pc, PopTail(1), cells, [a]);
    ReachedStep(q0, Consume);
    var q1 := Small(1, 1, 2, a, y, pc, EmptyCommit(1), cells, [a]);
    ReachedStep(q1, Consume);
    var q2 := Small(1, 1, 2, a, y, pc, EmptyReserve(1), cells, [a]);
    ReachedStep(q2, Consume);
    var q3 := Small(1, 1, 2, a, y, pc, Resting, cells, [a]);
    ReachedStep(q3, Dequeue(1));
    q := Small(1, 1, 2, a, y, pc, PeekHead(1), cells, [a]);
    assert Jumping(q.producers[0]);
  }

  /** If only padding lies ahead, what is then handed out was never enqueued. */
  lemma NeverEnqueued(q: Queue, q': Queue)
    requires HandsOutPadding(q, q')
    requires q.head <= |q.cells| && forall i :: q.head <= i < |q.cells| ==> q.cells[i].item.None?
    ensures Contents(q'.cells) == q.taken && !(q'.taken <= Contents(q'.cells))
  {
    var rest := q'.cells[q'.head..];
    ContentsPadding(rest);
    ContentsAppend(q'.cells[..q'.head], rest);
    assert q'.cells[..q'.head] + rest == q'.cells;
  }

  /** So the code as it stands can deliver an element that was never enqueued. */
  lemma PaddingDelivered(a: Elem, y: Elem) returns (q: Queue, steps: seq<Step>)
    ensures Reached(q) && q.size > 0 && |q.slots| == q.size && OutOfOrder(Exec(q, steps))
    ensures Contents(Exec(q, steps).cells) == [a] && !(Exec(q, steps).taken <= Contents(Exec(q, steps).cells))
  {
    q := HazardReached(a, y);
    ReachedOk(q);
    hide QueueOk, Reached, Disciplined, Exec, Next, RingOk, Contents;
    var rest := DisciplineNeeded(q, Consume);
    steps := [Consume] + rest;
    ExecAppend(q, [Consume], rest);
    ExecOne(q, Consume);
    NeverEnqueued(q, Exec(q, steps));
  }
}
