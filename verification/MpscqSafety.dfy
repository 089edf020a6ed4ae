/**
 Safety of the protocol over every interleaving in which the consumer's peek does not
 overlap a producer's jump to the next lap.
 */
module MpscqSafety {
  import opened Options
  import opened Mpscq
  import opened MpscqRing
  import opened MpscqMoves

  // ------------------------------------------------------------------ the invariant of a state

  function ProducerClaim(pc: Producer): Claim {
    match pc
    case NormPublish(_, at, lap) => Lap(at, lap, false)
    case NormHead(_, at, lap) => Lap(at, lap, true)
    case Write(data, tok, k) => Data(tok, data, k)
    case PushCheck(data, tok) => Data(tok, data, |data|)
    case PushWait(data, tok) => Data(tok, data, |data|)
    case PushWrite(data, tok) => Data(tok, data, |data|)
    case _ => NoClaim
  }

  function ConsumerClaim(c: Consumer): Claim {
    match c
    case EmptyPublish(at, lap) => Lap(at, lap, false)
    case EmptyHead(at, lap) => Lap(at, lap, true)
    case _ => NoClaim
  }

  function ClaimsOf(q: Queue): seq<Claim> {
    seq(|q.producers|, i requires 0 <= i < |q.producers| => ProducerClaim(q.producers[i])) + [ConsumerClaim(q.consumer)]
  }

  function RingOf(q: Queue): Ring {
    Ring(q.size, q.head, q.commit, q.reserve, q.slots, q.cells, q.taken, ClaimsOf(q))
  }

  /** What a producer remembers is still true enough for its next access. */
  predicate LocalOk(q: Queue, pc: Producer)
    requires q.size > 0
  {
    match pc
    case Idle => true
    case ReadHead(data) => 1 <= |data| <= q.size
    case ReadReserve(data, h) => 1 <= |data| <= q.size && h <= q.head
    case CheckCommit(data, at) => 1 <= |data| <= q.size && at <= q.head
    case NormCommit(data, at) => 1 <= |data| <= q.size && at <= q.head && at % q.size != 0
    case NormReserve(data, at) => 1 <= |data| <= q.size && at <= q.head && at % q.size != 0
    case NormTake(data, at) => 1 <= |data| <= q.size && at <= q.head && at % q.size != 0
    case NormPublish(data, _, _) => 1 <= |data| <= q.size
    case NormHead(data, _, _) => 1 <= |data| <= q.size
    case Take(data, at) => 1 <= |data| <= q.size && at + |data| <= q.head + q.size && at % q.size + |data| <= q.size
    case Write(data, _, k) => k < |data|
    case PushCheck(_, _) => true
    case PushWait(_, _) => true
    case PushWrite(_, tok) => q.commit == tok
    case PushFailed => false
  }

  predicate Jumping(pc: Producer) {
    pc.NormPublish? || pc.NormHead?
  }

  /** No producer is between its CAS of reserve_tail to the next lap and its CAS of head. */
  predicate Quiet(q: Queue) {
    forall p :: 0 <= p < |q.producers| ==> !Jumping(q.producers[p])
  }

  /** The consumer has read `out` from head on. */
  ghost predicate HasRead(q: Queue, out: seq<Elem>) {
    && q.head + |out| <= |q.cells|
    && forall j :: q.head <= j < q.head + |out| ==> q.cells[j].item == Some(out[j - q.head])
  }

  ghost predicate AllItems(q: Queue, n: nat) {
    && q.head + n <= |q.cells|
    && forall j :: q.head <= j < q.head + n ==> q.cells[j].item.Some?
  }

  ghost predicate ConsumerOk(q: Queue)
    requires q.size > 0
  {
    match q.consumer
    case Resting => true
    case PeekHead(n) => n > 0
    case PeekTail(n, h) => n > 0 && (h % q.size + n <= q.size ==> h == q.head && Quiet(q))
    case Copy(n, h, out) =>
      && h == q.head && |out| < n && q.head + n <= q.commit && h % q.size + n <= q.size
      && AllItems(q, n) && HasRead(q, out)
    case PopAdd(n, out) => |out| == n > 0 && q.head + n <= q.commit && HasRead(q, out)
    case PopTail(at) => at <= q.head
    case EmptyCommit(at) => at <= q.head && at % q.size != 0
    case EmptyReserve(at) => at <= q.head && at % q.size != 0
    case EmptyTake(at) => at <= q.head && at % q.size != 0
    case EmptyPublish(_, _) => true
    case EmptyHead(_, _) => true
  }

  /** The consumer is on its way to normalise position `at`. */
  predicate Finishing(c: Consumer, at: nat) {
    c == PopTail(at) || c == EmptyCommit(at) || c == EmptyReserve(at) || c == EmptyTake(at)
  }

  /** A drained queue stands at the start of a lap, or the consumer is about to move it there. */
  predicate Drained(q: Queue)
    requires q.size > 0
  {
    q.head == q.commit == q.reserve && q.head % q.size != 0 ==> Finishing(q.consumer, q.head)
  }

  ghost predicate QueueOk(q: Queue) {
    && q.size > 0
    && RingOk(RingOf(q))
    && (forall p :: 0 <= p < |q.producers| ==> LocalOk(q, q.producers[p]))
    && ConsumerOk(q) && Drained(q)
  }

  /** The consumer has read head for a peek that fits into the rest of the lap, and will read commit_tail next. */
  predicate Peeking(q: Queue)
    requires q.size > 0
  {
    q.consumer.PeekTail? && q.consumer.h % q.size + q.consumer.n <= q.size
  }

  /**
   The consumer does not start a peek while a producer is jumping to the next lap,
   unless the peek asks for more than the rest of the lap and fails anyway.
   */
  predicate Disciplined(q: Queue, s: Step)
    requires q.size > 0
  {
    s.Consume? && q.consumer.PeekHead? && q.head % q.size + q.consumer.n <= q.size ==> Quiet(q)
  }

  // ------------------------------------------------------------------ helpers

  lemma GotoRing(q: Queue, p: nat, pc: Producer)
    requires p < |q.producers|
    ensures ClaimsOf(Goto(q, p, pc)) == ClaimsOf(q)[p := ProducerClaim(pc)]
    ensures ClaimsOf(q)[p] == ProducerClaim(q.producers[p])
    ensures ProducerClaim(pc) == ProducerClaim(q.producers[p]) ==> RingOf(Goto(q, p, pc)) == RingOf(q)
  {
  }

  lemma ConsumerRing(q: Queue, c: Consumer)
    ensures ClaimsOf(q.(consumer := c)) == ClaimsOf(q)[|q.producers| := ConsumerClaim(c)]
    ensures ClaimsOf(q)[|q.producers|] == ConsumerClaim(q.consumer)
    ensures ConsumerClaim(c) == ConsumerClaim(q.consumer) ==> RingOf(q.(consumer := c)) == RingOf(q)
  {
  }

  /** Nobody else is waiting with the token at commit_tail. */
  lemma OneTurn(q: Queue, o: nat, p: nat)
    requires RingOk(RingOf(q)) && o < |ClaimsOf(q)| && Owns(ClaimsOf(q)[o], q.commit)
    requires p < |q.producers| && q.producers[p].PushWrite? && q.producers[p].tok == q.commit
    ensures p == o
  {
    GotoRing(q, p, Idle);
    assert ClaimOk(RingOf(q), p, RingOf(q).claims[p]);
    OneOwner(RingOf(q), o, p, q.commit);
  }

  // ------------------------------------------------------------------ producer steps

  /** A step that only moves one producer on, without a change to its claim. */
  lemma LocalMove(q: Queue, p: nat, pc: Producer)
    requires QueueOk(q) && p < |q.producers| && LocalOk(q, pc) && !Jumping(pc)
    requires ProducerClaim(pc) == ProducerClaim(q.producers[p])
    ensures QueueOk(Goto(q, p, pc))
  {
    GotoRing(q, p, pc);
  }

  /** The other producers after a change to the shared counters that keeps commit_tail or moves it over claim `o`. */
  lemma OthersOk(q: Queue, q': Queue, o: nat)
    requires QueueOk(q) && q'.size == q.size && q.head <= q'.head
    requires q'.commit == q.commit || (o < |ClaimsOf(q)| && Owns(ClaimsOf(q)[o], q.commit))
    ensures forall p :: 0 <= p < |q.producers| && p != o ==> LocalOk(q', q.producers[p])
  {
    hide RingOk;
    forall p | 0 <= p < |q.producers| && p != o ensures LocalOk(q', q.producers[p]) {
      assert LocalOk(q, q.producers[p]);
      if q.producers[p].PushWrite? && q'.commit != q.commit { OneTurn(q, o, p); }
    }
  }

  /** The consumer's view of the cells from head on survives growth of the counters. */
  lemma ConsumerGrows(q: Queue, q': Queue)
    requires q.size > 0 && q'.size == q.size && ConsumerOk(q) && q'.consumer == q.consumer
    requires q'.head == q.head && q.commit <= q'.commit && q.cells <= q'.cells
    requires Peeking(q) ==> Quiet(q')
    ensures ConsumerOk(q')
  {
  }

  lemma ProducerTake(q: Queue, p: nat)
    requires QueueOk(q) && p < |q.producers| && q.producers[p].Take? && q.reserve == q.producers[p].at
    ensures QueueOk(NextProducer(q, p))
  {
    var data := q.producers[p].data;
    var q' := NextProducer(q, p);
    assert LocalOk(q, q.producers[p]);
    GotoRing(q, p, Write(data, q.reserve, 0));
    TakeDataOk(RingOf(q), p, data);
    assert RingOf(q') == TakeData(RingOf(q), p, data);
    OthersOk(q, q', p);
    ConsumerGrows(q, q');
  }

  lemma ProducerNormTake(q: Queue, p: nat)
    requires QueueOk(q) && p < |q.producers| && q.producers[p].NormTake? && q.reserve == q.producers[p].at
    ensures QueueOk(NextProducer(q, p))
  {
    var at := q.reserve;
    var q' := NextProducer(q, p);
    assert LocalOk(q, q.producers[p]);
    assert Finishing(q.consumer, q.head);
    GotoRing(q, p, NormPublish(q.producers[p].data, at, NextLap(q.size, at)));
    TakeLapOk(RingOf(q), p);
    assert RingOf(q') == TakeLap(RingOf(q), p);
    OthersOk(q, q', p);
    ConsumerGrows(q, q');
  }

  lemma WriteRing(q: Queue, p: nat)
    requires QueueOk(q) && p < |q.producers| && q.producers[p].Write?
    ensures var Write(data, tok, k) := q.producers[p];
            && k < |data| && |q.slots| == q.size && tok % q.size + |data| <= q.size
            && NextProducer(q, p) == Goto(q, p, if k + 1 == |data| then PushCheck(data, tok) else Write(data, tok, k + 1))
                                     .(slots := q.slots[tok % q.size + k := data[k]])
            && RingOk(RingOf(NextProducer(q, p)))
  {
    hide ClaimsOk, Tiled, Visible, Contents, ConsumerOk, Drained;
    var pc := q.producers[p];
    var q' := NextProducer(q, p);
    assert LocalOk(q, pc);
    GotoRing(q, p, pc);
    WriteSlotOk(RingOf(q), p);
    GotoRing(q, p, if pc.k + 1 == |pc.data| then PushCheck(pc.data, pc.tok) else Write(pc.data, pc.tok, pc.k + 1));
    assert RingOf(q') == WriteSlot(RingOf(q), p);
  }

  lemma ProducerWrite(q: Queue, p: nat)
    requires QueueOk(q) && p < |q.producers| && q.producers[p].Write?
    ensures QueueOk(NextProducer(q, p))
  {
    hide RingOk;
    WriteRing(q, p);
    var q' := NextProducer(q, p);
    assert LocalOk(q, q.producers[p]);
    OthersOk(q, q', p);
    ConsumerGrows(q, q');
  }

  lemma ProducerPush(q: Queue, p: nat)
    requires QueueOk(q) && p < |q.producers| && q.producers[p].PushWrite?
    ensures QueueOk(NextProducer(q, p))
  {
    var q' := NextProducer(q, p);
    assert LocalOk(q, q.producers[p]);
    GotoRing(q, p, Idle);
    assert ClaimOk(RingOf(q), p, RingOf(q).claims[p]);
    PublishDataOk(RingOf(q), p);
    assert RingOf(q') == PublishData(RingOf(q), p);
    OthersOk(q, q', p);
    ConsumerGrows(q, q');
  }

  lemma ProducerPublishLap(q: Queue, p: nat)
    requires QueueOk(q) && p < |q.producers| && q.producers[p].NormPublish?
    ensures QueueOk(NextProducer(q, p))
  {
    var pc := q.producers[p];
    var q' := NextProducer(q, p);
    assert LocalOk(q, pc);
    GotoRing(q, p, NormHead(pc.data, pc.at, pc.lap));
    PublishLapOk(RingOf(q), p);
    assert RingOf(q') == PublishLap(RingOf(q), p);
    assert ClaimOk(RingOf(q), p, RingOf(q).claims[p]);
    OthersOk(q, q', p);
    ConsumerGrows(q, q');
  }

  /** While a jump is under way head stands on padding, so nothing is being read there. */
  lemma NothingRead(q: Queue, o: nat)
    requires QueueOk(q) && o < |ClaimsOf(q)| && ClaimsOf(q)[o].Lap? && ClaimsOf(q)[o].published
    ensures !q.consumer.Copy? && !q.consumer.PopAdd?
  {
    assert ClaimOk(RingOf(q), o, RingOf(q).claims[o]);
    assert q.cells[q.head].item.None?;
  }

  lemma ProducerJump(q: Queue, p: nat)
    requires QueueOk(q) && p < |q.producers| && q.producers[p].NormHead?
    ensures QueueOk(NextProducer(q, p))
  {
    var pc := q.producers[p];
    var q' := NextProducer(q, p);
    assert LocalOk(q, pc);
    GotoRing(q, p, ReadHead(pc.data));
    JumpHeadOk(RingOf(q), p);
    assert RingOf(q') == JumpHead(RingOf(q), p);
    OthersOk(q, q', p);
    NothingRead(q, p);
    assert Jumping(q.producers[p]);
  }

  lemma ProducerRead(q: Queue, p: nat)
    requires QueueOk(q) && p < |q.producers|
    requires var pc := q.producers[p];
             || pc.Idle? || pc.ReadHead? || pc.ReadReserve? || pc.CheckCommit? || pc.NormCommit? || pc.NormReserve?
             || (pc.NormTake? && q.reserve != pc.at) || (pc.Take? && q.reserve != pc.at)
    ensures QueueOk(NextProducer(q, p))
  {
    assert Bounds(RingOf(q));
    hide RingOk;
    var pc := q.producers[p];
    assert LocalOk(q, pc);
    var q' := NextProducer(q, p);
    if !pc.Idle? {
      LocalMove(q, p, q'.producers[p]);
    }
  }

  /** A token taken by a producer lies between commit_tail and reserve_tail until it is pushed. */
  lemma ProducerPushRead(q: Queue, p: nat)
    requires QueueOk(q) && p < |q.producers| && (q.producers[p].PushCheck? || q.producers[p].PushWait?)
    ensures QueueOk(NextProducer(q, p))
  {
    var pc := q.producers[p];
    var q' := NextProducer(q, p);
    GotoRing(q, p, pc);
    assert ClaimOk(RingOf(q), p, RingOf(q).claims[p]);
    hide RingOk;
    if q' != q {
      LocalMove(q, p, q'.producers[p]);
    }
  }

  lemma ProducerOk(q: Queue, p: nat)
    requires QueueOk(q) && p < |q.producers|
    ensures QueueOk(NextProducer(q, p))
  {
    assert LocalOk(q, q.producers[p]);
    hide QueueOk;
    match q.producers[p] {
      case NormTake(_, at) => if q.reserve == at { ProducerNormTake(q, p); } else { ProducerRead(q, p); }
      case Take(_, at) => if q.reserve == at { ProducerTake(q, p); } else { ProducerRead(q, p); }
      case NormPublish(_, _, _) => ProducerPublishLap(q, p);
      case NormHead(_, _, _) => ProducerJump(q, p);
      case Write(_, _, _) => ProducerWrite(q, p);
      case PushCheck(_, _) => ProducerPushRead(q, p);
      case PushWait(_, _) => ProducerPushRead(q, p);
      case PushWrite(_, _) => ProducerPush(q, p);
      case _ => ProducerRead(q, p);
    }
  }

  // ------------------------------------------------------------------ consumer steps

  /** A step that only moves the consumer on, without a change to its claim. */
  lemma ConsumerMove(q: Queue, c: Consumer)
    requires QueueOk(q) && ConsumerClaim(c) == ConsumerClaim(q.consumer)
    requires ConsumerOk(q.(consumer := c)) && Drained(q.(consumer := c))
    ensures QueueOk(q.(consumer := c))
  {
    ConsumerRing(q, c);
    hide RingOk;
    var q' := q.(consumer := c);
    forall p | 0 <= p < |q'.producers| ensures LocalOk(q', q'.producers[p]) {
      assert LocalOk(q, q.producers[p]);
    }
  }

  /** With no jump under way every committed position from head on holds an element. */
  lemma QuietItems(q: Queue, n: nat)
    requires QueueOk(q) && Quiet(q) && q.consumer.PeekTail? && q.head + n <= q.commit
    ensures AllItems(q, n)
  {
    var r := RingOf(q);
    forall j | q.head <= j < q.head + n ensures q.cells[j].item.Some? {
      if q.cells[j].item.None? {
        var o := q.cells[j].owner;
        assert Skipped(r, j, o);
        if o < |q.producers| { GotoRing(q, o, Idle); }
      }
    }
  }

  lemma ConsumerPeek(q: Queue)
    requires QueueOk(q) && q.consumer.PeekTail?
    ensures QueueOk(NextConsumer(q))
  {
    var n := q.consumer.n;
    if Peeking(q) && q.head + n <= q.commit { QuietItems(q, n); }
    ConsumerMove(q, NextConsumer(q).consumer);
  }

  lemma ConsumerCopy(q: Queue)
    requires QueueOk(q) && q.consumer.Copy?
    ensures QueueOk(NextConsumer(q))
  {
    hide ClaimsOk, Tiled, Contents;
    var Copy(n, h, out) := q.consumer;
    var j := q.head + |out|;
    ModStep(q.size, q.head, |out|);
    assert Visible(RingOf(q));
    assert q.cells[j].item.Some? && q.slots[j % q.size] == q.cells[j].item.value;
    assert HasRead(q, out + [q.slots[j % q.size]]);
    ConsumerMove(q, NextConsumer(q).consumer);
  }

  lemma ConsumerPop(q: Queue)
    requires QueueOk(q) && q.consumer.PopAdd?
    ensures QueueOk(NextConsumer(q))
  {
    var out := q.consumer.out;
    var q' := NextConsumer(q);
    ConsumerRing(q, q'.consumer);
    PopOk(RingOf(q), out);
    assert RingOf(q') == Pop(RingOf(q), out);
    OthersOk(q, q', |q.producers|);
  }

  lemma ConsumerEmptyTake(q: Queue)
    requires QueueOk(q) && q.consumer.EmptyTake? && q.reserve == q.consumer.at
    ensures QueueOk(NextConsumer(q))
  {
    var q' := NextConsumer(q);
    ConsumerRing(q, q'.consumer);
    TakeLapOk(RingOf(q), |q.producers|);
    assert RingOf(q') == TakeLap(RingOf(q), |q.producers|);
    OthersOk(q, q', |q.producers|);
  }

  lemma ConsumerEmptyPublish(q: Queue)
    requires QueueOk(q) && q.consumer.EmptyPublish?
    ensures QueueOk(NextConsumer(q))
  {
    var q' := NextConsumer(q);
    ConsumerRing(q, q'.consumer);
    PublishLapOk(RingOf(q), |q.producers|);
    assert RingOf(q') == PublishLap(RingOf(q), |q.producers|);
    assert ClaimOk(RingOf(q), |q.producers|, RingOf(q).claims[|q.producers|]);
    OthersOk(q, q', |q.producers|);
  }

  lemma ConsumerEmptyJump(q: Queue)
    requires QueueOk(q) && q.consumer.EmptyHead?
    ensures QueueOk(NextConsumer(q))
  {
    var q' := NextConsumer(q);
    ConsumerRing(q, q'.consumer);
    JumpHeadOk(RingOf(q), |q.producers|);
    assert RingOf(q') == JumpHead(RingOf(q), |q.producers|);
    OthersOk(q, q', |q.producers|);
  }

  lemma ConsumerRead(q: Queue)
    requires QueueOk(q)
    requires var c := q.consumer;
             || c.Resting? || (c.PeekHead? && (q.head % q.size + c.n <= q.size ==> Quiet(q)))
             || c.PopTail? || c.EmptyCommit? || c.EmptyReserve?
             || (c.EmptyTake? && q.reserve != c.at)
    ensures QueueOk(NextConsumer(q))
  {
    assert Bounds(RingOf(q));
    hide RingOk;
    ConsumerMove(q, NextConsumer(q).consumer);
  }

  lemma ConsumerStepOk(q: Queue)
    requires QueueOk(q) && Disciplined(q, Consume)
    ensures QueueOk(NextConsumer(q))
  {
    hide QueueOk;
    match q.consumer {
      case PeekTail(_, _) => ConsumerPeek(q);
      case Copy(_, _, _) => ConsumerCopy(q);
      case PopAdd(_, _) => ConsumerPop(q);
      case EmptyTake(at) => if q.reserve == at { ConsumerEmptyTake(q); } else { ConsumerRead(q); }
      case EmptyPublish(_, _) => ConsumerEmptyPublish(q);
      case EmptyHead(_, _) => ConsumerEmptyJump(q);
      case _ => ConsumerRead(q);
    }
  }

  // ------------------------------------------------------------------ every step, every run

  /** Every access of every actor keeps the invariant. */
  lemma StepOk(q: Queue, s: Step)
    requires QueueOk(q) && Disciplined(q, s)
    ensures q.size > 0 && |q.slots| == q.size && QueueOk(Next(q, s))
  {
    assert Bounds(RingOf(q));
    hide RingOk;
    match s {
      case Enqueue(p, data) => if Next(q, s) != q { LocalMove(q, p, ReadHead(data)); }
      case Produce(p) => if p < |q.producers| { ProducerOk(q, p); }
      case Dequeue(n) => if Next(q, s) != q { ConsumerMove(q, PeekHead(n)); }
      case Consume => ConsumerStepOk(q);
    }
  }

  lemma InitOk(size: nat, producers: nat, slots: seq<Elem>)
    requires size > 0 && |slots| == size
    ensures QueueOk(Init(size, producers, slots))
  {
    assert Init(size, producers, slots).cells[..0] == [];
  }

  /** Every step of the schedule is taken with discipline. */
  predicate Orderly(q: Queue, steps: seq<Step>)
    requires q.size > 0 && |q.slots| == q.size
    decreases |steps|
  {
    steps == [] || (Disciplined(q, steps[0]) && Orderly(Next(q, steps[0]), steps[1..]))
  }

  /** The states that some schedule reaches from a fresh queue, for any ring size and number of producers. */
  ghost predicate Reached(q: Queue) {
    exists size: nat, n: nat, slots: seq<Elem>, steps: seq<Step> ::
      size > 0 && |slots| == size && Orderly(Init(size, n, slots), steps) && q == Exec(Init(size, n, slots), steps)
  }

  lemma {:induction false} ExecOk(q: Queue, steps: seq<Step>)
    requires q.size > 0 && |q.slots| == q.size && QueueOk(q) && Orderly(q, steps)
    ensures QueueOk(Exec(q, steps))
    decreases |steps|
  {
    hide QueueOk, Next, Disciplined;
    if steps != [] {
      StepOk(q, steps[0]);
      ExecOk(Next(q, steps[0]), steps[1..]);
    }
  }

  /** The invariant holds in every reachable state. */
  lemma ReachedOk(q: Queue)
    requires Reached(q)
    ensures QueueOk(q) && Bounds(RingOf(q))
  {
    hide QueueOk, Orderly, Exec;
    var size: nat, n: nat, slots: seq<Elem>, steps: seq<Step> :|
      size > 0 && |slots| == size && Orderly(Init(size, n, slots), steps) && q == Exec(Init(size, n, slots), steps);
    InitOk(size, n, slots);
    ExecOk(Init(size, n, slots), steps);
    OkBounds(q);
  }

  lemma OkBounds(q: Queue)
    requires QueueOk(q)
    ensures Bounds(RingOf(q))
  {
  }

  lemma {:induction false} OrderlySnoc(q: Queue, steps: seq<Step>, s: Step)
    requires q.size > 0 && |q.slots| == q.size && Orderly(q, steps) && Disciplined(Exec(q, steps), s)
    ensures Orderly(q, steps + [s]) && Exec(q, steps + [s]) == Next(Exec(q, steps), s)
    decreases |steps|
  {
    hide Next, Disciplined;
    if steps == [] {
      assert steps + [s] == [s] && [s][1..] == [];
    } else {
      OrderlySnoc(Next(q, steps[0]), steps[1..], s);
      assert (steps + [s])[1..] == steps[1..] + [s];
    }
  }

  /** One more disciplined step stays within the reachable states. */
  lemma ReachedStep(q: Queue, s: Step)
    requires Reached(q) && q.size > 0 && Disciplined(q, s)
    ensures |q.slots| == q.size && Reached(Next(q, s))
  {
    hide Next, Disciplined, Orderly, Exec;
    var size: nat, n: nat, slots: seq<Elem>, steps: seq<Step> :|
      size > 0 && |slots| == size && Orderly(Init(size, n, slots), steps) && q == Exec(Init(size, n, slots), steps);
    OrderlySnoc(Init(size, n, slots), steps, s);
  }

  lemma ReachedInit(size: nat, n: nat, slots: seq<Elem>)
    requires size > 0 && |slots| == size
    ensures Reached(Init(size, n, slots))
  {
    assert Orderly(Init(size, n, slots), []) && Exec(Init(size, n, slots), []) == Init(size, n, slots);
  }
}
