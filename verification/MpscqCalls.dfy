/**
 What a call comes to while nobody else moves, from every reachable state and on the counters
 alone: when room is granted, when a jump to the next lap is made for it, when elements are
 handed out, and that a call which is refused leaves everything as it was.
 */
module MpscqCalls {
  import opened Options
  import opened Mpscq
  import opened MpscqRing
  import opened MpscqSafety
  import opened MpscqTheorems

  // ------------------------------------------------------------------ mpscq_alloc

  /** mpscq_enqueue of `data` by producer `p`, and `k` accesses of it. */
  function Calls(p: nat, data: seq<Elem>, k: nat): seq<Step> {
    [Enqueue(p, data)] + Times(Produce(p), k)
  }

  lemma ExecCalls(q: Queue, p: nat, data: seq<Elem>, k: nat)
    requires q.size > 0 && |q.slots| == q.size && p < |q.producers| && q.producers[p].Idle? && 1 <= |data| <= q.size
    ensures Exec(q, Calls(p, data, k)) == Exec(Goto(q, p, ReadHead(data)), Times(Produce(p), k))
  {
    hide Exec, Times;
    ExecOne(q, Enqueue(p, data));
    ExecAppend(q, [Enqueue(p, data)], Times(Produce(p), k));
  }

  /** The first of `k` accesses, made from `pc`. */
  lemma Turn(q: Queue, p: nat, pc: Producer, k: nat)
    requires q.size > 0 && |q.slots| == q.size && p < |q.producers| && k > 0
    ensures Exec(Goto(q, p, pc), Times(Produce(p), k)) ==
            Exec(NextProducer(Goto(q, p, pc), p), Times(Produce(p), k - 1))
  {
    hide Exec, Times;
    ExecTimes(Goto(q, p, pc), Produce(p), k);
  }

  lemma NoTurn(q: Queue, p: nat)
    requires q.size > 0 && |q.slots| == q.size
    ensures Exec(q, Times(Produce(p), 0)) == q
  {
    ExecTimes(q, Produce(p), 0);
  }

  lemma GotoTwice(q: Queue, p: nat, a: Producer, b: Producer)
    requires p < |q.producers|
    ensures Goto(Goto(q, p, a), p, b) == Goto(q, p, b)
    ensures q.producers[p] == b ==> Goto(q, p, b) == q
  {
    assert q.producers[p := a][p := b] == q.producers[p := b];
    assert q.producers[p] == b ==> q.producers[p := b] == q.producers;
  }

  /** The two reads, and what they decide. */
  lemma Reads(q: Queue, p: nat, data: seq<Elem>, k: nat)
    requires q.size > 0 && |q.slots| == q.size && p < |q.producers| && q.head <= q.reserve && k >= 2
    ensures var used, room := q.reserve - q.head, q.reserve % q.size;
            Exec(Goto(q, p, ReadHead(data)), Times(Produce(p), k)) ==
            Exec(Goto(q, p, if used + |data| > q.size then Idle
                            else if room + |data| > q.size then (if used == 0 then CheckCommit(data, q.reserve) else Idle)
                            else Take(data, q.reserve)),
                 Times(Produce(p), k - 2))
  {
    hide Exec, Times;
    Turn(q, p, ReadHead(data), k);
    GotoTwice(q, p, ReadHead(data), ReadReserve(data, q.head));
    Turn(q, p, ReadReserve(data, q.head), k - 1);
    var pc := if q.reserve - q.head + |data| > q.size then Idle
              else if q.reserve % q.size + |data| > q.size then
                (if q.reserve == q.head then CheckCommit(data, q.reserve) else Idle)
              else Take(data, q.reserve);
    GotoTwice(q, p, ReadReserve(data, q.head), pc);
  }

  function Granted(q: Queue, p: nat, data: seq<Elem>): Queue
    requires p < |q.producers|
  {
    Goto(q, p, Write(data, q.reserve, 0)).(reserve := q.reserve + |data|, cells := q.cells + Items(p, data))
  }

  lemma Takes(q: Queue, p: nat, data: seq<Elem>, k: nat)
    requires q.size > 0 && |q.slots| == q.size && p < |q.producers| && q.head <= q.reserve && k >= 3
    requires q.reserve - q.head + |data| <= q.size && q.reserve % q.size + |data| <= q.size
    ensures Exec(Goto(q, p, ReadHead(data)), Times(Produce(p), k)) == Exec(Granted(q, p, data), Times(Produce(p), k - 3))
  {
    hide Exec, Times;
    Reads(q, p, data, k);
    Turn(q, p, Take(data, q.reserve), k - 2);
    GotoTwice(q, p, Take(data, q.reserve), Write(data, q.reserve, 0));
  }

  lemma {:induction false} IdleStays(q: Queue, p: nat, k: nat)
    requires q.size > 0 && |q.slots| == q.size && p < |q.producers| && q.producers[p].Idle?
    ensures Exec(q, Times(Produce(p), k)) == q
    decreases k
  {
    hide Exec, Times;
    ExecTimes(q, Produce(p), k);
    if k > 0 {
      IdleStays(q, p, k - 1);
    }
  }

  lemma Begun(q: Queue, p: nat, data: seq<Elem>)
    requires Reached(q) && p < |q.producers| && q.producers[p] == ReadHead(data)
    ensures |q.slots| == q.size > 0 && 1 <= |data| <= q.size && q.head <= q.commit <= q.reserve
  {
    hide Reached;
    ReachedOk(q);
    hide RingOk;
    assert LocalOk(q, q.producers[p]);
  }

  lemma Enters(q: Queue, p: nat, data: seq<Elem>)
    requires q.size > 0 && |q.slots| == q.size && p < |q.producers| && q.commit == q.reserve && q.reserve % q.size != 0
    ensures Exec(Goto(q, p, CheckCommit(data, q.reserve)), Times(Produce(p), 1)) == Goto(q, p, NormCommit(data, q.reserve))
  {
    hide Exec, Times;
    Turn(q, p, CheckCommit(data, q.reserve), 1);
    GotoTwice(q, p, CheckCommit(data, q.reserve), NormCommit(data, q.reserve));
    NoTurn(Goto(q, p, NormCommit(data, q.reserve)), p);
  }

  /**
   The outcome of an allocation that begins, or begins again: the room is granted exactly if that many
   slots are free and lie in one lap. Otherwise the call enters the normaliser exactly if nothing is
   queued or reserved, and gives up if something is.
   */
  lemma AllocFrom(q: Queue, p: nat, data: seq<Elem>)
    requires Reached(q) && p < |q.producers| && q.producers[p] == ReadHead(data)
    ensures |q.slots| == q.size > 0 && 1 <= |data| <= q.size
    ensures var n := |data|;
            var q' := Exec(q, Times(Produce(p), 3));
            if q.reserve - q.head + n <= q.size && q.reserve % q.size + n <= q.size then
              q' == q.(producers := q.producers[p := Write(data, q.reserve, 0)], reserve := q.reserve + n,
                       cells := q.cells + Items(p, data))
            else if q.head == q.reserve then
              && q' == q.(producers := q.producers[p := NormCommit(data, q.reserve)])
              && q.commit == q.head && q.reserve % q.size != 0
            else q' == q.(producers := q.producers[p := Idle])
  {
    hide Exec, Times, Reached, NextProducer;
    Begun(q, p, data);
    GotoTwice(q, p, ReadHead(data), ReadHead(data));
    var used, room := q.reserve - q.head, q.reserve % q.size;
    if used + |data| <= q.size && room + |data| <= q.size {
      Takes(q, p, data, 3);
      NoTurn(Granted(q, p, data), p);
    } else {
      Reads(q, p, data, 3);
      if used == 0 {
        Enters(q, p, data);
      } else {
        IdleStays(Goto(q, p, Idle), p, 1);
      }
    }
  }

  /** The same for a whole call: one that gives up leaves no trace. */
  lemma AllocAlone(q: Queue, p: nat, data: seq<Elem>)
    requires Reached(q) && p < |q.producers| && q.producers[p].Idle? && 1 <= |data| <= q.size
    ensures |q.slots| == q.size
    ensures var n := |data|;
            var q' := Exec(q, Calls(p, data, 3));
            if q.reserve - q.head + n <= q.size && q.reserve % q.size + n <= q.size then
              q' == q.(producers := q.producers[p := Write(data, q.reserve, 0)], reserve := q.reserve + n,
                       cells := q.cells + Items(p, data))
            else if q.head == q.reserve then
              && q' == q.(producers := q.producers[p := NormCommit(data, q.reserve)])
              && q.commit == q.head && q.reserve % q.size != 0
            else q' == q
  {
    hide Exec, Times, Reached, QueueOk;
    ReachedOk(q);
    ReachedStep(q, Enqueue(p, data));
    ExecCalls(q, p, data, 3);
    AllocFrom(Goto(q, p, ReadHead(data)), p, data);
    GotoTwice(q, p, ReadHead(data), Idle);
    GotoTwice(q, p, Idle, Idle);
  }

  /**
   With others moving: a call that has decided on its room takes it if reserve_tail has not moved since
   it was read, and otherwise begins again. It never gives up at that point.
   */
  lemma TakeOrAgain(q: Queue, p: nat)
    requires Reached(q) && p < |q.producers| && q.producers[p].Take?
    ensures |q.slots| == q.size > 0
    ensures var Take(data, at) := q.producers[p];
            var q' := Next(q, Produce(p));
            if q.reserve == at then
              q'.producers[p] == Write(data, at, 0) && q'.reserve == at + |data| && q'.cells == q.cells + Items(p, data)
            else q' == q.(producers := q.producers[p := ReadHead(data)])
  {
    hide Reached, QueueOk;
    ReachedOk(q);
  }

  /** On a drained queue an allocation of any size up to the whole ring succeeds. */
  lemma DrainedAlloc(q: Queue, p: nat, data: seq<Elem>)
    requires Reached(q) && OutsidePop(q.consumer) && q.head == q.commit == q.reserve
    requires p < |q.producers| && q.producers[p].Idle? && 1 <= |data| <= q.size
    ensures |q.slots| == q.size
    ensures var q' := Exec(q, Calls(p, data, 3));
            q'.producers[p] == Write(data, q.reserve, 0) && q'.reserve == q.reserve + |data|
  {
    hide Reached, Exec, Calls;
    DrainedAtLap(q);
    AllocAlone(q, p, data);
  }

  // ------------------------------------------------------------------ the jump

  /** All three counters moved on to `lap`, which skips the positions up to there. */
  function Jumped(q: Queue, o: nat, lap: nat): Queue
    requires q.reserve <= lap
  {
    q.(head := lap, commit := lap, reserve := lap, cells := q.cells + Padding(o, lap - q.reserve))
  }

  /** The normaliser's reads. */
  lemma Checks(q: Queue, p: nat, data: seq<Elem>, k: nat)
    requires q.size > 0 && |q.slots| == q.size && p < |q.producers| && k >= 3
    requires q.commit == q.reserve && q.reserve % q.size != 0
    ensures Exec(Goto(q, p, CheckCommit(data, q.reserve)), Times(Produce(p), k)) ==
            Exec(Goto(q, p, NormTake(data, q.reserve)), Times(Produce(p), k - 3))
  {
    hide Exec, Times;
    var at := q.reserve;
    Turn(q, p, CheckCommit(data, at), k);
    GotoTwice(q, p, CheckCommit(data, at), NormCommit(data, at));
    Turn(q, p, NormCommit(data, at), k - 1);
    GotoTwice(q, p, NormCommit(data, at), NormReserve(data, at));
    Turn(q, p, NormReserve(data, at), k - 2);
    GotoTwice(q, p, NormReserve(data, at), NormTake(data, at));
  }

  /** And its three updates. */
  lemma Moves(q: Queue, p: nat, data: seq<Elem>, k: nat)
    requires q.size > 0 && |q.slots| == q.size && p < |q.producers| && k >= 3 && q.head == q.commit == q.reserve
    ensures var lap := NextLap(q.size, q.reserve);
            Exec(Goto(q, p, NormTake(data, q.reserve)), Times(Produce(p), k)) ==
            Exec(Goto(Jumped(q, p, lap), p, ReadHead(data)), Times(Produce(p), k - 3))
  {
    hide Exec, Times, NextLap, NextProducer, Goto;
    var at, lap := q.reserve, NextLap(q.size, q.reserve);
    var q1 := q.(reserve := lap, cells := q.cells + Padding(p, lap - at));
    MoveTurns(q, p, data);
    Turn(q, p, NormTake(data, at), k);
    Turn(q1, p, NormPublish(data, at, lap), k - 1);
    Turn(q1.(commit := lap), p, NormHead(data, at, lap), k - 2);
  }

  lemma MoveTurns(q: Queue, p: nat, data: seq<Elem>)
    requires q.size > 0 && |q.slots| == q.size && p < |q.producers| && q.head == q.commit == q.reserve
    ensures var at, lap := q.reserve, NextLap(q.size, q.reserve);
            var q1 := q.(reserve := lap, cells := q.cells + Padding(p, lap - at));
            var q2 := q1.(commit := lap);
            && NextProducer(Goto(q, p, NormTake(data, at)), p) == Goto(q1, p, NormPublish(data, at, lap))
            && NextProducer(Goto(q1, p, NormPublish(data, at, lap)), p) == Goto(q2, p, NormHead(data, at, lap))
            && NextProducer(Goto(q2, p, NormHead(data, at, lap)), p) == Goto(q2.(head := lap), p, ReadHead(data))
  {
    hide NextLap;
    var at, lap := q.reserve, NextLap(q.size, q.reserve);
    var q1 := q.(reserve := lap, cells := q.cells + Padding(p, lap - at));
    GotoTwice(q1, p, NormTake(data, at), NormPublish(data, at, lap));
    GotoTwice(q1.(commit := lap), p, NormPublish(data, at, lap), NormHead(data, at, lap));
    GotoTwice(q1.(commit := lap, head := lap), p, NormHead(data, at, lap), ReadHead(data));
  }

  /**
   A call that finds nothing queued but too little of the lap left moves all counters to the next
   multiple of the ring size and gets its room there.
   */
  lemma JumpAlone(q: Queue, p: nat, data: seq<Elem>)
    requires Reached(q) && p < |q.producers| && q.producers[p].Idle? && 1 <= |data| <= q.size
    requires q.head == q.reserve && q.reserve % q.size + |data| > q.size
    ensures |q.slots| == q.size
    ensures var lap := NextLap(q.size, q.reserve);
            && lap % q.size == 0 && q.reserve < lap < q.reserve + q.size
            && Exec(q, Calls(p, data, 11)) ==
               q.(producers := q.producers[p := Write(data, lap, 0)], head := lap, commit := lap, reserve := lap + |data|,
                  cells := q.cells + Padding(p, lap - q.reserve) + Items(p, data))
  {
    hide Exec, Times, Reached, QueueOk;
    ReachedOk(q);
    var lap := NextLap(q.size, q.reserve);
    LapStart(q.size, q.reserve);
    ExecCalls(q, p, data, 11);
    Reads(q, p, data, 11);
    Checks(q, p, data, 9);
    Moves(q, p, data, 6);
    var j := Jumped(q, p, lap);
    hide NextLap;
    Takes(j, p, data, 3);
    NoTurn(Granted(j, p, data), p);
  }

  // ------------------------------------------------------------------ the rest of mpscq_enqueue

  /** The slots with `data` copied to `at`. */
  function Filled(slots: seq<Elem>, at: nat, data: seq<Elem>): (r: seq<Elem>)
    requires at + |data| <= |slots|
    ensures |r| == |slots|
  {
    slots[..at] + data + slots[at + |data|..]
  }

  lemma {:induction false} Copies(q: Queue, p: nat, data: seq<Elem>, tok: nat, k: nat, m: nat)
    requires q.size > 0 && |q.slots| == q.size && p < |q.producers| && k < |data| && tok % q.size + |data| <= q.size
    ensures Exec(Goto(q, p, Write(data, tok, k)), Times(Produce(p), |data| - k + m)) ==
            Exec(Goto(q, p, PushCheck(data, tok)).(slots := Filled(q.slots, tok % q.size + k, data[k..])),
                 Times(Produce(p), m))
    decreases |data| - k
  {
    hide Exec, Times;
    var a := tok % q.size;
    Turn(q, p, Write(data, tok, k), |data| - k + m);
    var q1 := q.(slots := q.slots[a + k := data[k]]);
    var pc := if k + 1 == |data| then PushCheck(data, tok) else Write(data, tok, k + 1);
    GotoTwice(q1, p, Write(data, tok, k), pc);
    FilledOne(q.slots, a + k, data[k..]);
    if k + 1 < |data| {
      assert data[k..][1..] == data[k + 1..];
      Copies(q1, p, data, tok, k + 1, m);
    }
  }

  lemma FilledOne(slots: seq<Elem>, at: nat, data: seq<Elem>)
    requires data != [] && at + |data| <= |slots|
    ensures Filled(slots[at := data[0]], at + 1, data[1..]) == Filled(slots, at, data)
    ensures |data| == 1 ==> slots[at := data[0]] == Filled(slots, at, data)
  {
  }

  /** The accesses of mpscq_push, once its turn has come. */
  lemma PushTurns(q: Queue, p: nat, data: seq<Elem>, tok: nat)
    requires q.size > 0 && |q.slots| == q.size && p < |q.producers| && q.commit == tok && tok + |data| <= q.reserve
    ensures NextProducer(Goto(q, p, PushCheck(data, tok)), p) == Goto(q, p, PushWait(data, tok))
    ensures NextProducer(Goto(q, p, PushWait(data, tok)), p) == Goto(q, p, PushWrite(data, tok))
    ensures NextProducer(Goto(q, p, PushWrite(data, tok)), p) == Goto(q, p, Idle).(commit := tok + |data|)
  {
    GotoTwice(q, p, PushCheck(data, tok), PushWait(data, tok));
    GotoTwice(q, p, PushWait(data, tok), PushWrite(data, tok));
    GotoTwice(q, p, PushWrite(data, tok), Idle);
  }

  lemma Pushes(q: Queue, p: nat, data: seq<Elem>, tok: nat)
    requires q.size > 0 && |q.slots| == q.size && p < |q.producers| && q.commit == tok && tok + |data| <= q.reserve
    ensures Exec(Goto(q, p, PushCheck(data, tok)), Times(Produce(p), 3)) == Goto(q, p, Idle).(commit := tok + |data|)
  {
    hide Exec, Times, NextProducer;
    PushTurns(q, p, data, tok);
    Turn(q, p, PushCheck(data, tok), 3);
    Turn(q, p, PushWait(data, tok), 2);
    Turn(q, p, PushWrite(data, tok), 1);
    NoTurn(Goto(q, p, Idle).(commit := tok + |data|), p);
  }

  lemma {:induction false} Waits(q: Queue, p: nat, data: seq<Elem>, tok: nat, k: nat)
    requires q.size > 0 && |q.slots| == q.size && p < |q.producers| && q.commit < tok
    ensures Exec(Goto(q, p, PushWait(data, tok)), Times(Produce(p), k)) == Goto(q, p, PushWait(data, tok))
    decreases k
  {
    hide Exec, Times;
    if k == 0 {
      NoTurn(Goto(q, p, PushWait(data, tok)), p);
    } else {
      Turn(q, p, PushWait(data, tok), k);
      Waits(q, p, data, tok, k - 1);
    }
  }

  /**
   A whole call for which there is room. It copies its elements to the slots it was granted. If
   nothing before it is uncommitted it commits them, and otherwise it waits, however long.
   */
  lemma EnqueueAlone(q: Queue, p: nat, data: seq<Elem>, k: nat)
    requires Reached(q) && p < |q.producers| && q.producers[p].Idle? && 1 <= |data| <= q.size
    requires q.reserve - q.head + |data| <= q.size && q.reserve % q.size + |data| <= q.size
    ensures |q.slots| == q.size
    ensures var n, at := |data|, q.reserve % q.size;
            var q1 := q.(slots := q.slots[..at] + data + q.slots[at + n..], reserve := q.reserve + n,
                         cells := q.cells + Items(p, data));
            if q.commit == q.reserve then Exec(q, Calls(p, data, n + 6)) == q1.(commit := q.reserve + n)
            else Exec(q, Calls(p, data, n + 4 + k)) == q1.(producers := q.producers[p := PushWait(data, q.reserve)])
  {
    hide Exec, Times, Reached, QueueOk;
    ReachedOk(q);
    var n, tok, at := |data|, q.reserve, q.reserve % q.size;
    var q1 := q.(reserve := tok + n, cells := q.cells + Items(p, data));
    var q2 := q1.(slots := Filled(q.slots, at, data));
    var more := if q.commit == tok then 3 else 1 + k;
    ExecCalls(q, p, data, n + 3 + more);
    Takes(q, p, data, n + 3 + more);
    assert data[0..] == data;
    Copies(q1, p, data, tok, 0, more);
    assert Goto(q1, p, PushCheck(data, tok)).(slots := Filled(q.slots, at, data)) == Goto(q2, p, PushCheck(data, tok));
    if q.commit == tok {
      Pushes(q2, p, data, tok);
      GotoTwice(q2, p, Idle, Idle);
    } else {
      Turn(q2, p, PushCheck(data, tok), more);
      GotoTwice(q2, p, PushCheck(data, tok), PushWait(data, tok));
      Waits(q2, p, data, tok, k);
    }
  }

  // ------------------------------------------------------------------ mpscq_dequeue

  lemma {:induction false} RestingStays(q: Queue, k: nat)
    requires q.size > 0 && |q.slots| == q.size && q.consumer.Resting?
    ensures Exec(q, Times(Consume, k)) == q
    decreases k
  {
    hide Exec, Times;
    ExecTimes(q, Consume, k);
    if k > 0 {
      RestingStays(q, k - 1);
    }
  }

  lemma ConsumeTurn(q: Queue, c: Consumer, k: nat)
    requires q.size > 0 && |q.slots| == q.size && k > 0
    ensures Exec(q.(consumer := c), Times(Consume, k)) == Exec(NextConsumer(q.(consumer := c)), Times(Consume, k - 1))
  {
    hide Exec, Times;
    ExecTimes(q.(consumer := c), Consume, k);
  }

  /** mpscq_dequeue of `n` elements, and `k` accesses of it. */
  function Asks(n: nat, k: nat): seq<Step> {
    [Dequeue(n)] + Times(Consume, k)
  }

  lemma ExecAsks(q: Queue, n: nat, k: nat)
    requires q.size > 0 && |q.slots| == q.size && q.consumer.Resting? && n > 0 && k >= 1
    ensures Exec(q, Asks(n, k)) == Exec(q.(consumer := PeekTail(n, q.head)), Times(Consume, k - 1))
  {
    hide Exec, Times;
    ExecOne(q, Dequeue(n));
    ExecAppend(q, [Dequeue(n)], Times(Consume, k));
    ConsumeTurn(q, PeekHead(n), k);
  }

  lemma SplitTimes(q: Queue, s: Step, a: nat, b: nat)
    requires q.size > 0 && |q.slots| == q.size
    ensures Exec(q, Times(s, a + b)) == Exec(Exec(q, Times(s, a)), Times(s, b))
  {
    hide Exec;
    assert Times(s, a + b) == Times(s, a) + Times(s, b);
    ExecAppend(q, Times(s, a), Times(s, b));
  }

  /** The peek is granted, the slots are copied and head is moved. */
  lemma TakesOut(q: Queue, n: nat, k: nat)
    requires q.size > 0 && |q.slots| == q.size && n > 0 && q.head + n <= q.commit && q.head % q.size + n <= q.size
    ensures var m := q.head % q.size;
            Exec(q.(consumer := PeekTail(n, q.head)), Times(Consume, n + 2 + k)) ==
            Exec(q.(head := q.head + n, taken := q.taken + q.slots[m..m + n], consumer := PopTail(q.head + n)),
                 Times(Consume, k))
  {
    hide Exec, Times;
    var m := q.head % q.size;
    ConsumeTurn(q, PeekTail(n, q.head), n + 2 + k);
    var q1 := q.(consumer := Copy(n, q.head, []));
    SplitTimes(q1, Consume, n, 1 + k);
    CopyAll(q1);
    assert [] + q.slots[m..m + n] == q.slots[m..m + n];
    ConsumeTurn(q, PopAdd(n, q.slots[m..m + n]), 1 + k);
  }

  /** The normaliser, called from mpscq_pop on a queue that is drained off a lap start. */
  lemma Normalises(q: Queue)
    requires q.size > 0 && |q.slots| == q.size && q.head == q.commit == q.reserve
    ensures Exec(q.(consumer := EmptyCommit(q.head)), Times(Consume, 5)) ==
            Jumped(q, |q.producers|, NextLap(q.size, q.head)).(consumer := Resting)
  {
    hide Exec, Times, NextLap;
    var at, lap := q.head, NextLap(q.size, q.head);
    ConsumeTurn(q, EmptyCommit(at), 5);
    ConsumeTurn(q, EmptyReserve(at), 4);
    ConsumeTurn(q, EmptyTake(at), 3);
    var q1 := q.(reserve := lap, cells := q.cells + Padding(|q.producers|, lap - at));
    ConsumeTurn(q1, EmptyPublish(at, lap), 2);
    ConsumeTurn(q1.(commit := lap), EmptyHead(at, lap), 1);
    RestingStays(q1.(commit := lap, head := lap, consumer := Resting), 0);
  }

  /** Called while something is reserved, it does nothing. */
  lemma Declines(q: Queue)
    requires q.size > 0 && |q.slots| == q.size && q.head == q.commit < q.reserve
    ensures Exec(q.(consumer := EmptyCommit(q.head)), Times(Consume, 5)) == q.(consumer := Resting)
  {
    hide Exec, Times;
    ConsumeTurn(q, EmptyCommit(q.head), 5);
    ConsumeTurn(q, EmptyReserve(q.head), 4);
    RestingStays(q.(consumer := Resting), 3);
  }

  /** The end of mpscq_pop: a queue that is drained off a lap start moves to the next one. */
  lemma Finishes(q: Queue)
    requires q.size > 0 && |q.slots| == q.size && q.head <= q.commit <= q.reserve && q.consumer == PopTail(q.head)
    ensures Exec(q, Times(Consume, 6)) ==
            if q.head == q.reserve && q.head % q.size != 0
            then Jumped(q, |q.producers|, NextLap(q.size, q.head)).(consumer := Resting)
            else q.(consumer := Resting)
  {
    hide Exec, Times, NextLap;
    ConsumeTurn(q, PopTail(q.head), 6);
    if q.commit != q.head || q.head % q.size == 0 {
      RestingStays(q.(consumer := Resting), 5);
    } else if q.reserve != q.head {
      Declines(q);
    } else {
      Normalises(q);
    }
  }

  /** The slots from head on hold the elements of the next positions. */
  lemma SlotsHold(q: Queue, n: nat)
    requires Reached(q) && q.consumer.Resting? && Quiet(q) && n > 0
    requires q.head + n <= q.commit && q.size > 0 && q.head % q.size + n <= q.size
    ensures |q.slots| == q.size && q.commit <= |q.cells|
    ensures var m := q.head % q.size; q.slots[m..m + n] == Contents(q.cells[q.head..q.head + n])
  {
    hide Contents, Reached;
    ReachedOk(q);
    var m := q.head % q.size;
    var out, cells := q.slots[m..m + n], q.cells[q.head..q.head + n];
    NoPadding(q, n);
    forall i | 0 <= i < n ensures cells[i].item == Some(out[i]) {
      ModStep(q.size, q.head, i);
      assert Visible(RingOf(q));
      assert q.cells[q.head + i].item.Some?;
    }
    ContentsItems(cells, out);
  }

  lemma NoPadding(q: Queue, n: nat)
    requires QueueOk(q) && q.consumer.Resting? && Quiet(q) && q.head + n <= q.commit
    ensures AllItems(q, n)
  {
    var c := PeekTail(1, q.head);
    ConsumerMove(q, PeekHead(1));
    ConsumerMove(q.(consumer := PeekHead(1)), c);
    QuietItems(q.(consumer := c), n);
  }

  /**
   A whole dequeue. It delivers exactly if that many elements are committed and lie in one lap: then
   the next elements in order, and a drained queue is moved on to the next lap. Otherwise nothing changes.
   */
  lemma DequeueAlone(q: Queue, n: nat)
    requires Reached(q) && q.consumer.Resting? && n > 0
    requires q.size > 0 && (q.head + n <= q.commit && q.head % q.size + n <= q.size ==> Quiet(q))
    ensures |q.slots| == q.size && q.commit <= q.reserve == |q.cells|
    ensures var q' := Exec(q, Asks(n, n + 9));
            if q.head + n <= q.commit && q.head % q.size + n <= q.size then
              var end := q.head + n;
              var q1 := q.(head := end, taken := q.taken + Contents(q.cells[q.head..end]));
              if end == q.reserve && end % q.size != 0 then
                var lap := NextLap(q.size, end);
                && lap % q.size == 0 && end < lap < end + q.size
                && q' == q1.(head := lap, commit := lap, reserve := lap, cells := q.cells + Padding(|q.producers|, lap - end))
              else q' == q1
            else q' == q
  {
    hide Exec, Times, Reached, QueueOk, Contents;
    ReachedOk(q);
    ExecAsks(q, n, n + 9);
    if q.head + n <= q.commit && q.head % q.size + n <= q.size {
      SlotsHold(q, n);
      TakesOut(q, n, 6);
      var end := q.head + n;
      var q1 := q.(head := end, taken := q.taken + Contents(q.cells[q.head..end]), consumer := PopTail(end));
      Finishes(q1);
      LapStart(q.size, end);
    } else {
      ConsumeTurn(q, PeekTail(n, q.head), n + 8);
      RestingStays(q, n + 7);
    }
  }

  // ------------------------------------------------------------------ there and back

  lemma {:induction false} ReachedTimes(q: Queue, s: Step, k: nat)
    requires Reached(q) && !s.Consume? && q.size > 0 && |q.slots| == q.size
    ensures Reached(Exec(q, Times(s, k)))
    decreases k
  {
    hide Reached, Exec, Times, Next;
    ExecTimes(q, s, k);
    if k > 0 {
      ReachedStep(q, s);
      ReachedTimes(Next(q, s), s, k - 1);
    }
  }

  lemma ReachedCalls(q: Queue, p: nat, data: seq<Elem>, k: nat)
    requires Reached(q) && q.size > 0 && |q.slots| == q.size
    ensures Reached(Exec(q, Calls(p, data, k)))
  {
    hide Reached, Exec, Times, Next;
    ReachedStep(q, Enqueue(p, data));
    ReachedTimes(Next(q, Enqueue(p, data)), Produce(p), k);
    ExecOne(q, Enqueue(p, data));
    ExecAppend(q, [Enqueue(p, data)], Times(Produce(p), k));
  }

  /** What a call put into a drained queue is what the next one takes out, and the queue is drained again. */
  lemma ThereAndBack(q: Queue, p: nat, data: seq<Elem>)
    requires Reached(q) && q.consumer.Resting? && Quiet(q) && q.head == q.commit == q.reserve
    requires p < |q.producers| && q.producers[p].Idle? && 1 <= |data| <= q.size
    ensures |q.slots| == q.size
    ensures var n := |data|;
            var q' := Exec(Exec(q, Calls(p, data, n + 6)), Asks(n, n + 9));
            && q'.taken == q.taken + data && q'.producers == q.producers && q'.consumer.Resting?
            && q'.head == q'.commit == q'.reserve && q'.head % q.size == 0 && q.head < q'.head
  {
    hide Exec, Calls, Asks, Reached, Contents;
    var n := |data|;
    DrainedAtLap(q);
    EnqueueAlone(q, p, data, 0);
    var q1 := Exec(q, Calls(p, data, n + 6));
    ReachedCalls(q, p, data, n + 6);
    DequeueAlone(q1, n);
    AppendedCells(q, p, data);
  }

  lemma AppendedCells(q: Queue, p: nat, data: seq<Elem>)
    requires q.head == |q.cells|
    ensures Contents((q.cells + Items(p, data))[q.head..q.head + |data|]) == data
  {
    assert (q.cells + Items(p, data))[q.head..q.head + |data|] == Items(p, data);
    ContentsItems(Items(p, data), data);
  }
}
