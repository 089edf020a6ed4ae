/**
 A condition that callers can check by themselves, and that is exact: if every producer always
 enqueues the same number of elements, and that number divides the ring size, no producer ever
 has to jump to the next lap, and delivery is first-in first-out in every schedule. With any
 other choice of sizes that calls may pass, some schedule delivers what nobody enqueued.
 */
module MpscqUniform {
  import opened Arith
  import opened Mpscq
  import opened MpscqRing
  import opened MpscqSafety
  import opened MpscqTheorems

  /** Every call of mpscq_enqueue in the schedule passes a number of elements from `sizes`. */
  ghost predicate AlwaysBy(steps: seq<Step>, sizes: iset<nat>) {
    forall i :: 0 <= i < |steps| && steps[i].Enqueue? ==> |steps[i].data| in sizes
  }

  /** A call with this number of elements is not refused outright. */
  predicate Valid(size: nat, d: nat) {
    1 <= d <= size
  }

  /** `d` is the only valid number of elements among `sizes`, if there is one. */
  ghost predicate OnlyBy(sizes: iset<nat>, size: nat, d: nat) {
    forall a :: a in sizes && Valid(size, a) ==> a == d
  }

  /** A producer of `d` elements at a time has seen only multiples of `d`, and is on no way to a jump. */
  predicate InStep(pc: Producer, d: nat)
    requires d > 0
  {
    match pc
    case ReadHead(data) => |data| == d
    case ReadReserve(data, _) => |data| == d
    case Take(data, at) => |data| == d && at % d == 0
    case CheckCommit(_, _) => false
    case NormCommit(_, _) => false
    case NormReserve(_, _) => false
    case NormTake(_, _) => false
    case NormPublish(_, _, _) => false
    case NormHead(_, _, _) => false
    case _ => true
  }

  predicate Uniform(q: Queue, d: nat) {
    && d > 0 && q.size > 0 && |q.slots| == q.size && q.size % d == 0 && q.reserve % d == 0
    && forall p :: 0 <= p < |q.producers| ==> InStep(q.producers[p], d)
  }

  lemma SumOfMultiples(a: nat, b: nat, d: nat)
    requires d > 0 && a % d == 0 && b % d == 0
    ensures (a + b) % d == 0
  {
    var i, j := a / d, b / d;
    assert a == i * d && b == j * d;
    assert a + b == (i + j) * d;
    MulMod(i + j, d);
  }

  lemma MultipleOfMultiple(k: nat, size: nat, d: nat)
    requires d > 0 && size % d == 0
    ensures (k * size) % d == 0
  {
    var j := size / d;
    assert size == j * d;
    assert k * size == (k * j) * d;
    MulMod(k * j, d);
  }

  /** A multiple of `d` leaves room for `d` more in its lap. */
  lemma FitsLap(at: nat, size: nat, d: nat)
    requires d > 0 && size > 0 && size % d == 0 && at % d == 0
    ensures at % size + d <= size
  {
    var i, k := at / d, size / d;
    assert at == i * d && size == k * d;
    DivBounds(i, k);
    assert at == (i / k) * size + (i % k) * d by {
      assert (i / k) * k * d == (i / k) * (k * d);
      assert i * d == ((i / k) * k + i % k) * d;
    }
    MulLe(i % k + 1, k, d);
    FloorUnique(at, size, i / k);
  }

  /** The start of a lap is a multiple of `d`. */
  lemma LapInStep(size: nat, at: nat, d: nat)
    requires d > 0 && size > 0 && size % d == 0
    ensures NextLap(size, at) % d == 0
  {
    var k := at / size;
    DivBounds(at, size);
    assert NextLap(size, at) == (k + 1) * size;
    MultipleOfMultiple(k + 1, size, d);
  }

  lemma UniformStep(q: Queue, s: Step, d: nat)
    requires Uniform(q, d) && (s.Enqueue? && Valid(q.size, |s.data|) ==> |s.data| == d)
    ensures Uniform(Next(q, s), d) && Disciplined(q, s)
  {
    if s.Produce? && s.p < |q.producers| {
      var pc := q.producers[s.p];
      assert InStep(pc, d);
      if pc.ReadReserve? {
        FitsLap(q.reserve, q.size, d);
      } else if pc.Take? {
        SumOfMultiples(pc.at, d, d);
      }
    } else if s.Consume? && q.consumer.EmptyTake? {
      LapInStep(q.size, q.consumer.at, d);
    }
  }

  lemma {:induction false} UniformOrderly(q: Queue, steps: seq<Step>, sizes: iset<nat>, d: nat)
    requires Uniform(q, d) && AlwaysBy(steps, sizes) && OnlyBy(sizes, q.size, d)
    ensures Orderly(q, steps)
    decreases |steps|
  {
    hide Uniform, Next;
    UniformShape(q, d);
    if steps != [] {
      UniformStep(q, steps[0], d);
      UniformOrderly(Next(q, steps[0]), steps[1..], sizes, d);
    }
  }

  lemma UniformShape(q: Queue, d: nat)
    requires Uniform(q, d)
    ensures q.size > 0 && |q.slots| == q.size
  {
  }

  /** First-in first-out in every schedule, under a condition on the calls alone. */
  lemma UniformFifo(size: nat, n: nat, slots: seq<Elem>, steps: seq<Step>, sizes: iset<nat>, d: nat)
    requires d > 0 && size > 0 && |slots| == size && size % d == 0
    requires AlwaysBy(steps, sizes) && OnlyBy(sizes, size, d)
    ensures var q := Exec(Init(size, n, slots), steps);
            && Reached(q) && q.taken <= Contents(q.cells)
            && q.head <= |q.cells| && q.taken == Contents(q.cells[..q.head])
  {
    var q0 := Init(size, n, slots);
    assert Uniform(q0, d);
    UniformOrderly(q0, steps, sizes, d);
    hide Orderly, Exec;
    assert Reached(Exec(q0, steps));
    Fifo(Exec(q0, steps));
  }

  // ------------------------------------------------------------------ the condition is exact

  /** States of a ring with one producer that only passes numbers of elements from `sizes`, along disciplined schedules. */
  ghost predicate ReachedBy(q: Queue, sizes: iset<nat>) {
    exists slots: seq<Elem>, steps: seq<Step> ::
      q.size > 0 && |slots| == q.size && AlwaysBy(steps, sizes) && Orderly(Init(q.size, 1, slots), steps)
      && q == Exec(Init(q.size, 1, slots), steps)
  }

  lemma ByInit(size: nat, slots: seq<Elem>, sizes: iset<nat>)
    requires size > 0 && |slots| == size
    ensures ReachedBy(Init(size, 1, slots), sizes)
  {
    var steps: seq<Step> := [];
    assert AlwaysBy(steps, sizes) && Orderly(Init(size, 1, slots), steps);
    assert Exec(Init(size, 1, slots), steps) == Init(size, 1, slots);
  }

  lemma ByStep(q: Queue, s: Step, sizes: iset<nat>)
    requires ReachedBy(q, sizes) && q.size > 0 && Disciplined(q, s) && (s.Enqueue? ==> |s.data| in sizes)
    ensures |q.slots| == q.size && |q.producers| == 1 && ReachedBy(Next(q, s), sizes)
  {
    hide Next, Disciplined, Orderly, Exec;
    var slots: seq<Elem>, steps: seq<Step> :|
      q.size > 0 && |slots| == q.size && AlwaysBy(steps, sizes) && Orderly(Init(q.size, 1, slots), steps)
      && q == Exec(Init(q.size, 1, slots), steps);
    OrderlySnoc(Init(q.size, 1, slots), steps, s);
    assert AlwaysBy(steps + [s], sizes);
  }

  lemma ByReached(q: Queue, sizes: iset<nat>)
    requires ReachedBy(q, sizes)
    ensures Reached(q) && q.size > 0 && |q.slots| == q.size && |q.producers| == 1
  {
    hide Orderly, Exec;
    var slots: seq<Elem>, steps: seq<Step> :|
      q.size > 0 && |slots| == q.size && AlwaysBy(steps, sizes) && Orderly(Init(q.size, 1, slots), steps)
      && q == Exec(Init(q.size, 1, slots), steps);
  }

  /** The counters, the producer and the consumer of a state. */
  predicate At(q: Queue, size: nat, head: nat, commit: nat, reserve: nat, pc: Producer, c: Consumer) {
    q.size == size && q.head == head && q.commit == commit && q.reserve == reserve && q.producers == [pc] && q.consumer == c
  }

  /** A step of the only producer. */
  lemma ProducerMoves(q: Queue, sizes: iset<nat>, pc: Producer) returns (q': Queue)
    requires ReachedBy(q, sizes) && q.producers == [pc]
    ensures |q.slots| == q.size > 0 && q' == NextProducer(q, 0) && ReachedBy(q', sizes)
  {
    hide ReachedBy;
    ByReached(q, sizes);
    ByStep(q, Produce(0), sizes);
    q' := Next(q, Produce(0));
  }

  lemma Commits(q: Queue, sizes: iset<nat>, d: nat, data: seq<Elem>, tok: nat) returns (q': Queue)
    requires ReachedBy(q, sizes) && q.size > 0 && At(q, q.size, 0, tok, tok + d, PushCheck(data, tok), Resting) && |data| == d
    ensures ReachedBy(q', sizes) && At(q', q.size, 0, tok + d, tok + d, Idle, Resting)
  {
    hide ReachedBy;
    q' := ProducerMoves(q, sizes, PushCheck(data, tok));
    assert q'.producers == [PushWait(data, tok)];
    q' := ProducerMoves(q', sizes, PushWait(data, tok));
    assert q'.producers == [PushWrite(data, tok)];
    q' := ProducerMoves(q', sizes, PushWrite(data, tok));
    assert q'.producers == [Idle];
  }

  /** From the reservation to the commit. */
  lemma {:induction false} Writes(q: Queue, sizes: iset<nat>, d: nat, data: seq<Elem>, tok: nat, k: nat) returns (q': Queue)
    requires ReachedBy(q, sizes) && q.size > 0 && At(q, q.size, 0, tok, tok + d, Write(data, tok, k), Resting)
    requires |data| == d && k < d && tok + d <= q.size
    ensures ReachedBy(q', sizes) && At(q', q.size, 0, tok + d, tok + d, Idle, Resting)
    decreases d - k
  {
    hide ReachedBy;
    q' := WriteOne(q, sizes, d, data, tok, k);
    if k + 1 < d {
      q' := Writes(q', sizes, d, data, tok, k + 1);
    } else {
      q' := Commits(q', sizes, d, data, tok);
    }
  }

  lemma WriteMoves(q: Queue, data: seq<Elem>, tok: nat, k: nat)
    requires |q.slots| == q.size > 0 && q.producers == [Write(data, tok, k)] && k < |data| && tok + |data| <= q.size
    ensures NextProducer(q, 0) ==
            q.(slots := q.slots[tok + k := data[k]],
               producers := [if k + 1 == |data| then PushCheck(data, tok) else Write(data, tok, k + 1)])
  {
    ModSmall(tok, q.size);
  }

  lemma WriteOne(q: Queue, sizes: iset<nat>, d: nat, data: seq<Elem>, tok: nat, k: nat) returns (q': Queue)
    requires ReachedBy(q, sizes) && q.size > 0 && At(q, q.size, 0, tok, tok + d, Write(data, tok, k), Resting)
    requires |data| == d && k < d && tok + d <= q.size
    ensures ReachedBy(q', sizes)
    ensures At(q', q.size, 0, tok, tok + d, if k + 1 == d then PushCheck(data, tok) else Write(data, tok, k + 1), Resting)
  {
    hide ReachedBy, NextProducer;
    q' := ProducerMoves(q, sizes, Write(data, tok, k));
    WriteMoves(q, data, tok, k);
  }

  /** The first accesses of a call: the two reads of mpscq_alloc. */
  lemma Asks(q: Queue, sizes: iset<nat>, d: nat, at: nat, c: Consumer) returns (q': Queue)
    requires ReachedBy(q, sizes) && d in sizes && 0 < d <= q.size && At(q, q.size, q.head, q.commit, at, Idle, c)
    ensures ReachedBy(q', sizes) && |q.slots| == q.size
    ensures var data := seq(d, _ => []); q' == q.(producers := [ReadReserve(data, q.head)])
  {
    hide ReachedBy;
    ByReached(q, sizes);
    var data: seq<Elem> := seq(d, _ => []);
    ByStep(q, Enqueue(0, data), sizes);
    q' := Next(q, Enqueue(0, data));
    assert q'.producers == [ReadHead(data)];
    q' := ProducerMoves(q', sizes, ReadHead(data));
    assert q'.producers == [ReadReserve(data, q.head)];
  }

  /** A whole call that fits. */
  lemma Batch(q: Queue, sizes: iset<nat>, d: nat, tok: nat) returns (q': Queue)
    requires ReachedBy(q, sizes) && d in sizes && 0 < d && tok + d <= q.size && At(q, q.size, 0, tok, tok, Idle, Resting)
    ensures ReachedBy(q', sizes) && At(q', q.size, 0, tok + d, tok + d, Idle, Resting)
  {
    hide ReachedBy;
    var data: seq<Elem> := seq(d, _ => []);
    q' := Asks(q, sizes, d, tok, Resting);
    ModSmall(tok, q.size);
    q' := ProducerMoves(q', sizes, ReadReserve(data, 0));
    assert q'.producers == [Take(data, tok)];
    q' := ProducerMoves(q', sizes, Take(data, tok));
    assert q'.producers == [Write(data, tok, 0)];
    q' := Writes(q', sizes, d, data, tok, 0);
  }

  /** As many calls as fit the lap. */
  lemma {:induction false} Fills(size: nat, sizes: iset<nat>, d: nat, k: nat) returns (q: Queue)
    requires 0 < d && 0 < size && k * d <= size && d in sizes
    ensures ReachedBy(q, sizes) && At(q, size, 0, k * d, k * d, Idle, Resting)
    decreases k
  {
    hide ReachedBy;
    if k == 0 {
      var slots: seq<Elem> := seq(size, _ => []);
      ByInit(size, slots, sizes);
      q := Init(size, 1, slots);
      assert q.producers == [Idle];
    } else {
      assert k * d == (k - 1) * d + d;
      q := Fills(size, sizes, d, k - 1);
      q := Batch(q, sizes, d, (k - 1) * d);
    }
  }

  lemma ConsumerMoves(q: Queue, sizes: iset<nat>, s: Step) returns (q': Queue)
    requires ReachedBy(q, sizes) && q.producers == [Idle] && (s == Consume || s.Dequeue?)
    ensures |q.slots| == q.size > 0 && q' == Next(q, s) && ReachedBy(q', sizes)
  {
    hide ReachedBy;
    ByReached(q, sizes);
    ByStep(q, s, sizes);
    q' := Next(q, s);
  }

  lemma {:induction false} Copies(q: Queue, sizes: iset<nat>, n: nat) returns (q': Queue)
    requires ReachedBy(q, sizes) && q.size > 0 && n <= q.size && q.consumer.Copy? && |q.consumer.out| < n
    requires At(q, q.size, 0, n, n, Idle, Copy(n, 0, q.consumer.out))
    ensures ReachedBy(q', sizes) && At(q', q.size, n, n, n, Idle, PopTail(n))
    decreases n - |q.consumer.out|
  {
    hide ReachedBy;
    q' := ConsumerMoves(q, sizes, Consume);
    assert 0 % q.size == 0;
    if |q.consumer.out| + 1 < n {
      q' := Copies(q', sizes, n);
    } else {
      q' := ConsumerMoves(q', sizes, Consume);
    }
  }

  /** The consumer takes everything at once and has just moved head. */
  lemma Drains(q: Queue, sizes: iset<nat>, n: nat) returns (q': Queue)
    requires ReachedBy(q, sizes) && 0 < n <= q.size && At(q, q.size, 0, n, n, Idle, Resting)
    ensures ReachedBy(q', sizes) && At(q', q.size, n, n, n, Idle, PopTail(n))
  {
    hide ReachedBy;
    q' := ConsumerMoves(q, sizes, Dequeue(n));
    q' := ConsumerMoves(q', sizes, Consume);
    q' := ConsumerMoves(q', sizes, Consume);
    assert 0 % q.size == 0 && q'.consumer == Copy(n, 0, []);
    q' := Copies(q', sizes, n);
  }

  /** Nothing but padding lies ahead of the consumer. */
  ghost predicate PaddingOnly(q: Queue) {
    q.head <= |q.cells| && forall i :: q.head <= i < |q.cells| ==> q.cells[i].item.None?
  }

  lemma CellsReserved(q: Queue, sizes: iset<nat>)
    requires ReachedBy(q, sizes)
    ensures |q.cells| == q.reserve
  {
    hide ReachedBy, Reached, QueueOk;
    ByReached(q, sizes);
    ReachedOk(q);
  }

  /** A call that does not fit the lap comes to the normaliser. */
  lemma Normalises(q: Queue, sizes: iset<nat>, d: nat, n: nat) returns (q': Queue)
    requires ReachedBy(q, sizes) && d in sizes && 0 < d <= q.size && 0 < n < q.size < n + d
    requires At(q, q.size, n, n, n, Idle, PopTail(n))
    ensures ReachedBy(q', sizes) && q' == q.(producers := [NormTake(seq(d, _ => []), n)])
  {
    hide ReachedBy;
    var data: seq<Elem> := seq(d, _ => []);
    q' := Asks(q, sizes, d, n, PopTail(n));
    ModSmall(n, q.size);
    q' := ProducerMoves(q', sizes, ReadReserve(data, n));
    assert q'.producers == [CheckCommit(data, n)];
    q' := ProducerMoves(q', sizes, CheckCommit(data, n));
    assert q'.producers == [NormCommit(data, n)];
    q' := ProducerMoves(q', sizes, NormCommit(data, n));
    assert q'.producers == [NormReserve(data, n)];
    q' := ProducerMoves(q', sizes, NormReserve(data, n));
    assert q'.producers == [NormTake(data, n)];
  }

  /** And jumps, up to its update of reserve_tail. */
  lemma Jumps(q: Queue, sizes: iset<nat>, d: nat, n: nat) returns (q': Queue)
    requires ReachedBy(q, sizes) && d in sizes && 0 < d <= q.size && 0 < n < q.size < n + d
    requires At(q, q.size, n, n, n, Idle, PopTail(n))
    ensures var data := seq(d, _ => []);
            ReachedBy(q', sizes) && At(q', q.size, n, n, q.size, NormPublish(data, n, q.size), PopTail(n))
    ensures PaddingOnly(q')
  {
    hide ReachedBy, NextProducer;
    CellsReserved(q, sizes);
    var data: seq<Elem> := seq(d, _ => []);
    var q1 := Normalises(q, sizes, d, n);
    q' := ProducerMoves(q1, sizes, NormTake(data, n));
    TakesLap(q1, data, n);
  }

  lemma TakesLap(q: Queue, data: seq<Elem>, n: nat)
    requires |q.slots| == q.size && 0 < n < q.size && q.reserve == n && q.producers == [NormTake(data, n)]
    ensures NextProducer(q, 0) ==
            q.(producers := [NormPublish(data, n, q.size)], reserve := q.size, cells := q.cells + Padding(0, q.size - n))
  {
    ModSmall(n, q.size);
    assert NextLap(q.size, n) == q.size;
    assert q.producers[0 := NormPublish(data, n, q.size)] == [NormPublish(data, n, q.size)];
  }

  /** Meanwhile the consumer finishes its pop and asks for one more element. */
  lemma PeeksTooSoon(q: Queue, sizes: iset<nat>, n: nat, data: seq<Elem>) returns (q': Queue)
    requires ReachedBy(q, sizes) && 0 < n < q.size && At(q, q.size, n, n, q.size, NormPublish(data, n, q.size), PopTail(n))
    ensures q' == q.(consumer := PeekHead(1)) && ReachedBy(q', sizes) && !Disciplined(q', Consume)
    ensures PaddingOnly(q) ==> PaddingOnly(q')
  {
    hide ReachedBy;
    ByReached(q, sizes);
    ModSmall(n, q.size);
    ByStep(q, Consume, sizes);
    q' := q.(consumer := EmptyCommit(n));
    ByStep(q', Consume, sizes);
    q' := q.(consumer := EmptyReserve(n));
    ByStep(q', Consume, sizes);
    q' := q.(consumer := Resting);
    ByStep(q', Dequeue(1), sizes);
    q' := q.(consumer := PeekHead(1));
    assert Jumping(q'.producers[0]);
  }

  /** From there, the padding is handed out. */
  lemma Overrun(q: Queue, sizes: iset<nat>) returns (slots: seq<Elem>, steps: seq<Step>)
    requires ReachedBy(q, sizes) && q.size > 0 && !Disciplined(q, Consume) && PaddingOnly(q)
    ensures |slots| == q.size && AlwaysBy(steps, sizes)
    ensures var q' := Exec(Init(q.size, 1, slots), steps); OutOfOrder(q') && !(q'.taken <= Contents(q'.cells))
  {
    hide Orderly, Exec, Next, QueueOk, Disciplined, Contents;
    ByReached(q, sizes);
    ReachedOk(q);
    var rest := DisciplineNeeded(q, Consume);
    NeverEnqueued(q, Exec(Next(q, Consume), rest));
    var first: seq<Step>;
    slots, first :| q.size > 0 && |slots| == q.size && AlwaysBy(first, sizes) && Orderly(Init(q.size, 1, slots), first)
                    && q == Exec(Init(q.size, 1, slots), first);
    steps := first + ([Consume] + rest);
    ExecAppend(Init(q.size, 1, slots), first, [Consume] + rest);
    ExecAppend(q, [Consume], rest);
    ExecOne(q, Consume);
  }

  /** Calls of `a` elements fill `n` slots, and one of `b` elements does not fit the rest of the lap. */
  lemma Overtakes(size: nat, sizes: iset<nat>, a: nat, b: nat, n: nat) returns (slots: seq<Elem>, steps: seq<Step>)
    requires a in sizes && b in sizes && Valid(size, a) && Valid(size, b)
    requires 0 < n < size < n + b && n / a * a == n
    ensures |slots| == size && AlwaysBy(steps, sizes)
    ensures var q := Exec(Init(size, 1, slots), steps); OutOfOrder(q) && !(q.taken <= Contents(q.cells))
  {
    hide ReachedBy, Disciplined, PaddingOnly, Exec, AlwaysBy, OutOfOrder;
    var q := Fills(size, sizes, a, n / a);
    q := Drains(q, sizes, n);
    q := Jumps(q, sizes, b, n);
    q := PeeksTooSoon(q, sizes, n, seq(b, _ => []));
    slots, steps := Overrun(q, sizes);
  }

  /** Where the batches of a lap end, if `d` does not divide the ring size. */
  lemma LastBatch(size: nat, d: nat) returns (n: nat)
    requires 0 < d <= size && size % d != 0
    ensures 0 < n < size < n + d && n / d * d == n
  {
    n := size / d * d;
    DivBounds(size, d);
    MulMod(size / d, d);
    DivUnique(n, d, size / d);
    MulLe(1, size / d, d);
  }

  /** All but the last batch of a lap, if it does. */
  lemma OneBatchLess(size: nat, a: nat, b: nat) returns (n: nat)
    requires 0 < a < b <= size && size % a == 0
    ensures 0 < n < size < n + b && n / a * a == n
  {
    n := size - a;
    var k := size / a;
    DivBounds(size, a);
    assert n == (k - 1) * a;
    MulGe(k - 1, a);
    DivUnique(n, a, k - 1);
  }

  /** If some valid size does not divide the ring, or there are two, an element that was never enqueued is delivered. */
  lemma Unsafe(size: nat, sizes: iset<nat>, a: nat, b: nat) returns (slots: seq<Elem>, steps: seq<Step>)
    requires a in sizes && b in sizes && Valid(size, a) && Valid(size, b) && (size % a != 0 || a < b)
    ensures |slots| == size && AlwaysBy(steps, sizes)
    ensures var q := Exec(Init(size, 1, slots), steps); OutOfOrder(q) && !(q.taken <= Contents(q.cells))
  {
    hide Exec, AlwaysBy, OutOfOrder;
    if size % a != 0 {
      var n := LastBatch(size, a);
      slots, steps := Overtakes(size, sizes, a, a, n);
    } else {
      var n := OneBatchLess(size, a, b);
      slots, steps := Overtakes(size, sizes, a, b, n);
    }
  }

  /** Whatever the schedule and the number of producers, delivery is in order. */
  ghost predicate AlwaysInOrder(size: nat, sizes: iset<nat>)
    requires size > 0
  {
    forall n: nat, slots: seq<Elem>, steps: seq<Step> ::
      |slots| == size && AlwaysBy(steps, sizes) ==> !OutOfOrder(Exec(Init(size, n, slots), steps))
  }

  /** The sizes that calls may pass contain at most one valid one, and it divides the ring size. */
  ghost predicate SafeSizes(size: nat, sizes: iset<nat>) {
    && (forall a :: a in sizes && Valid(size, a) ==> size % a == 0)
    && (forall a, b :: a in sizes && b in sizes && Valid(size, a) && Valid(size, b) ==> a == b)
  }

  /** Exactly such sets of sizes are safe. */
  lemma SizesExactly(size: nat, sizes: iset<nat>)
    requires size > 0
    ensures AlwaysInOrder(size, sizes) <==> SafeSizes(size, sizes)
  {
    hide Exec, OutOfOrder, AlwaysBy;
    if SafeSizes(size, sizes) {
      var d := TheSize(size, sizes);
      forall n: nat, slots: seq<Elem>, steps: seq<Step> | |slots| == size && AlwaysBy(steps, sizes)
        ensures !OutOfOrder(Exec(Init(size, n, slots), steps))
      {
        UniformFifo(size, n, slots, steps, sizes, d);
        InOrder(Exec(Init(size, n, slots), steps));
      }
    } else {
      var a, b := Offending(size, sizes);
      var slots, steps := Unsafe(size, sizes, a, b);
    }
  }

  lemma TheSize(size: nat, sizes: iset<nat>) returns (d: nat)
    requires size > 0 && SafeSizes(size, sizes)
    ensures d > 0 && size % d == 0 && OnlyBy(sizes, size, d)
  {
    if a :| a in sizes && Valid(size, a) {
      d := a;
    } else {
      d := 1;
    }
  }

  lemma Offending(size: nat, sizes: iset<nat>) returns (a: nat, b: nat)
    requires size > 0 && !SafeSizes(size, sizes)
    ensures a in sizes && b in sizes && Valid(size, a) && Valid(size, b) && (size % a != 0 || a < b)
  {
    if x :| x in sizes && Valid(size, x) && size % x != 0 {
      a, b := x, x;
    } else {
      var x, y :| x in sizes && y in sizes && Valid(size, x) && Valid(size, y) && x != y;
      a, b := if x < y then x else y, if x < y then y else x;
    }
  }

  lemma InOrder(q: Queue)
    requires q.head <= |q.cells| && q.taken == Contents(q.cells[..q.head])
    ensures !OutOfOrder(q)
  {
  }
}
