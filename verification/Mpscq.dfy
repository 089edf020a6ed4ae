/**
 The multi-producer, single-consumer ring as a transition system. One step is one
 atomic read, compare-and-swap or write of a shared counter, or the copy of one slot.
 Positions are unbounded; `cells` and `taken` record what was reserved and delivered.
 */
module Mpscq {
  import opened Options

  /** The elem_size bytes of one slot. */
  type Elem = seq<bv8>

  /** One reserved position: who reserved it and, unless it is padding, what goes there. */
  datatype Cell = Cell(owner: nat, item: Option<Elem>)

  /** Where a producer is in mpscq_enqueue; each state names the access that comes next. */
  datatype Producer =
    | Idle
    | ReadHead(data: seq<Elem>)                               // read head
    | ReadReserve(data: seq<Elem>, h: nat)                    // read reserve_tail
    | CheckCommit(data: seq<Elem>, at: nat)                  // read commit_tail before normalising
    | NormCommit(data: seq<Elem>, at: nat)                    // read commit_tail in the normaliser
    | NormReserve(data: seq<Elem>, at: nat)                   // read reserve_tail in the normaliser
    | NormTake(data: seq<Elem>, at: nat)                      // CAS reserve_tail to the next lap
    | NormPublish(data: seq<Elem>, at: nat, lap: nat)         // CAS commit_tail to the next lap
    | NormHead(data: seq<Elem>, at: nat, lap: nat)            // CAS head to the next lap
    | Take(data: seq<Elem>, at: nat)                         // CAS reserve_tail past the data
    | Write(data: seq<Elem>, tok: nat, k: nat)                // copy element k
    | PushCheck(data: seq<Elem>, tok: nat)                    // read reserve_tail in mpscq_push
    | PushWait(data: seq<Elem>, tok: nat)                     // read commit_tail until it is our turn
    | PushWrite(data: seq<Elem>, tok: nat)                    // write commit_tail
    | PushFailed                                              // mpscq_push returned -1

  /** Where the consumer is in mpscq_dequeue. */
  datatype Consumer =
    | Resting
    | PeekHead(n: nat)                                        // read head
    | PeekTail(n: nat, h: nat)                                // read commit_tail
    | Copy(n: nat, h: nat, out: seq<Elem>)                    // copy the next slot out
    | PopAdd(n: nat, out: seq<Elem>)                          // add n to head
    | PopTail(at: nat)                                        // read commit_tail
    | EmptyCommit(at: nat)                                    // the normaliser, called from mpscq_pop
    | EmptyReserve(at: nat)
    | EmptyTake(at: nat)
    | EmptyPublish(at: nat, lap: nat)
    | EmptyHead(at: nat, lap: nat)

  datatype Queue = Queue(
    size: nat,
    head: nat,
    commit: nat,
    reserve: nat,
    slots: seq<Elem>,
    producers: seq<Producer>,
    consumer: Consumer,
    cells: seq<Cell>,
    taken: seq<Elem>)

  datatype Step =
    | Enqueue(p: nat, data: seq<Elem>)     // a producer calls mpscq_enqueue
    | Produce(p: nat)                      // a producer makes its next access
    | Dequeue(n: nat)                      // the consumer calls mpscq_dequeue
    | Consume                              // the consumer makes its next access

  /** The start of the next lap after a position inside a lap. */
  function NextLap(size: nat, at: nat): (lap: nat)
    requires size > 0
    ensures lap > at && lap <= at + size
  {
    at + (size - at % size)
  }

  function Padding(owner: nat, n: nat): seq<Cell> {
    seq(n, _ => Cell(owner, None))
  }

  function Items(owner: nat, data: seq<Elem>): seq<Cell> {
    seq(|data|, i requires 0 <= i < |data| => Cell(owner, Some(data[i])))
  }

  function Init(size: nat, producers: nat, slots: seq<Elem>): Queue {
    Queue(size, 0, 0, 0, slots, seq(producers, _ => Idle), Resting, [], [])
  }

  function Next(q: Queue, s: Step): (q': Queue)
    requires q.size > 0 && |q.slots| == q.size
    ensures q'.size == q.size && |q'.slots| == |q.slots| && |q'.producers| == |q.producers|
    ensures q.cells <= q'.cells && q.taken <= q'.taken
  {
    match s
    case Enqueue(p, data) =>
      if p < |q.producers| && q.producers[p].Idle? && 1 <= |data| <= q.size
      then q.(producers := q.producers[p := ReadHead(data)]) else q
    case Produce(p) => if p < |q.producers| then NextProducer(q, p) else q
    case Dequeue(n) => if q.consumer.Resting? && n > 0 then q.(consumer := PeekHead(n)) else q
    case Consume => NextConsumer(q)
  }

  function Goto(q: Queue, p: nat, pc: Producer): Queue
    requires p < |q.producers|
  {
    q.(producers := q.producers[p := pc])
  }

  function NextProducer(q: Queue, p: nat): Queue
    requires q.size > 0 && |q.slots| == q.size && p < |q.producers|
  {
    match q.producers[p]
    case Idle => q
    case ReadHead(data) => Goto(q, p, ReadReserve(data, q.head))
    case ReadReserve(data, h) =>
      var at, used := q.reserve, q.reserve - h;
      if used + |data| > q.size then Goto(q, p, Idle)
      else if at % q.size + |data| > q.size then
        if used == 0 then Goto(q, p, CheckCommit(data, at)) else Goto(q, p, Idle)
      else Goto(q, p, Take(data, at))
    case CheckCommit(data, at) =>
      if q.commit == at && at % q.size != 0 then Goto(q, p, NormCommit(data, at)) else Goto(q, p, Idle)
    case NormCommit(data, at) => Goto(q, p, if q.commit == at then NormReserve(data, at) else Idle)
    case NormReserve(data, at) => Goto(q, p, if q.reserve == at then NormTake(data, at) else Idle)
    case NormTake(data, at) =>
      if q.reserve == at then
        var lap := NextLap(q.size, at);
        Goto(q, p, NormPublish(data, at, lap)).(reserve := lap, cells := q.cells + Padding(p, lap - at))
      else Goto(q, p, Idle)
    case NormPublish(data, at, lap) =>
      Goto(q, p, NormHead(data, at, lap)).(commit := if q.commit == at then lap else q.commit)
    case NormHead(data, at, lap) =>
      Goto(q, p, ReadHead(data)).(head := if q.head == at then lap else q.head)
    case Take(data, at) =>
      if q.reserve == at then
        Goto(q, p, Write(data, at, 0)).(reserve := at + |data|, cells := q.cells + Items(p, data))
      else Goto(q, p, ReadHead(data))
    case Write(data, tok, k) =>
      var slot := tok % q.size + k;
      if k < |data| && slot < q.size then
        Goto(q, p, if k + 1 == |data| then PushCheck(data, tok) else Write(data, tok, k + 1))
          .(slots := q.slots[slot := data[k]])
      else q
    case PushCheck(data, tok) => Goto(q, p, if tok + |data| > q.reserve then PushFailed else PushWait(data, tok))
    case PushWait(data, tok) =>
      if q.commit == tok then Goto(q, p, PushWrite(data, tok))
      else if q.commit > tok then Goto(q, p, PushFailed)
      else q
    case PushWrite(data, tok) => Goto(q, p, Idle).(commit := tok + |data|)
    case PushFailed => q
  }

  function NextConsumer(q: Queue): Queue
    requires q.size > 0 && |q.slots| == q.size
  {
    match q.consumer
    case Resting => q
    case PeekHead(n) => q.(consumer := PeekTail(n, q.head))
    case PeekTail(n, h) =>
      if q.commit - h < n || h % q.size + n > q.size then q.(consumer := Resting)
      else q.(consumer := Copy(n, h, []))
    case Copy(n, h, out) =>
      var slot := h % q.size + |out|;
      if slot < q.size then
        var out' := out + [q.slots[slot]];
        q.(consumer := if |out'| >= n then PopAdd(n, out') else Copy(n, h, out'))
      else q
    case PopAdd(n, out) =>
      q.(head := q.head + n, taken := q.taken + out, consumer := PopTail(q.head + n))
    case PopTail(at) =>
      q.(consumer := if q.commit == at && at % q.size != 0 then EmptyCommit(at) else Resting)
    case EmptyCommit(at) => q.(consumer := if q.commit == at then EmptyReserve(at) else Resting)
    case EmptyReserve(at) => q.(consumer := if q.reserve == at then EmptyTake(at) else Resting)
    case EmptyTake(at) =>
      if q.reserve == at then
        var lap := NextLap(q.size, at);
        q.(consumer := EmptyPublish(at, lap), reserve := lap,
           cells := q.cells + Padding(|q.producers|, lap - at))
      else q.(consumer := Resting)
    case EmptyPublish(at, lap) =>
      q.(consumer := EmptyHead(at, lap), commit := if q.commit == at then lap else q.commit)
    case EmptyHead(at, lap) =>
      q.(consumer := Resting, head := if q.head == at then lap else q.head)
  }

  /** The state after a schedule, whatever it is. */
  function Exec(q: Queue, steps: seq<Step>): (q': Queue)
    requires q.size > 0 && |q.slots| == q.size
    ensures q'.size == q.size && |q'.slots| == |q.slots| && |q'.producers| == |q.producers|
    ensures q.cells <= q'.cells && q.taken <= q'.taken
    decreases |steps|
  {
    if steps == [] then q else Exec(Next(q, steps[0]), steps[1..])
  }
}
