/** Server, network and receiver together, byte for byte: a session of the server, the
    datagrams in flight, the receiver's socket queue, and either receiver. Every event may
    happen at any moment. */
module World {
  import opened Word64
  import opened Bytes
  import opened Sockets
  import opened Ledger
  import opened Meter
  import opened Timeval
  import Server
  import TrendClient
  import MmsgClient
  import Flow

  /** udp-read-trend or udp-mmsg-trend. */
  datatype Receiver = Single(trend: TrendClient.Trend) | Batched(mmsg: MmsgClient.Mmsg)

  /** `copied` lists the datagrams that the network has duplicated. */
  datatype World = World(server: Server.Session, inflight: seq<seq<Byte>>, lost: seq<seq<Byte>>,
                         copied: seq<seq<Byte>>, queued: seq<seq<Byte>>, receiver: Receiver)

  /** `Read` is a turn of the single receiver, with some interrupted calls before the queue
      is read, and `ReadBatch` a turn of the batched one that gets n datagrams. Both wait
      inside the call while the queue is empty. */
  datatype Event =
    | ServerTurn(tick: Server.Tick)
    | Lose(i: nat)
    | Duplicate(i: nat)
    | Deliver(i: nat)
    | Read(turn: TrendClient.Turn, interrupts: nat)
    | ReadBatch(now: Timeval, n: nat)

  ghost predicate Runnable(w: World) {
    && |w.server.buf| >= SEQ_BYTES
    && match w.receiver
       case Single(c) => c.Valid()
       case Batched(c) => forall i :: 0 <= i < |c.slots| ==> |c.slots[i].base| >= SEQ_BYTES
  }

  predicate Reads(w: World) {
    w.receiver.Single? && w.queued != []
  }

  predicate ReadsBatch(w: World, n: nat) {
    w.receiver.Batched? && 0 < n <= |w.queued| && n <= |w.receiver.mmsg.slots|
  }

  function AfterRead(c: TrendClient.Trend, queued: seq<seq<Byte>>, turn: TrendClient.Turn, k: nat): TrendClient.Trend
    requires c.Valid()
  {
    TrendClient.Turned(c.(pending := Interrupts(k) + AsArrivals(queued)), turn)
  }

  function Step(w: World, e: Event): (r: World)
    requires Runnable(w)
    ensures Runnable(r)
  {
    match e
    case ServerTurn(t) =>
      var s := Server.Ticked(w.server, t);
      w.(server := s, inflight := w.inflight + s.wire[|w.server.wire|..])
    case Lose(i) =>
      if i >= |w.inflight| then w
      else w.(inflight := Flow.Without(w.inflight, i), lost := w.lost + [w.inflight[i]])
    case Duplicate(i) =>
      if i >= |w.inflight| then w
      else w.(inflight := w.inflight + [w.inflight[i]], copied := w.copied + [w.inflight[i]])
    case Deliver(i) =>
      if i >= |w.inflight| then w
      else w.(inflight := Flow.Without(w.inflight, i), queued := w.queued + [w.inflight[i]])
    case Read(t, k) =>
      if !Reads(w) then w else
      var c := AfterRead(w.receiver.trend, w.queued, t, k);
      w.(receiver := Single(c), queued := Datagrams(c.pending))
    case ReadBatch(now, n) =>
      if !ReadsBatch(w, n) then w else
      var c := MmsgClient.Turned(w.receiver.mmsg, MmsgClient.Batch(now, w.queued[..n]));
      w.(receiver := Batched(c), queued := w.queued[n..])
  }

  /** A receiver as it starts, with buffers of n bytes. */
  ghost predicate FreshReceiver(r: Receiver, n: nat) {
    match r
    case Single(c) => c.Valid() && c == TrendClient.Started(c.buf, n, c.pending, c.meter.start)
    case Batched(c) => c == MmsgClient.Started(|c.slots|, n, c.meter.start)
  }

  /** A fresh session and a fresh receiver that agree on the buffer size. */
  ghost predicate Initial(w: World) {
    && w.server.phase == Server.Sending && w.server.seqNum == 0 && w.server.intervalWrites == 0
    && w.server.closed == [] && w.server.written == [] && w.server.wire == []
    && w.inflight == [] && w.lost == [] && w.copied == [] && w.queued == []
    && SEQ_BYTES <= |w.server.buf| <= MAX_DATAGRAM
    && FreshReceiver(w.receiver, |w.server.buf|)
  }

  /** Every accepted request leads to an initial world: the server's buffer gets the size
      the receiver asked for, whatever an earlier client left in the server's global. */
  lemma HandshakeIsInitial(args: Server.Args, size: nat, others: seq<Byte>, heap: nat -> Byte,
                           now: Timeval, receiver: Receiver)
    requires SEQ_BYTES <= size <= MAX_DATAGRAM && FreshReceiver(receiver, size)
    ensures var a := Server.Received(args, Encode(size, 4) + others);
            && Server.Admit(a) == Server.Welcome
            && Initial(World(Server.Opened(Server.Malloc(Server.BufSize(a), heap), now), [], [], [], [], receiver))
  {
    hide Server.Received, Server.BufSize;
    Server.RequestedSize(args, size, others);
  }

  // ---------------------------------------------------------------- the invariant

  ghost predicate Uniform(ds: seq<seq<Byte>>, n: nat) {
    n >= SEQ_BYTES && forall i :: 0 <= i < |ds| ==> |ds[i]| == n
  }

  function TotalsOf(r: Receiver): Totals {
    match r
    case Single(c) => c.meter.totals
    case Batched(c) => c.meter.totals
  }

  ghost predicate SameSizes(t: Totals, n: nat) {
    forall i :: 0 <= i < |t.sizes| ==> t.sizes[i] == n
  }

  /** A running receiver with buffers of n bytes and balanced books. */
  ghost predicate Sound(r: Receiver, n: nat) {
    && SameSizes(TotalsOf(r), n)
    && match r
       case Single(c) => TrendClient.Sound(c) && c.progress == TrendClient.Running && c.bufsize == n
       case Batched(c) => Balanced(c.meter) && c.running && MmsgClient.Sized(c.slots, n)
  }

  /** All datagrams have the agreed size, wherever they are. */
  ghost predicate Shaped(w: World) {
    var n := |w.server.buf|;
    n <= MAX_DATAGRAM && Uniform(w.inflight, n) && Uniform(w.lost, n) && Uniform(w.copied, n) && Uniform(w.queued, n)
  }

  /** The sequence numbers of all the datagrams. */
  function FlowOf(w: World): Flow.Flow
    requires Shaped(w)
  {
    Flow.Flow(w.server.written, SeqNums(w.inflight), SeqNums(w.lost), SeqNums(w.copied), SeqNums(w.queued),
              TotalsOf(w.receiver).log)
  }

  ghost predicate Inv(w: World) {
    && Runnable(w) && Server.Contiguous(w.server) && Sound(w.receiver, |w.server.buf|)
    && Shaped(w) && Flow.Placed(FlowOf(w))
  }

  lemma InitialInv(w: World)
    requires Initial(w)
    ensures Inv(w) && Flow.InOrder(FlowOf(w))
  {
    match w.receiver
    case Single(c) => FreshBalanced(c.meter.start);
    case Batched(c) => FreshBalanced(c.meter.start);
  }

  // ---------------------------------------------------------------- steps on bytes are moves of numbers

  lemma SeqNumsWithout(ds: seq<seq<Byte>>, i: nat, n: nat)
    requires Uniform(ds, n) && i < |ds|
    ensures Uniform(Flow.Without(ds, i), n)
    ensures SeqNums(Flow.Without(ds, i)) == Flow.Without(SeqNums(ds), i)
    ensures SeqNums(ds)[i] == GetSeqNum(ds[i])
  {
    hide GetSeqNum;
  }

  lemma SeqNumsAppend(ds: seq<seq<Byte>>, d: seq<Byte>, n: nat)
    requires Uniform(ds, n) && |d| == n
    ensures Uniform(ds + [d], n) && SeqNums(ds + [d]) == SeqNums(ds) + [GetSeqNum(d)]
  {
    hide GetSeqNum;
  }

  lemma SeqNumsCut(ds: seq<seq<Byte>>, k: nat, n: nat)
    requires Uniform(ds, n) && k <= |ds|
    ensures Uniform(ds[..k], n) && Uniform(ds[k..], n)
    ensures SeqNums(ds[..k]) == SeqNums(ds)[..k] && SeqNums(ds[k..]) == SeqNums(ds)[k..]
  {
    hide GetSeqNum;
  }

  function MoveOf(w: World, e: Event): (m: Flow.Move)
    requires Runnable(w) && Shaped(w)
    ensures Flow.Enabled(FlowOf(w), m)
  {
    match e
    case ServerTurn(t) => if |Server.Ticked(w.server, t).written| > |w.server.written| then Flow.Send else Flow.Idle
    case Lose(i) => if i < |w.inflight| then Flow.Lose(i) else Flow.Idle
    case Duplicate(i) => if i < |w.inflight| then Flow.Duplicate(i) else Flow.Idle
    case Deliver(i) => if i < |w.inflight| then Flow.Deliver(i) else Flow.Idle
    case Read(_, _) => if Reads(w) then Flow.Take(1) else Flow.Idle
    case ReadBatch(_, n) => if ReadsBatch(w, n) then Flow.Take(n) else Flow.Idle
  }

  ghost predicate Refines(w: World, e: Event)
    requires Inv(w)
  {
    var r := Step(w, e);
    && Server.Contiguous(r.server) && |r.server.buf| == |w.server.buf|
    && Sound(r.receiver, |r.server.buf|) && Shaped(r)
    && FlowOf(r) == Flow.Moved(FlowOf(w), MoveOf(w, e))
  }

  /** A server turn puts at most one datagram in flight, stamped with the next number. */
  lemma ServerTurnRefines(w: World, t: Server.Tick)
    requires Inv(w)
    ensures Refines(w, ServerTurn(t))
  {
    hide Emit, GetSeqNum, Stamp, Wrap, Sound, SeqNums, Server.SumClosed, Flow.Placed;
    var s := w.server;
    Server.TickedContiguous(s, t);
    assert w.inflight + [] == w.inflight;
    if s.phase == Server.Sending {
      var data := Stamp(s.seqNum, s.buf);
      WritesOneDatagram(t.replies, data);
      assert (s.wire + [data])[|s.wire|..] == [data];
      assert (s.wire + [])[|s.wire|..] == [];
      SeqNumsAppend(w.inflight, data, |s.buf|);
    }
  }

  /** Loss, duplication and delivery of the i-th datagram in flight are moves of its number. */
  lemma NetworkRefines(w: World, i: nat)
    requires Inv(w)
    ensures Refines(w, Lose(i)) && Refines(w, Duplicate(i)) && Refines(w, Deliver(i))
  {
    hide GetSeqNum, Server.Contiguous, Sound, SeqNums, Flow.Placed, Flow.Without;
    if i < |w.inflight| {
      var d, n := w.inflight[i], |w.server.buf|;
      SeqNumsWithout(w.inflight, i, n);
      SeqNumsAppend(w.lost, d, n);
      SeqNumsAppend(w.inflight, d, n);
      SeqNumsAppend(w.copied, d, n);
      SeqNumsAppend(w.queued, d, n);
    }
  }

  /** A turn of the single receiver accounts for exactly the oldest queued datagram. */
  lemma ReadEffect(c: TrendClient.Trend, queued: seq<seq<Byte>>, turn: TrendClient.Turn, k: nat, n: nat)
    requires Sound(Single(c), n) && Uniform(queued, n) && queued != []
    ensures var r := AfterRead(c, queued, turn, k);
            && Sound(Single(r), n) && Datagrams(r.pending) == queued[1..]
            && r.meter.totals.log == c.meter.totals.log + [GetSeqNum(queued[0])]
  {
    hide GetSeqNum, Balanced, TrendClient.Turned;
    var before := c.(pending := Interrupts(k) + AsArrivals(queued));
    QueueIsArrivals(k, queued, n);
    TrendClient.TurnedSound(before, turn);
    TrendClient.TurnConsumesOne(before, turn);
  }

  lemma ReadRefines(w: World, turn: TrendClient.Turn, k: nat)
    requires Inv(w)
    ensures Refines(w, Read(turn, k))
  {
    hide GetSeqNum, Server.Contiguous, Sound, SeqNums, Flow.Placed, AfterRead;
    if Reads(w) {
      ReadEffect(w.receiver.trend, w.queued, turn, k, |w.server.buf|);
      SeqNumsCut(w.queued, 1, |w.server.buf|);
      FirstNumber(w.queued);
    }
  }

  lemma FirstNumber(ds: seq<seq<Byte>>)
    requires ds != [] && forall i :: 0 <= i < |ds| ==> |ds[i]| >= SEQ_BYTES
    ensures SeqNums(ds)[..1] == [GetSeqNum(ds[0])]
  {
    hide GetSeqNum;
  }

  /** A turn of the batched receiver accounts for exactly the datagrams of its batch. */
  lemma BatchEffect(c: MmsgClient.Mmsg, now: Timeval, ds: seq<seq<Byte>>, n: nat)
    requires Sound(Batched(c), n) && Uniform(ds, n) && |ds| <= |c.slots|
    ensures var r := MmsgClient.Turned(c, MmsgClient.Batch(now, ds));
            && Sound(Batched(r), n)
            && r.meter.totals.log == c.meter.totals.log + SeqNums(ds)
  {
    hide GetSeqNum, Balanced, MmsgClient.FoldSlots, SeqNums;
    var a := MmsgClient.AtTop(c, now);
    ReportedBalanced(c.meter, now);
    MmsgClient.FoldBalanced(a.meter, MmsgClient.Filled(c.slots, ds)[..|ds|]);
    MmsgClient.FoldIsOneByOne(a.meter, c.slots, ds, n);
    TrendClient.OneByOneLog(c.meter.totals, ds, n);
    TrendClient.OneByOneSizes(c.meter.totals, ds, n);
  }

  lemma ReadBatchRefines(w: World, now: Timeval, k: nat)
    requires Inv(w)
    ensures Refines(w, ReadBatch(now, k))
  {
    hide GetSeqNum, Server.Contiguous, Sound, SeqNums, Flow.Placed, MmsgClient.Turned;
    if ReadsBatch(w, k) {
      SeqNumsCut(w.queued, k, |w.server.buf|);
      BatchEffect(w.receiver.mmsg, now, w.queued[..k], |w.server.buf|);
    }
  }

  lemma StepRefines(w: World, e: Event)
    requires Inv(w)
    ensures Refines(w, e) && Inv(Step(w, e))
  {
    match e {
      case ServerTurn(t) => ServerTurnRefines(w, t);
      case Lose(i) => NetworkRefines(w, i);
      case Duplicate(i) => NetworkRefines(w, i);
      case Deliver(i) => NetworkRefines(w, i);
      case Read(t, k) => ReadRefines(w, t, k);
      case ReadBatch(now, n) => ReadBatchRefines(w, now, n);
    }
    hide Step, Server.Contiguous, Sound, Flow.Placed, Flow.Moved;
    Flow.MovedPlaced(FlowOf(w), MoveOf(w, e));
  }

  /** The numbers after an event. */
  ghost function FlowAfter(w: World, e: Event): Flow.Flow
    requires Inv(w)
  {
    StepRefines(w, e);
    FlowOf(Step(w, e))
  }

  lemma AfterMove(w: World, e: Event)
    requires Inv(w)
    ensures FlowAfter(w, e) == Flow.Moved(FlowOf(w), MoveOf(w, e))
  {
    StepRefines(w, e);
    hide Step, Sound, Shaped, Server.Contiguous, Flow.Placed, Flow.Moved, MoveOf;
  }

  /** The server sends exactly if it is sending and its write is taken, ... */
  lemma SendsIff(w: World, t: Server.Tick)
    requires Inv(w)
    ensures FlowAfter(w, ServerTurn(t)) ==
            if w.server.phase == Server.Sending && FirstAnswer(t.replies).Accept?
            then Flow.Moved(FlowOf(w), Flow.Send) else FlowOf(w)
  {
    hide FlowAfter, Sound, Shaped, FirstAnswer, Flow.Placed, Flow.Moved, Server.Ticked;
    AfterMove(w, ServerTurn(t));
    if w.server.phase == Server.Sending {
      Server.TickedPhase(w.server, t);
      SizeFits(w);
    } else {
      Server.StaysAsItIs(w.server, t);
    }
    NoMove(FlowOf(w));
  }

  lemma SizeFits(w: World)
    requires Shaped(w)
    ensures |w.server.buf| <= MAX_DATAGRAM
  {
  }

  lemma NoMove(f: Flow.Flow)
    ensures Flow.Moved(f, Flow.Idle) == f
  {
  }

  /** ... the network loses, duplicates and delivers the datagram it is told to, ... */
  lemma NetworkMoves(w: World, i: nat)
    requires Inv(w) && i < |FlowOf(w).inflight|
    ensures FlowAfter(w, Lose(i)) == Flow.Moved(FlowOf(w), Flow.Lose(i))
    ensures FlowAfter(w, Duplicate(i)) == Flow.Moved(FlowOf(w), Flow.Duplicate(i))
    ensures FlowAfter(w, Deliver(i)) == Flow.Moved(FlowOf(w), Flow.Deliver(i))
  {
    hide FlowAfter, Sound, Shaped, Flow.Placed, Flow.Moved;
    AfterMove(w, Lose(i));
    AfterMove(w, Duplicate(i));
    AfterMove(w, Deliver(i));
  }

  /** ... and the receiver, of either kind, takes what its turn reads. */
  lemma ReceiverMoves(w: World, turn: TrendClient.Turn, k: nat, now: Timeval, n: nat)
    requires Inv(w)
    ensures w.receiver.Single? && FlowOf(w).queued != [] ==>
              FlowAfter(w, Read(turn, k)) == Flow.Moved(FlowOf(w), Flow.Take(1))
    ensures w.receiver.Batched? && 0 < n <= |FlowOf(w).queued| && n <= |w.receiver.mmsg.slots| ==>
              FlowAfter(w, ReadBatch(now, n)) == Flow.Moved(FlowOf(w), Flow.Take(n))
  {
    hide FlowAfter, Sound, Shaped, Flow.Placed, Flow.Moved;
    AfterMove(w, Read(turn, k));
    AfterMove(w, ReadBatch(now, n));
  }

  /** The run of a list of events. */
  ghost function Ran(w: World, events: seq<Event>): (r: World)
    requires Inv(w)
    ensures Inv(r)
    decreases events
  {
    if events == [] then w else
    StepRefines(w, events[0]);
    Ran(Step(w, events[0]), events[1..])
  }

  // ---------------------------------------------------------------- theorems over every run

  lemma BooksAreTheLog(w: World)
    requires Inv(w)
    ensures TotalsOf(w.receiver).ledger == Replay(FlowOf(w).log)
    ensures TotalsOf(w.receiver).bytes == Wrap(SumSizes(TotalsOf(w.receiver).sizes))
    ensures |TotalsOf(w.receiver).sizes| == |FlowOf(w).log|
  {
  }

  /** Under any loss, duplication and reordering, with at most 2^64 sends, for either
      receiver: the drop counter is the count of smaller sequence numbers still outstanding,
      less the datagrams that overtook the newest, less the repeats, modulo 2^64, and the
      repeats are at most the network's copies. */
  lemma DropsExplained(w: World, events: seq<Event>)
    requires Initial(w)
    ensures Inv(w)
    ensures var r := Ran(w, events);
            var f := FlowOf(r);
            |f.written| <= TWO64 && f.log != [] ==>
              && TotalsOf(r.receiver).ledger.drops ==
                 Wrap(|Flow.OutstandingBelow(f, Last(f.log))| - |Overtakers(f.log)| - Repeats(f.log))
              && Repeats(f.log) <= |r.copied|
  {
    hide Ran, Replay, Wrap, Server.Contiguous, Flow.Placed, Sound;
    InitialInv(w);
    var f := FlowOf(Ran(w, events));
    BooksAreTheLog(Ran(w, events));
    if |f.written| <= TWO64 && f.log != [] {
      Flow.DropsExplained(f);
    }
  }

  /** Under any loss and any reordering without duplication, with at most 2^64 sends, for
      either receiver: the drop counter is the number of smaller sequence numbers queued, in
      flight or lost exactly when the newest datagram accounted for carries the largest
      number so far. */
  lemma DropsAreOutstanding(w: World, events: seq<Event>)
    requires Initial(w)
    ensures Inv(w)
    ensures var r := Ran(w, events);
            var f := FlowOf(r);
            |f.written| <= TWO64 && f.log != [] && r.copied == [] ==>
              (TotalsOf(r.receiver).ledger.drops == |Flow.OutstandingBelow(f, Last(f.log))|
               <==> NewestIsLargest(f.log))
  {
    hide Ran, Replay, Server.Contiguous, Flow.Placed, Sound;
    InitialInv(w);
    var f := FlowOf(Ran(w, events));
    BooksAreTheLog(Ran(w, events));
    if |f.written| <= TWO64 && f.log != [] && f.copies == [] {
      Flow.DropsAreOutstanding(f);
    }
  }

  /** The byte total is the buffer size times the datagrams accounted for. */
  lemma BytesAreSizeTimesDatagrams(w: World, events: seq<Event>)
    requires Initial(w)
    ensures Inv(w)
    ensures var r := Ran(w, events);
            TotalsOf(r.receiver).bytes == Wrap(|r.server.buf| * |FlowOf(r).log|)
  {
    hide Ran, Server.Contiguous, Flow.Placed;
    InitialInv(w);
    var r := Ran(w, events);
    BooksAreTheLog(r);
    SumOfEqual(TotalsOf(r.receiver).sizes, |r.server.buf|);
  }

  lemma {:induction false} SumOfEqual(ns: seq<nat>, n: nat)
    requires forall i :: 0 <= i < |ns| ==> ns[i] == n
    ensures SumSizes(ns) == n * |ns|
  {
    if ns != [] {
      SumOfEqual(ns[..|ns| - 1], n);
    }
  }

  /** The network neither duplicates nor reorders. */
  ghost predicate Fifo(events: seq<Event>) {
    forall i :: 0 <= i < |events| ==> !events[i].Duplicate? && (events[i].Deliver? ==> events[i].i == 0)
  }

  lemma {:induction false} WrittenGrows(w: World, events: seq<Event>)
    requires Inv(w)
    ensures |w.server.written| <= |Ran(w, events).server.written|
    decreases events
  {
    hide Step, Server.Contiguous, Sound, Shaped, Flow.Placed, MoveOf, Flow.Moved;
    if events != [] {
      StepRefines(w, events[0]);
      Flow.MovedGrows(FlowOf(w), MoveOf(w, events[0]));
      WrittenGrows(Step(w, events[0]), events[1..]);
    }
  }

  lemma MoveIsFifo(w: World, e: Event)
    requires Inv(w) && !e.Duplicate? && (e.Deliver? ==> e.i == 0)
    ensures Flow.Fifo(MoveOf(w, e))
  {
    hide Server.Ticked, Server.Contiguous, Sound;
  }

  lemma {:induction false} RanInOrder(w: World, events: seq<Event>)
    requires Inv(w) && Flow.InOrder(FlowOf(w)) && Fifo(events)
    requires |Ran(w, events).server.written| < TWO64
    ensures Flow.InOrder(FlowOf(Ran(w, events)))
    decreases events
  {
    hide Step, Server.Contiguous, Sound, Shaped, Flow.Placed, Flow.InOrder, MoveOf, Flow.Moved;
    if events != [] {
      WrittenGrows(w, events);
      StepRefines(w, events[0]);
      MoveIsFifo(w, events[0]);
      Flow.MovedInOrder(FlowOf(w), MoveOf(w, events[0]));
      RanInOrder(Step(w, events[0]), events[1..]);
    }
  }

  /** Whole-system loss exactness, for either receiver: in every run over a network that
      loses but neither duplicates nor reorders, with fewer than 2^64 sends, the drop counter
      is exactly the number of lost sequence numbers below the expected counter, and
      everything still on its way lies at or above it: no datagram in flight is ever
      counted. */
  lemma LossExactness(w: World, events: seq<Event>)
    requires Initial(w) && Fifo(events)
    ensures Inv(w)
    ensures var r := Ran(w, events);
            var f, l := FlowOf(r), TotalsOf(r.receiver).ledger;
            |f.written| < TWO64 ==>
              && l.drops == |Flow.LostBelow(f, l.expected)|
              && (forall v :: v in f.queued + f.inflight ==> v >= l.expected)
  {
    hide Ran, Replay, Server.Contiguous, Flow.Placed, Flow.InOrder, Sound;
    InitialInv(w);
    var f := FlowOf(Ran(w, events));
    BooksAreTheLog(Ran(w, events));
    if |f.written| < TWO64 {
      RanInOrder(w, events);
      Flow.DropsAreLosses(f);
    }
  }
}
