/** The iterative server: it takes one request, streams stamped datagrams to the requester
    until a write fails, and goes back to waiting. */
module Server {
  import opened Word64
  import opened Bytes
  import opened Sockets
  import opened Timeval
  import opened Alarms

  // ---------------------------------------------------------------- the request

  /** sizeof(struct arg_to_server): three ints, four bytes of padding, a long. */
  const ARG_SIZE := 24
  const SLEEP_USEC := 4
  const BZSLEEP_USEC := 8
  const BZSLEEP_NSEC := 16

  type Args = a: seq<Byte> | |a| == ARG_SIZE witness seq(24, _ => 0)

  /** The global as the process starts. */
  function Zeroed(): Args {
    seq(24, _ => 0)
  }

  /** recvfrom overwrites only as many bytes of the global as the request has. */
  function Received(args: Args, request: seq<Byte>): Args {
    Overwrite(args, if |request| <= 24 then request else request[..24])
  }

  function BufSize(args: Args): int {
    GetInt(args, 0)
  }

  /** The nanosecond pause is the request's if the request has it, and is left alone by
      every request that ends before it. */
  lemma NsecEffect(args: Args, request: seq<Byte>)
    ensures var a := Received(args, request);
            && (|request| >= 24 ==> GetLong(a, BZSLEEP_NSEC) == GetLong(request, BZSLEEP_NSEC))
            && (|request| <= 16 ==> GetLong(a, BZSLEEP_NSEC) == GetLong(args, BZSLEEP_NSEC))
  {
    var a := Received(args, request);
    if |request| >= 24 {
      assert a[16..24] == request[16..24];
    } else if |request| <= 16 {
      assert a[16..24] == args[16..24];
    }
  }

  /** The three ints always belong to the current request, the old and the new request
      layout alike; the nanosecond pause is the current one only if the request has it. */
  lemma RequestTakesEffect(args: Args, request: seq<Byte>)
    requires |request| >= 12
    ensures var a := Received(args, request);
            && BufSize(a) == GetInt(request, 0)
            && GetInt(a, SLEEP_USEC) == GetInt(request, SLEEP_USEC)
            && GetInt(a, BZSLEEP_USEC) == GetInt(request, BZSLEEP_USEC)
            && (|request| >= 24 ==> GetLong(a, BZSLEEP_NSEC) == GetLong(request, BZSLEEP_NSEC))
            && (|request| <= 16 ==> GetLong(a, BZSLEEP_NSEC) == GetLong(args, BZSLEEP_NSEC))
  {
    var a := Received(args, request);
    assert a[0..4] == request[0..4];
    assert a[4..8] == request[4..8];
    assert a[8..12] == request[8..12];
    NsecEffect(args, request);
  }

  /** A request that starts with a size as an int asks for a buffer of that size. */
  lemma RequestedSize(args: Args, size: nat, others: seq<Byte>)
    requires size < 0x8000_0000
    ensures BufSize(Received(args, Encode(size, 4) + others)) == size
  {
    var a := Received(args, Encode(size, 4) + others);
    assert a[0..4] == Encode(size, 4);
    assert Pow256(4) == TWO32;
    DecodeEncode(size, 4);
  }

  /** The word that C stores for a signed number of 32 or 64 bits. */
  function Unsigned(x: int, modulus: nat): int {
    if x < 0 then x + modulus else x
  }

  /** `struct arg_to_server` in memory. */
  function RequestOf(size: int, usec: int, bzUsec: int, nsec: int): seq<Byte>
    requires -0x8000_0000 <= size < 0x8000_0000 && -0x8000_0000 <= usec < 0x8000_0000
    requires -0x8000_0000 <= bzUsec < 0x8000_0000 && -TWO63 <= nsec < TWO63
  {
    Encode(Unsigned(size, TWO32), 4) + Encode(Unsigned(usec, TWO32), 4) + Encode(Unsigned(bzUsec, TWO32), 4)
    + Encode(0, 4) + Encode(Unsigned(nsec, TWO64), 8)
  }

  /** Round trip of a request: the server works with the four numbers the receiver sent,
      negative ones included. */
  lemma RequestReadBack(args: Args, size: int, usec: int, bzUsec: int, nsec: int)
    requires -0x8000_0000 <= size < 0x8000_0000 && -0x8000_0000 <= usec < 0x8000_0000
    requires -0x8000_0000 <= bzUsec < 0x8000_0000 && -TWO63 <= nsec < TWO63
    ensures var a := Received(args, RequestOf(size, usec, bzUsec, nsec));
            && BufSize(a) == size && GetInt(a, SLEEP_USEC) == usec
            && GetInt(a, BZSLEEP_USEC) == bzUsec && GetLong(a, BZSLEEP_NSEC) == nsec
  {
    var r := RequestOf(size, usec, bzUsec, nsec);
    var a := Received(args, r);
    assert a == r;
    hide Encode, Decode, Wrap;
    assert a[0..4] == Encode(Unsigned(size, TWO32), 4);
    assert a[4..8] == Encode(Unsigned(usec, TWO32), 4);
    assert a[8..12] == Encode(Unsigned(bzUsec, TWO32), 4);
    assert a[16..24] == Encode(Unsigned(nsec, TWO64), 8);
    WordPowers();
    DecodeEncode(Unsigned(size, TWO32), 4);
    DecodeEncode(Unsigned(usec, TWO32), 4);
    DecodeEncode(Unsigned(bzUsec, TWO32), 4);
    DecodeEncode(Unsigned(nsec, TWO64), 8);
    WrapWord(Unsigned(nsec, TWO64));
  }

  lemma WordPowers()
    ensures Pow256(4) == TWO32 && Pow256(8) == TWO64
  {
    assert Pow256(8) == 0x1_0000_0000 * Pow256(4);
  }

  function ArgsAfter(args: Args, requests: seq<seq<Byte>>): Args {
    if requests == [] then args
    else Received(ArgsAfter(args, requests[..|requests| - 1]), requests[|requests| - 1])
  }

  /** The i-th byte of the most recent request that reaches it. */
  function LatestByte(requests: seq<seq<Byte>>, i: nat): Byte {
    if requests == [] then 0 else
    var r := requests[|requests| - 1];
    if i < |r| then r[i] else LatestByte(requests[..|requests| - 1], i)
  }

  /** Over any run of requests, of whatever lengths, every byte of the global comes from the
      latest request that was long enough to have it. */
  lemma {:induction false} BytesAreInherited(requests: seq<seq<Byte>>, i: nat)
    requires i < ARG_SIZE
    ensures ArgsAfter(Zeroed(), requests)[i] == LatestByte(requests, i)
  {
    if requests != [] {
      BytesAreInherited(requests[..|requests| - 1], i);
    }
  }

  /** The pause asked for by the most recent request that has the field. */
  function LatestNsec(requests: seq<seq<Byte>>): int {
    if requests == [] then 0 else
    var r := requests[|requests| - 1];
    if |r| >= 24 then GetLong(r, BZSLEEP_NSEC) else LatestNsec(requests[..|requests| - 1])
  }

  /** Over any run of requests that have the field or end before it, a short one inherits
      the nanosecond pause of an earlier client. */
  lemma {:induction false} NsecIsInherited(requests: seq<seq<Byte>>)
    requires forall i :: 0 <= i < |requests| ==> |requests[i]| <= 16 || |requests[i]| >= 24
    ensures GetLong(ArgsAfter(Zeroed(), requests), BZSLEEP_NSEC) == LatestNsec(requests)
  {
    if requests == [] {
      ZerosDecode(8);
      assert Zeroed()[16..24] == seq(8, _ => 0);
    } else {
      var earlier := requests[..|requests| - 1];
      NsecIsInherited(earlier);
      NsecEffect(ArgsAfter(Zeroed(), earlier), requests[|requests| - 1]);
    }
  }

  lemma {:induction false} ZerosDecode(k: nat)
    ensures Decode(seq(k, _ => 0)) == 0
  {
    if k > 0 {
      ZerosDecode(k - 1);
      assert seq(k, _ => 0)[1..] == seq(k - 1, _ => 0);
    }
  }

  // ---------------------------------------------------------------- one session

  datatype Phase = Sending | Ended | InWrite

  datatype WriteReport = WriteReport(elapsed: Timeval, count: Word)

  /** `written` lists the sequence numbers of successful writes, `closed` the interval
      counts taken at alarms, and `wire` what left the host. */
  datatype Session = Session(phase: Phase, buf: seq<Byte>, seqNum: Word, intervalWrites: Word, start: Timeval,
                             closed: seq<WriteReport>, written: seq<Word>, wire: seq<seq<Byte>>)

  /** One turn of the send loop: whether has_alarm is found set, the clock, and what the
      kernel answers to the writes. */
  datatype Tick = Tick(alarmed: bool, now: Timeval, replies: seq<Reply>)

  function Opened(buf: seq<Byte>, now: Timeval): Session {
    Session(Sending, buf, 0, 0, now, [], [], [])
  }

  function AfterAlarm(s: Session, t: Tick): Session {
    if t.alarmed then
      s.(closed := s.closed + [WriteReport(TimerSub(t.now, s.start), s.intervalWrites)], intervalWrites := 0)
    else s
  }

  function Ticked(s: Session, t: Tick): (r: Session)
    requires |s.buf| >= SEQ_BYTES
    ensures s.wire <= r.wire && s.closed <= r.closed
  {
    if s.phase != Sending then s else
    var a := AfterAlarm(s, t);
    var data := Stamp(a.seqNum, a.buf);
    var e := Emit(Datagram, t.replies, data);
    var sent := a.(buf := data, wire := a.wire + e.wire);
    match e.status
    case Returned => sent.(seqNum := Add(a.seqNum, 1), intervalWrites := Add(a.intervalWrites, 1),
                           written := a.written + [a.seqNum])
    case Failed => sent.(phase := Ended)
    case Blocked => sent.(phase := InWrite)
  }

  function Ran(s: Session, ticks: seq<Tick>): (r: Session)
    requires |s.buf| >= SEQ_BYTES
    ensures |r.buf| == |s.buf|
    decreases ticks
  {
    if ticks == [] || s.phase != Sending then s else Ran(Ticked(s, ticks[0]), ticks[1..])
  }

  function SumClosed(rs: seq<WriteReport>): nat {
    if rs == [] then 0 else SumClosed(rs[..|rs| - 1]) + rs[|rs| - 1].count
  }

  /** Every session numbers its datagrams 0, 1, 2, ... without a gap, a failed write uses
      up no number, each datagram is a full buffer carrying its number, and the interval
      counts add up to the next number. */
  ghost predicate Contiguous(s: Session) {
    && |s.buf| >= SEQ_BYTES
    && Numbered(s.written)
    && s.seqNum == Wrap(|s.written|)
    && Framed(s.wire, s.written, |s.buf|)
    && Wrap(SumClosed(s.closed) + s.intervalWrites) == s.seqNum
  }

  ghost predicate Numbered(written: seq<Word>) {
    forall i :: 0 <= i < |written| ==> written[i] == Wrap(i)
  }

  ghost predicate Framed(wire: seq<seq<Byte>>, written: seq<Word>, size: nat) {
    && |wire| == |written| && size >= SEQ_BYTES
    && forall i :: 0 <= i < |wire| ==> |wire[i]| == size && GetSeqNum(wire[i]) == written[i]
  }

  lemma {:induction false} TickedContiguous(s: Session, t: Tick)
    requires Contiguous(s)
    ensures Contiguous(Ticked(s, t))
  {
    hide Emit, GetSeqNum, Stamp, Wrap, SumClosed;
    if s.phase == Sending {
      var a := AfterAlarm(s, t);
      AfterAlarmContiguous(s, t);
      var data := Stamp(a.seqNum, a.buf);
      WritesOneDatagram(t.replies, data);
      SentContiguous(a, data);
      assert a.wire + [] == a.wire;
    }
  }

  lemma SentContiguous(a: Session, data: seq<Byte>)
    requires Contiguous(a) && |data| == |a.buf| && GetSeqNum(data) == a.seqNum
    ensures Contiguous(a.(buf := data, wire := a.wire + [data],
                          seqNum := Add(a.seqNum, 1), intervalWrites := Add(a.intervalWrites, 1),
                          written := a.written + [a.seqNum]))
  {
    hide Add, Wrap, SumClosed, GetSeqNum;
    CountOneMore(SumClosed(a.closed), a.intervalWrites, |a.written|);
  }

  lemma CountOneMore(sum: nat, running: Word, n: nat)
    requires Wrap(sum + running) == Wrap(n)
    ensures Wrap(sum + Add(running, 1)) == Wrap(n + 1) == Add(Wrap(n), 1)
  {
    var i := WrapQuotient(sum + running);
    var j := WrapQuotient(n);
    var k := WrapQuotient(running + 1);
    WrapPeriod(sum + Add(running, 1), n + 1, i - j - k);
    WrapPeriod(Wrap(n) + 1, n + 1, -j);
  }

  lemma AfterAlarmContiguous(s: Session, t: Tick)
    requires Contiguous(s)
    ensures Contiguous(AfterAlarm(s, t))
  {
    hide Framed, Numbered, Wrap;
    assert AfterAlarm(s, t).closed[..|s.closed|] == s.closed;
  }

  lemma {:induction false} RanContiguous(s: Session, ticks: seq<Tick>)
    requires Contiguous(s)
    ensures Contiguous(Ran(s, ticks))
    decreases ticks
  {
    if ticks != [] && s.phase == Sending {
      TickedContiguous(s, ticks[0]);
      RanContiguous(Ticked(s, ticks[0]), ticks[1..]);
    }
  }

  /** A request for more than a datagram can carry is accepted, and never sends anything:
      its session is over with the first write the kernel answers. */
  lemma OversizeSendsNothing(buf: seq<Byte>, now: Timeval, ticks: seq<Tick>)
    requires |buf| > MAX_DATAGRAM && ticks != []
    ensures var s := Ran(Opened(buf, now), ticks); s.wire == [] && s.phase != Sending
  {
    var s := Opened(buf, now);
    WritesOneDatagram(ticks[0].replies, Stamp(AfterAlarm(s, ticks[0]).seqNum, buf));
  }

  // ---------------------------------------------------------------- intervals and payload

  function Checks(ticks: seq<Tick>): seq<Check> {
    seq(|ticks|, i requires 0 <= i < |ticks| => Check(ticks[i].alarmed, ticks[i].now))
  }

  /** The turns that a session has begun. */
  function Begun(s: Session): nat {
    |s.written| + (if s.phase == Sending then 0 else 1)
  }

  /** An interval closed at `now`: the time since the start of the session, and how many
      of the writes a, ..., b - 1 there are. */
  ghost predicate Says(r: WriteReport, start: Timeval, now: Timeval, a: nat, b: nat) {
    r.elapsed.Micros() == now.Micros() - start.Micros() && r.count == Wrap(b - a)
  }

  /** The intervals are those closed at `clocks` with `cuts` writes behind them. Each counts
      the writes since the one before; the running interval counts the rest. */
  ghost predicate Timed(s: Session, clocks: seq<Timeval>, cuts: seq<nat>) {
    && |s.closed| == |clocks| == |cuts|
    && (forall j :: 0 <= j < |cuts| ==> Says(s.closed[j], s.start, clocks[j], Cut(cuts, j), cuts[j]))
    && s.intervalWrites == Wrap(|s.written| - Cut(cuts, |cuts|))
  }

  /** All that goes out is, behind its number, what malloc returned. */
  ghost predicate Carried(s: Session, buf: seq<Byte>) {
    && |s.buf| == |buf| >= SEQ_BYTES && s.buf[8..] == buf[8..]
    && forall i :: 0 <= i < |s.wire| ==> |s.wire[i]| == |buf| && s.wire[i][8..] == buf[8..]
  }

  lemma {:induction false} RanAppend(s: Session, ticks: seq<Tick>, t: Tick)
    requires |s.buf| >= SEQ_BYTES
    ensures Ran(s, ticks + [t]) == Ticked(Ran(s, ticks), t)
    decreases ticks
  {
    hide Emit, Stamp;
    if ticks == [] || s.phase != Sending {
      assert ticks == [] ==> (ticks + [t])[1..] == [];
    } else {
      assert (ticks + [t])[1..] == ticks[1..] + [t];
      RanAppend(Ticked(s, ticks[0]), ticks[1..], t);
    }
  }

  lemma AfterAlarmTimed(s: Session, t: Tick, clocks: seq<Timeval>, cuts: seq<nat>)
    requires Timed(s, clocks, cuts)
    ensures var r := AfterAlarm(s, t);
            && r == s.(closed := r.closed, intervalWrites := r.intervalWrites)
            && Timed(r, clocks + (if t.alarmed then [t.now] else []),
                     cuts + (if t.alarmed then [|s.written|] else []))
  {
    if t.alarmed {
      var all, later, r := cuts + [|s.written|], clocks + [t.now], AfterAlarm(s, t);
      assert Says(r.closed[|cuts|], r.start, t.now, Cut(cuts, |cuts|), |s.written|);
      WrapWord(0);
      hide Says, Wrap, TimerSub;
      forall j | 0 <= j < |cuts|
        ensures Says(r.closed[j], r.start, later[j], Cut(all, j), all[j])
      {
        assert Cut(all, j) == Cut(cuts, j) && all[j] == cuts[j] && later[j] == clocks[j];
      }
      assert Cut(all, |cuts|) == Cut(cuts, |cuts|) && Cut(all, |all|) == |s.written|;
      assert Timed(r, later, all);
    } else {
      assert clocks + [] == clocks && cuts + [] == cuts;
    }
  }

  lemma TickedTimed(s: Session, t: Tick, clocks: seq<Timeval>, cuts: seq<nat>)
    requires |s.buf| >= SEQ_BYTES && s.phase == Sending && Timed(s, clocks, cuts)
    ensures var r := Ticked(s, t);
            && r.start == s.start
            && |r.written| == |s.written| + (if r.phase == Sending then 1 else 0)
            && Timed(r, clocks + (if t.alarmed then [t.now] else []),
                     cuts + (if t.alarmed then [|s.written|] else []))
  {
    hide Emit, Stamp, Wrap, Says, AfterAlarm;
    AfterAlarmTimed(s, t, clocks, cuts);
    var all := cuts + (if t.alarmed then [|s.written|] else []);
    WrapAdd(|s.written| - Cut(all, |all|), 1);
  }

  lemma TickedCarried(s: Session, t: Tick, buf: seq<Byte>)
    requires Carried(s, buf)
    ensures Carried(Ticked(s, t), buf)
  {
    hide Emit, GetSeqNum;
    if s.phase == Sending {
      WritesOneDatagram(t.replies, Stamp(s.seqNum, s.buf));
    }
  }

  /** There is one interval for each turn begun with has_alarm set and no other, timed by
      that turn's clock and counting the writes since the interval before; and every
      datagram carries the bytes that malloc returned behind its number. */
  lemma {:induction false} AlarmsCloseIntervals(buf: seq<Byte>, start: Timeval, ticks: seq<Tick>)
    requires |buf| >= SEQ_BYTES
    ensures var r := Ran(Opened(buf, start), ticks);
            && r.start == start && Carried(r, buf)
            && Begun(r) <= |ticks| && (r.phase == Sending ==> Begun(r) == |ticks|)
            && Timed(r, AlarmClocks(Checks(ticks[..Begun(r)])), AlarmTurns(Checks(ticks[..Begun(r)])))
    decreases |ticks|
  {
    hide Ran, Timed, Carried, Ticked;
    var s := Opened(buf, start);
    if ticks == [] {
      OpenedTimed(buf, start);
    } else {
      var init, t := ticks[..|ticks| - 1], ticks[|ticks| - 1];
      AlarmsCloseIntervals(buf, start, init);
      assert ticks == init + [t];
      RanAppend(s, init, t);
      var r := Ran(s, init);
      TickedCarried(r, t, buf);
      if r.phase == Sending {
        assert init[..Begun(r)] == init;
        TickedTimed(r, t, AlarmClocks(Checks(init)), AlarmTurns(Checks(init)));
        AlarmsAppend(Checks(init), Check(t.alarmed, t.now));
        assert Checks(ticks) == Checks(init) + [Check(t.alarmed, t.now)];
        assert ticks[..|ticks|] == ticks;
      } else {
        StaysAsItIs(r, t);
        assert ticks[..Begun(r)] == init[..Begun(r)];
      }
    }
  }

  lemma OpenedTimed(buf: seq<Byte>, start: Timeval)
    requires |buf| >= SEQ_BYTES
    ensures var s := Opened(buf, start); Ran(s, []) == s && Timed(s, [], []) && Carried(s, buf)
  {
  }

  lemma StaysAsItIs(s: Session, t: Tick)
    requires |s.buf| >= SEQ_BYTES && s.phase != Sending
    ensures Ticked(s, t) == s
  {
  }

  // ---------------------------------------------------------------- how a session ends

  /** The kernel's first answer to the write of this turn refuses it, or would have to take
      more than a datagram can carry. */
  ghost predicate Refuses(t: Tick, size: nat) {
    !AllInterrupted(t.replies) && (FirstAnswer(t.replies) == WriteFault || size > MAX_DATAGRAM)
  }

  ghost predicate Accepts(t: Tick, size: nat) {
    FirstAnswer(t.replies).Accept? && size <= MAX_DATAGRAM
  }

  /** The first i writes are taken. */
  ghost predicate AllAccept(ticks: seq<Tick>, i: nat, size: nat)
    requires i <= |ticks|
  {
    forall j :: 0 <= j < i ==> Accepts(ticks[j], size)
  }

  ghost predicate EndsAt(ticks: seq<Tick>, i: nat, size: nat) {
    i < |ticks| && Refuses(ticks[i], size) && AllAccept(ticks, i, size)
  }

  ghost predicate WaitsAt(ticks: seq<Tick>, i: nat, size: nat) {
    i < |ticks| && AllInterrupted(ticks[i].replies) && AllAccept(ticks, i, size)
  }

  lemma {:induction false} AnswersTell(replies: seq<Reply>)
    ensures AllInterrupted(replies) ==> FirstAnswer(replies) == WriteFault
    ensures FirstAnswer(replies).Accept? || FirstAnswer(replies) == WriteFault
  {
    if replies != [] {
      AnswersTell(replies[1..]);
    }
  }

  lemma TickedPhase(s: Session, t: Tick)
    requires |s.buf| >= SEQ_BYTES && s.phase == Sending
    ensures var r := Ticked(s, t);
            && |r.buf| == |s.buf|
            && (r.phase == Sending <==> Accepts(t, |s.buf|))
            && (r.phase == Ended <==> Refuses(t, |s.buf|))
            && (r.phase == InWrite <==> AllInterrupted(t.replies))
            && |r.written| == |s.written| + (if r.phase == Sending then 1 else 0)
  {
    hide Emit, Stamp, FirstAnswer;
    AnswersTell(t.replies);
    WritesOneDatagram(t.replies, Stamp(s.seqNum, s.buf));
  }

  lemma AcceptStep(ticks: seq<Tick>, i: nat, size: nat)
    requires i < |ticks|
    ensures AllAccept(ticks, i + 1, size) <==> Accepts(ticks[0], size) && AllAccept(ticks[1..], i, size)
  {
    hide Accepts;
    assert forall j :: 1 <= j < |ticks| ==> ticks[j] == ticks[1..][j - 1];
    assert forall j :: 0 <= j < |ticks| - 1 ==> ticks[1..][j] == ticks[j + 1];
  }

  /** Exactly how a session ends: it is over, and the next client's turn, if and only if a
      write was refused after all before were taken; it is stuck in a write if and only if
      that write was never answered; the writes that succeeded are those before. */
  lemma {:induction false} SessionEnds(s: Session, ticks: seq<Tick>)
    requires |s.buf| >= SEQ_BYTES && s.phase == Sending
    ensures var r, size := Ran(s, ticks), |s.buf|;
            && (r.phase == Ended <==> exists i: nat :: EndsAt(ticks, i, size))
            && (r.phase == InWrite <==> exists i: nat :: WaitsAt(ticks, i, size))
            && var n := |r.written| - |s.written|;
               0 <= n <= |ticks| && AllAccept(ticks, n, size) && (n < |ticks| <==> r.phase != Sending)
    decreases ticks
  {
    hide Ticked, Accepts, Refuses, AllInterrupted, AllAccept;
    if ticks == [] {
      NoneAccepted(ticks, |s.buf|);
    } else {
      var m, size := Ticked(s, ticks[0]), |s.buf|;
      TickedPhase(s, ticks[0]);
      NoneAccepted(ticks, size);
      if m.phase == Sending {
        SessionEnds(m, ticks[1..]);
        StopsLater(ticks, size);
        AcceptStep(ticks, |Ran(m, ticks[1..]).written| - |m.written|, size);
      } else {
        StopsHere(ticks, size);
      }
    }
  }

  lemma NoneAccepted(ticks: seq<Tick>, size: nat)
    ensures AllAccept(ticks, 0, size)
  {
  }

  lemma StopsLater(ticks: seq<Tick>, size: nat)
    requires ticks != [] && Accepts(ticks[0], size)
    ensures (exists i: nat :: EndsAt(ticks, i, size)) <==> exists i: nat :: EndsAt(ticks[1..], i, size)
    ensures (exists i: nat :: WaitsAt(ticks, i, size)) <==> exists i: nat :: WaitsAt(ticks[1..], i, size)
  {
    hide Accepts, Refuses, AllInterrupted, AllAccept;
    forall i: nat | 0 < i < |ticks|
      ensures EndsAt(ticks, i, size) <==> EndsAt(ticks[1..], i - 1, size)
      ensures WaitsAt(ticks, i, size) <==> WaitsAt(ticks[1..], i - 1, size)
    {
      AcceptStep(ticks, i - 1, size);
    }
    AcceptedGoesOn(ticks[0], size);
    if i: nat :| EndsAt(ticks, i, size) {
      assert EndsAt(ticks[1..], i - 1, size);
    }
    if i: nat :| EndsAt(ticks[1..], i, size) {
      assert EndsAt(ticks, i + 1, size);
    }
    if i: nat :| WaitsAt(ticks, i, size) {
      assert WaitsAt(ticks[1..], i - 1, size);
    }
    if i: nat :| WaitsAt(ticks[1..], i, size) {
      assert WaitsAt(ticks, i + 1, size);
    }
  }

  lemma AcceptedGoesOn(t: Tick, size: nat)
    requires Accepts(t, size)
    ensures !Refuses(t, size) && !AllInterrupted(t.replies)
  {
    AnswersTell(t.replies);
  }

  lemma StopsHere(ticks: seq<Tick>, size: nat)
    requires ticks != [] && !Accepts(ticks[0], size)
    ensures (exists i: nat :: EndsAt(ticks, i, size)) <==> Refuses(ticks[0], size)
    ensures (exists i: nat :: WaitsAt(ticks, i, size)) <==> AllInterrupted(ticks[0].replies)
  {
    hide Accepts, Refuses, AllInterrupted;
    assert Refuses(ticks[0], size) ==> EndsAt(ticks, 0, size);
    assert AllInterrupted(ticks[0].replies) ==> WaitsAt(ticks, 0, size);
  }

  // ---------------------------------------------------------------- the server over many requests

  /** One client: its request, the bytes malloc happens to return, the clock, the turns. */
  datatype Visit = Visit(request: seq<Byte>, heap: nat -> Byte, now: Timeval, ticks: seq<Tick>)

  datatype Admission = Welcome | NoMemory | Overrun

  /** A negative size converts to a huge one that malloc refuses; below eight bytes the
      first stamp writes past the end, which C leaves undefined, and the model stops. */
  function Admit(args: Args): Admission {
    if BufSize(args) < 0 then NoMemory else if BufSize(args) < 8 then Overrun else Welcome
  }

  function Malloc(n: nat, heap: nat -> Byte): (r: seq<Byte>)
    ensures |r| == n && forall i :: 0 <= i < n ==> r[i] == heap(i)
  {
    seq<Byte>(n, (i: nat) => heap(i))
  }

  function Visited(args: Args, v: Visit): Session
    requires Admit(args) == Welcome
  {
    Ran(Opened(Malloc(BufSize(args), v.heap), v.now), v.ticks)
  }

  /** The sessions a sequence of visits leads to; the next visit is served only after the
      previous session has ended. */
  function Served(args: Args, visits: seq<Visit>): seq<Session>
    decreases visits
  {
    if visits == [] then [] else
    var a := Received(args, visits[0].request);
    if Admit(a) != Welcome then [] else
    var s := Visited(a, visits[0]);
    [s] + (if s.phase == Ended then Served(a, visits[1..]) else [])
  }

  lemma VisitedContiguous(args: Args, v: Visit)
    requires Admit(args) == Welcome
    ensures Contiguous(Visited(args, v)) && |Visited(args, v).buf| == BufSize(args)
  {
    RanContiguous(Opened(Malloc(BufSize(args), v.heap), v.now), v.ticks);
  }

  /** All interval reports of a sequence of sessions. */
  function AllClosed(sessions: seq<Session>): seq<WriteReport> {
    if sessions == [] then [] else sessions[0].closed + AllClosed(sessions[1..])
  }

  lemma AllClosedStep(s: Session, rest: seq<Session>)
    ensures AllClosed([s] + rest) == s.closed + AllClosed(rest)
  {
    assert ([s] + rest)[1..] == rest;
  }

  lemma EmptyClosed()
    ensures AllClosed([]) == []
  {
  }

  /** Over every run of the server: each session is contiguous from zero on its own. */
  lemma {:induction false} EverySessionContiguous(args: Args, visits: seq<Visit>)
    ensures |Served(args, visits)| <= |visits|
    ensures forall i :: 0 <= i < |Served(args, visits)| ==> Contiguous(Served(args, visits)[i])
    ensures forall i :: 0 <= i < |Served(args, visits)| && |visits[i].request| >= 12 ==>
              |Served(args, visits)[i].buf| == GetInt(visits[i].request, 0)
    decreases visits
  {
    hide Contiguous, Received, Visited, GetInt;
    if visits != [] {
      var v, a := visits[0], Received(args, visits[0].request);
      if Admit(a) == Welcome {
        VisitedContiguous(a, v);
        if |v.request| >= 12 {
          RequestTakesEffect(args, v.request);
        }
        EverySessionContiguous(a, visits[1..]);
        var s, rest := Visited(a, v), Served(a, visits[1..]);
        forall i | 0 <= i < |Served(args, visits)|
          ensures Contiguous(Served(args, visits)[i])
          ensures |visits[i].request| >= 12 ==> |Served(args, visits)[i].buf| == GetInt(visits[i].request, 0)
        {
          if i > 0 {
            assert Served(args, visits)[i] == rest[i - 1] && visits[i] == visits[1..][i - 1];
          }
        }
      }
    }
  }

  function Requests(visits: seq<Visit>): seq<seq<Byte>> {
    seq(|visits|, i requires 0 <= i < |visits| => visits[i].request)
  }

  /** The global after the first i requests. */
  function ArgsAt(args: Args, visits: seq<Visit>, i: nat): Args
    requires i <= |visits|
  {
    ArgsAfter(args, Requests(visits[..i]))
  }

  /** The j-th request is for a usable size, and some write of its session is refused. */
  ghost predicate RunsOut(args: Args, visits: seq<Visit>, j: nat)
    requires j < |visits|
  {
    var size := BufSize(ArgsAt(args, visits, j + 1));
    size >= SEQ_BYTES && exists k: nat :: EndsAt(visits[j].ticks, k, size)
  }

  /** All sessions before the i-th run out. */
  ghost predicate Reached(args: Args, visits: seq<Visit>, i: nat)
    requires i <= |visits|
  {
    forall j :: 0 <= j < i ==> RunsOut(args, visits, j)
  }

  lemma {:induction false} ArgsAfterFirst(args: Args, requests: seq<seq<Byte>>)
    requires requests != []
    ensures ArgsAfter(args, requests) == ArgsAfter(Received(args, requests[0]), requests[1..])
    decreases |requests|
  {
    hide Received;
    var n := |requests| - 1;
    if n == 0 {
      assert requests[..0] == [] && requests[1..] == [];
    } else {
      ArgsAfterFirst(args, requests[..n]);
      assert requests[..n][1..] == requests[1..][..n - 1];
    }
  }

  lemma ArgsAtFirst(args: Args, visits: seq<Visit>, i: nat)
    requires i < |visits|
    ensures ArgsAt(args, visits, i + 1) == ArgsAt(Received(args, visits[0].request), visits[1..], i)
  {
    hide Received, ArgsAfter;
    var all := Requests(visits[..i + 1]);
    assert all[1..] == Requests(visits[1..][..i]);
    ArgsAfterFirst(args, all);
  }

  lemma RunsOutFirst(args: Args, visits: seq<Visit>)
    requires visits != []
    ensures var a := Received(args, visits[0].request);
            RunsOut(args, visits, 0) <==>
            BufSize(a) >= SEQ_BYTES && exists k: nat :: EndsAt(visits[0].ticks, k, BufSize(a))
  {
    hide Received, BufSize, EndsAt, ArgsAt;
    ArgsAtFirst(args, visits, 0);
    NobodyBefore(Received(args, visits[0].request), visits[1..]);
  }

  lemma RunsOutLater(args: Args, visits: seq<Visit>, j: nat)
    requires j + 1 < |visits|
    ensures RunsOut(args, visits, j + 1) <==> RunsOut(Received(args, visits[0].request), visits[1..], j)
  {
    hide Received, BufSize, EndsAt, ArgsAt;
    ArgsAtFirst(args, visits, j + 1);
  }

  lemma ReachedStep(args: Args, visits: seq<Visit>, i: nat)
    requires i < |visits|
    ensures Reached(args, visits, i + 1) <==>
            RunsOut(args, visits, 0) && Reached(Received(args, visits[0].request), visits[1..], i)
  {
    hide Received, RunsOut;
    var a, rest := Received(args, visits[0].request), visits[1..];
    forall j | 0 <= j < i
      ensures RunsOut(args, visits, j + 1) <==> RunsOut(a, rest, j)
    {
      RunsOutLater(args, visits, j);
    }
    if RunsOut(args, visits, 0) && Reached(a, rest, i) {
      forall j | 0 <= j < i + 1
        ensures RunsOut(args, visits, j)
      {
        if j > 0 {
          assert RunsOut(a, rest, j - 1);
        }
      }
    }
  }

  /** Which clients are served, exactly: the i-th one if and only if its own request is for
      a usable size and every session before it ended with a refused write; and each
      session is run with the global as the requests so far have left it. */
  lemma {:induction false} ServesNext(args: Args, visits: seq<Visit>, i: nat)
    requires i < |visits|
    ensures i < |Served(args, visits)| <==>
            Reached(args, visits, i) && BufSize(ArgsAt(args, visits, i + 1)) >= SEQ_BYTES
    ensures i < |Served(args, visits)| ==>
              && Admit(ArgsAt(args, visits, i + 1)) == Welcome
              && Served(args, visits)[i] == Visited(ArgsAt(args, visits, i + 1), visits[i])
    decreases visits
  {
    hide Received, BufSize, Ran, EndsAt, Reached, ArgsAt, RunsOut;
    var v, a := visits[0], Received(args, visits[0].request);
    ArgsAtFirst(args, visits, i);
    RunsOutFirst(args, visits);
    NobodyBefore(args, visits);
    NobodyBefore(a, visits[1..]);
    if Admit(a) == Welcome {
      SessionEnds(Opened(Malloc(BufSize(a), v.heap), v.now), v.ticks);
      if i > 0 {
        ReachedStep(args, visits, i - 1);
        ServesNext(a, visits[1..], i - 1);
      }
    } else if i > 0 {
      ReachedStep(args, visits, i - 1);
    }
  }

  lemma NobodyBefore(args: Args, visits: seq<Visit>)
    ensures Reached(args, visits, 0)
    ensures ArgsAt(args, visits, 0) == args
  {
  }

  /** Every client of a list is served if and only if all the requests are for a usable
      size and every session but the last runs out. */
  lemma EveryClientServed(args: Args, visits: seq<Visit>)
    requires visits != []
    ensures |Served(args, visits)| == |visits| <==>
            && (forall j :: 0 <= j < |visits| - 1 ==> RunsOut(args, visits, j))
            && BufSize(ArgsAt(args, visits, |visits|)) >= SEQ_BYTES
  {
    hide Served, BufSize, RunsOut, Contiguous, GetInt;
    EverySessionContiguous(args, visits);
    ServesNext(args, visits, |visits| - 1);
  }

  lemma ServedFrom(args: Args, visits: seq<Visit>, i: nat)
    requires i <= |visits|
    ensures i == |visits| ==> Served(args, visits[i..]) == []
    ensures i < |visits| ==>
              var a := Received(args, visits[i].request);
              Served(args, visits[i..]) ==
              if Admit(a) != Welcome then []
              else [Visited(a, visits[i])]
                   + (if Visited(a, visits[i]).phase == Ended then Served(a, visits[i + 1..]) else [])
  {
    hide Visited, Admit, Received;
    if i < |visits| {
      assert visits[i..][1..] == visits[i + 1..];
    }
  }

  // ---------------------------------------------------------------- the process

  class Process {
    const args: array<Byte>
    const printWriteCount: bool
    var sock: Socket
    var writeBuf: array<Byte>
    var seqNum: Word
    var intervalWriteCount: Word
    var start: Timeval
    var phase: Phase
    var printed: seq<WriteReport>
    ghost var closed: seq<WriteReport>
    ghost var written: seq<Word>
    ghost var history: seq<Session>

    ghost predicate Valid()
      reads this, sock
    {
      args.Length == 24 && writeBuf.Length >= SEQ_BYTES && writeBuf != args && sock.mode == Datagram
    }

    ghost function Abs(): Session
      reads this, writeBuf, sock
    {
      Session(phase, writeBuf[..], seqNum, intervalWriteCount, start, closed, written, sock.wire)
    }

    constructor (printWriteCount: bool)
      ensures Valid() && fresh(args) && fresh(sock) && fresh(writeBuf)
      ensures args[..] == Zeroed() && this.printWriteCount == printWriteCount
      ensures history == [] && printed == []
    {
      var none := new Socket(Datagram, [], []);
      sock := none;
      args := new Byte[24](_ => 0);
      writeBuf := new Byte[8](_ => 0);
      this.printWriteCount := printWriteCount;
      seqNum, intervalWriteCount, start, phase := 0, 0, Timeval(0, 0), Ended;
      printed, closed, written, history := [], [], [], [];
    }

    static method Allocate(n: nat, heap: nat -> Byte) returns (buf: array<Byte>)
      ensures fresh(buf) && buf[..] == Malloc(n, heap)
    {
      buf := new Byte[n];
      forall i | 0 <= i < n {
        buf[i] := heap(i);
      }
    }

    method RecvFrom(request: seq<Byte>)
      requires args.Length == 24
      modifies args
      ensures args[..] == Received(old(args[..]), request)
    {
      var n := if |request| <= 24 then |request| else 24;
      forall i | 0 <= i < n {
        args[i] := request[i];
      }
    }

    /** recvfrom, malloc, and the initialisations before the send loop. */
    method Begin(v: Visit) returns (admission: Admission)
      requires Valid()
      modifies this, args
      ensures args[..] == Received(old(args[..]), v.request)
      ensures admission == Admit(args[..]) && Valid()
      ensures history == old(history) && printed == old(printed)
      ensures admission != Welcome ==> sock == old(sock) && writeBuf == old(writeBuf)
      ensures admission == Welcome ==>
                && fresh(sock) && fresh(writeBuf)
                && Abs() == Opened(Malloc(BufSize(args[..]), v.heap), v.now)
    {
      hide GetInt, Received;
      RecvFrom(v.request);
      admission := Admit(args[..]);
      if admission == Welcome {
        var writeBufSize := BufSize(args[..]);
        sock := new Socket(Datagram, [], []);
        writeBuf := Allocate(writeBufSize, v.heap);
        seqNum, intervalWriteCount, start, phase := 0, 0, v.now, Sending;
        closed, written := [], [];
      }
    }

    /** `*long_p = seq_num`. */
    static method Store(buf: array<Byte>, seqNum: Word)
      requires buf.Length >= SEQ_BYTES
      modifies buf
      ensures buf[..] == Stamp(seqNum, old(buf[..]))
    {
      var stamp := Encode(seqNum, 8);
      forall i | 0 <= i < 8 {
        buf[i] := stamp[i];
      }
    }

    /** One turn of the send loop. */
    method Turn(t: Tick)
      requires Valid() && phase == Sending
      modifies this`seqNum, this`intervalWriteCount, this`phase, this`printed, this`closed, this`written
      modifies writeBuf, sock
      ensures Valid() && Abs() == Ticked(old(Abs()), t)
      ensures printed == old(printed) + (if printWriteCount then closed[|old(closed)|..] else [])
    {
      hide Emit, Stamp, Wrap;
      sock.replies := t.replies;
      if t.alarmed {
        var elapsed := TimerSub(t.now, start);
        if printWriteCount {
          printed := printed + [WriteReport(elapsed, intervalWriteCount)];
        }
        closed := closed + [WriteReport(elapsed, intervalWriteCount)];
        intervalWriteCount := 0;
      }
      Store(writeBuf, seqNum);
      var m := Writen(sock, writeBuf, writeBuf.Length);
      assert writeBuf[..writeBuf.Length] == writeBuf[..];
      match m
      case Returned =>
        written := written + [seqNum];
        seqNum := Add(seqNum, 1);
        intervalWriteCount := Add(intervalWriteCount, 1);
      case Failed => phase := Ended;
      case Blocked => phase := InWrite;
    }

    /** The send loop. */
    method Send(ticks: seq<Tick>)
      requires Valid() && phase == Sending
      modifies this`seqNum, this`intervalWriteCount, this`phase, this`printed, this`closed, this`written
      modifies writeBuf, sock
      ensures Valid() && Abs() == Ran(old(Abs()), ticks)
      ensures old(closed) <= closed
      ensures printed == old(printed) + (if printWriteCount then closed[|old(closed)|..] else [])
    {
      hide Ticked;
      var i := 0;
      while i < |ticks| && phase == Sending
        invariant 0 <= i <= |ticks| && Valid()
        invariant old(closed) <= closed
        invariant printed == old(printed) + (if printWriteCount then closed[|old(closed)|..] else [])
        invariant Ran(Abs(), ticks[i..]) == Ran(old(Abs()), ticks)
      {
        Turn(ticks[i]);
        assert ticks[i..][1..] == ticks[i + 1..];
        i := i + 1;
      }
    }

    /** One turn of the outer loop. */
    method ServeOne(v: Visit) returns (again: bool)
      requires Valid()
      modifies this, args, sock, writeBuf
      ensures Valid() && (fresh(sock) || sock == old(sock)) && (fresh(writeBuf) || writeBuf == old(writeBuf))
      ensures args[..] == Received(old(args[..]), v.request)
      ensures Admit(args[..]) != Welcome ==> !again && history == old(history)
      ensures Admit(args[..]) == Welcome ==>
                && history == old(history) + [Visited(args[..], v)]
                && again == (Visited(args[..], v).phase == Ended)
      ensures printed == old(printed) + (if printWriteCount && Admit(args[..]) == Welcome
                                         then Visited(args[..], v).closed else [])
    {
      hide Ran, Received, Malloc, BufSize, Admit;
      var admission := Begin(v);
      if admission != Welcome {
        return false;
      }
      Send(v.ticks);
      history := history + [Abs()];
      return phase == Ended;
    }

    /** The outer loop. */
    method Serve(visits: seq<Visit>)
      requires Valid()
      modifies this, args, sock, writeBuf
      ensures history == old(history) + Served(old(args[..]), visits)
      ensures printed == old(printed) + (if printWriteCount then AllClosed(Served(old(args[..]), visits)) else [])
    {
      hide Visited, Received, Admit, Served, AllClosed;
      EmptyClosed();
      var i := 0;
      ghost var before := args[..];
      assert visits[0..] == visits;
      while i < |visits|
        invariant 0 <= i <= |visits| && Valid()
        invariant fresh(sock) || sock == old(sock)
        invariant fresh(writeBuf) || writeBuf == old(writeBuf)
        invariant history + Served(args[..], visits[i..]) == old(history) + Served(before, visits)
        invariant printWriteCount ==> printed + AllClosed(Served(args[..], visits[i..]))
                                      == old(printed) + AllClosed(Served(before, visits))
        invariant !printWriteCount ==> printed == old(printed)
      {
        ServedFrom(args[..], visits, i);
        ghost var a := Received(args[..], visits[i].request);
        if Admit(a) == Welcome {
          AllClosedStep(Visited(a, visits[i]), if Visited(a, visits[i]).phase == Ended then Served(a, visits[i + 1..]) else []);
        }
        var again := ServeOne(visits[i]);
        if !again {
          return;
        }
        i := i + 1;
      }
      ServedFrom(args[..], visits, i);
    }
  }
}
