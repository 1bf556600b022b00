/** udp-mmsg-trend: recvmmsg refills a vector of message headers that is allocated once,
    and a loop accounts for the slots that were filled. */
module MmsgClient {
  import opened Word64
  import opened Bytes
  import opened Sockets
  import opened Timeval
  import opened Meter
  import Ledger
  import TrendClient

  /** A message header with its buffer: `base` keeps old bytes behind the newest datagram. */
  datatype Slot = Slot(base: seq<Byte>, len: nat)

  /** One turn of the loop: the clock and what recvmmsg returned. */
  datatype Turn = Batch(now: Timeval, datagrams: seq<seq<Byte>>) | CallFailed(now: Timeval)

  /** `calls` counts the recvmmsg calls made, and `closedAt` the calls made before each report. */
  datatype Mmsg = Mmsg(running: bool, slots: seq<Slot>, recvmmsgCount: Word, meter: Meter,
                       calls: nat, closedAt: seq<nat>)

  ghost predicate Sized(slots: seq<Slot>, bufsize: nat) {
    bufsize >= SEQ_BYTES && forall i :: 0 <= i < |slots| ==> |slots[i].base| == bufsize
  }

  /** The kernel never fills more slots than it was given. */
  ghost predicate Fits(turns: seq<Turn>, vlen: nat) {
    forall i :: 0 <= i < |turns| && turns[i].Batch? ==> |turns[i].datagrams| <= vlen
  }

  function Taken(s: Slot, d: seq<Byte>): (r: Slot)
    ensures |r.base| == |s.base|
  {
    var k := if |d| <= |s.base| then |d| else |s.base|;
    Slot(Overwrite(s.base, d[..k]), k)
  }

  function Filled(slots: seq<Slot>, ds: seq<seq<Byte>>): (r: seq<Slot>)
    requires |ds| <= |slots|
    ensures |r| == |slots|
    ensures forall i :: 0 <= i < |r| ==> r[i] == if i < |ds| then Taken(slots[i], ds[i]) else slots[i]
  {
    seq(|slots|, i requires 0 <= i < |slots| => if i < |ds| then Taken(slots[i], ds[i]) else slots[i])
  }

  function FoldSlots(m: Meter, slots: seq<Slot>): Meter
    requires forall i :: 0 <= i < |slots| ==> |slots[i].base| >= SEQ_BYTES
    decreases slots
  {
    if slots == [] then m
    else FoldSlots(Accounted(m, slots[0].len, GetSeqNum(slots[0].base)), slots[1..])
  }

  function AtTop(c: Mmsg, now: Timeval): Mmsg {
    if c.recvmmsgCount % 1000 == 0 then
      c.(meter := Reported(c.meter, now), closedAt := c.closedAt + [c.calls])
    else c
  }

  function Refilled(c: Mmsg, ds: seq<seq<Byte>>): (r: Mmsg)
    requires forall i :: 0 <= i < |c.slots| ==> |c.slots[i].base| >= SEQ_BYTES
    requires |ds| <= |c.slots|
    ensures |r.slots| == |c.slots|
    ensures forall i :: 0 <= i < |r.slots| ==> |r.slots[i].base| == |c.slots[i].base|
  {
    var slots := Filled(c.slots, ds);
    c.(slots := slots, meter := FoldSlots(c.meter, slots[..|ds|]),
       recvmmsgCount := Add(c.recvmmsgCount, 1), calls := c.calls + 1)
  }

  function Turned(c: Mmsg, t: Turn): (r: Mmsg)
    requires forall i :: 0 <= i < |c.slots| ==> |c.slots[i].base| >= SEQ_BYTES
    requires t.Batch? ==> |t.datagrams| <= |c.slots|
    ensures |r.slots| == |c.slots|
    ensures forall i :: 0 <= i < |r.slots| ==> |r.slots[i].base| == |c.slots[i].base|
  {
    if !c.running then c else
    var a := AtTop(c, t.now);
    match t
    case CallFailed(_) => a.(running := false)
    case Batch(_, ds) => Refilled(a, ds)
  }

  function Ran(c: Mmsg, turns: seq<Turn>): Mmsg
    requires forall i :: 0 <= i < |c.slots| ==> |c.slots[i].base| >= SEQ_BYTES
    requires Fits(turns, |c.slots|)
    decreases turns
  {
    if turns == [] || !c.running then c else Ran(Turned(c, turns[0]), turns[1..])
  }

  function Started(vlen: nat, bufsize: nat, now: Timeval): (c: Mmsg)
    ensures |c.slots| == vlen
  {
    Mmsg(true, seq(vlen, _ => Slot(seq(bufsize, _ => 0), 0)), 1, Fresh(now), 0, [])
  }

  // ---------------------------------------------------------------- refinement

  function Received(turns: seq<Turn>): seq<seq<Byte>> {
    if turns == [] then []
    else (if turns[0].Batch? then turns[0].datagrams else []) + Received(turns[1..])
  }

  lemma {:induction false} OneByOneSplit(t: Totals, a: seq<seq<Byte>>, b: seq<seq<Byte>>, size: nat)
    requires AllAtLeast(a, SEQ_BYTES) && AllAtLeast(b, SEQ_BYTES)
    ensures AllAtLeast(a + b, SEQ_BYTES)
    ensures TrendClient.OneByOne(t, a + b, size) == TrendClient.OneByOne(TrendClient.OneByOne(t, a, size), b, size)
    decreases a
  {
    if a == [] {
      assert a + b == b;
    } else {
      assert (a + b)[1..] == a[1..] + b;
      OneByOneSplit(Counted(t, TrendClient.Stored(a[0], size), GetSeqNum(a[0])), a[1..], b, size);
    }
  }

  /** Stale bytes do not matter: from eight bytes on, a filled slot yields its datagram's
      own number and stored length, whatever the slot still holds behind them. */
  lemma {:induction false} FoldIsOneByOne(m: Meter, slots: seq<Slot>, ds: seq<seq<Byte>>, bufsize: nat)
    requires Sized(slots, bufsize) && |ds| <= |slots| && AllAtLeast(ds, SEQ_BYTES)
    ensures FoldSlots(m, Filled(slots, ds)[..|ds|]).totals == TrendClient.OneByOne(m.totals, ds, bufsize)
    decreases ds
  {
    hide GetSeqNum;
    if ds != [] {
      var first := Filled(slots, ds)[..|ds|];
      TakenNumber(slots[0], ds[0], bufsize);
      assert first[0] == Taken(slots[0], ds[0]);
      assert first[1..] == Filled(slots[1..], ds[1..])[..|ds| - 1];
      FoldIsOneByOne(Accounted(m, first[0].len, GetSeqNum(ds[0])), slots[1..], ds[1..], bufsize);
    }
  }

  lemma TakenNumber(s: Slot, d: seq<Byte>, bufsize: nat)
    requires |s.base| == bufsize >= SEQ_BYTES && |d| >= SEQ_BYTES
    ensures Taken(s, d).len == TrendClient.Stored(d, bufsize)
    ensures GetSeqNum(Taken(s, d).base) == GetSeqNum(d)
  {
    assert Taken(s, d).base[..8] == d[..8];
  }

  /** Below eight bytes the number is made up with what the slot held before. */
  lemma StaleBytesShow(s: Slot, d: seq<Byte>)
    requires |d| < SEQ_BYTES <= |s.base|
    ensures Taken(s, d).len == |d| && GetSeqNum(Taken(s, d).base) == Decode(d + s.base[|d|..8])
  {
    hide Decode, Taken, Overwrite;
    TakenWhole(s, d);
    FrontOf(s.base, d, 8);
  }

  lemma TakenWhole(s: Slot, d: seq<Byte>)
    requires |d| <= |s.base|
    ensures Taken(s, d) == Slot(Overwrite(s.base, d), |d|)
  {
    assert d[..|d|] == d;
  }

  lemma FrontOf(buf: seq<Byte>, d: seq<Byte>, n: nat)
    requires |d| <= n <= |buf|
    ensures Overwrite(buf, d)[..n] == d + buf[|d|..n]
  {
  }

  /** However the stream is cut into batches, the totals are those of one datagram after
      the other, each counting what the buffer holds of it. */
  lemma {:induction false} RunIsOneByOne(c: Mmsg, turns: seq<Turn>, bufsize: nat)
    requires c.running && Sized(c.slots, bufsize) && Fits(turns, |c.slots|)
    requires forall i :: 0 <= i < |turns| ==> turns[i].Batch?
    requires AllAtLeast(Received(turns), SEQ_BYTES)
    ensures Ran(c, turns).meter.totals == TrendClient.OneByOne(c.meter.totals, Received(turns), bufsize)
    decreases turns
  {
    hide GetSeqNum, FoldSlots, Counted, Filled;
    if turns != [] {
      var ds, rest := turns[0].datagrams, Received(turns[1..]);
      assert Received(turns) == ds + rest;
      BothAtLeast(ds, rest, SEQ_BYTES);
      FoldIsOneByOne(AtTop(c, turns[0].now).meter, c.slots, ds, bufsize);
      OneByOneSplit(c.meter.totals, ds, rest, bufsize);
      RunIsOneByOne(Turned(c, turns[0]), turns[1..], bufsize);
    }
  }

  lemma BothAtLeast(a: seq<seq<Byte>>, b: seq<seq<Byte>>, n: nat)
    requires AllAtLeast(a + b, n)
    ensures AllAtLeast(a, n) && AllAtLeast(b, n)
  {
    assert forall i :: 0 <= i < |a| ==> a[i] == (a + b)[i];
    assert forall i :: 0 <= i < |b| ==> b[i] == (a + b)[|a| + i];
  }

  lemma {:induction false} FoldLogsEach(m: Meter, slots: seq<Slot>)
    requires forall i :: 0 <= i < |slots| ==> |slots[i].base| >= SEQ_BYTES
    ensures |FoldSlots(m, slots).totals.log| == |m.totals.log| + |slots|
    decreases slots
  {
    hide GetSeqNum;
    if slots != [] {
      FoldLogsEach(Accounted(m, slots[0].len, GetSeqNum(slots[0].base)), slots[1..]);
    }
  }

  /** The batched receiver logs every datagram, of whatever length. */
  lemma {:induction false} RunLogsEach(c: Mmsg, turns: seq<Turn>)
    requires c.running && Fits(turns, |c.slots|)
    requires forall i :: 0 <= i < |c.slots| ==> |c.slots[i].base| >= SEQ_BYTES
    requires forall i :: 0 <= i < |turns| ==> turns[i].Batch?
    ensures |Ran(c, turns).meter.totals.log| == |c.meter.totals.log| + |Received(turns)|
    decreases turns
  {
    hide GetSeqNum, FoldSlots;
    if turns != [] {
      var ds := turns[0].datagrams;
      FoldLogsEach(AtTop(c, turns[0].now).meter, Filled(c.slots, ds)[..|ds|]);
      RunLogsEach(Turned(c, turns[0]), turns[1..]);
    }
  }

  /** The two receivers, started alike, on the same nonempty datagrams: a batched run over
      all of them and a single run of as many turns. */
  ghost predicate SameStream(c: Mmsg, turns: seq<Turn>, s: TrendClient.Trend, singles: seq<TrendClient.Turn>) {
    && c.running && Sized(c.slots, s.bufsize) && Fits(turns, |c.slots|)
    && (forall i :: 0 <= i < |turns| ==> turns[i].Batch?)
    && s.Valid() && s.progress == TrendClient.Running && FullDatagrams(s.pending, 1)
    && Datagrams(s.pending) == Received(turns) && |singles| == |Received(turns)|
    && c.meter.totals == s.meter.totals
  }

  lemma LongDatagramsAgree(c: Mmsg, turns: seq<Turn>, s: TrendClient.Trend, singles: seq<TrendClient.Turn>)
    requires SameStream(c, turns, s, singles) && AllAtLeast(Received(turns), s.bufsize)
    ensures Ran(c, turns).meter.totals == TrendClient.Ran(s, singles).meter.totals
  {
    hide GetSeqNum, Ran, TrendClient.Ran;
    LongIsFull(s.pending, 1, s.bufsize);
    RunIsOneByOne(c, turns, s.bufsize);
    TrendClient.RunIsOneByOne(s, singles);
    assert Datagrams(s.pending)[..|singles|] == Received(turns);
  }

  /** Batch refinement, exactly: over the same nonempty datagrams the batched and the
      one-at-a-time receiver agree in bytes, drops, expected counter and log if and only if
      no datagram is shorter than the buffer, whatever the batches, the stale slots, the
      interrupts and the alarms. */
  lemma BatchRefinesSingle(c: Mmsg, turns: seq<Turn>, s: TrendClient.Trend, singles: seq<TrendClient.Turn>)
    requires SameStream(c, turns, s, singles)
    ensures Ran(c, turns).meter.totals == TrendClient.Ran(s, singles).meter.totals
            <==> AllAtLeast(Received(turns), s.bufsize)
  {
    hide Ran, TrendClient.Ran;
    if AllAtLeast(Received(turns), s.bufsize) {
      LongDatagramsAgree(c, turns, s, singles);
    } else {
      TrendClient.ShortDatagramsLogFewer(s, singles);
      RunLogsEach(c, turns);
    }
  }

  /** The two printed counters alone give the difference away: with fewer than 2^64
      datagrams they agree if and only if no datagram is shorter than the buffer. */
  lemma CountersAgreeIff(c: Mmsg, turns: seq<Turn>, s: TrendClient.Trend, singles: seq<TrendClient.Turn>)
    requires SameStream(c, turns, s, singles) && |Received(turns)| < TWO64
    requires Balanced(c.meter) && TrendClient.Sound(s)
    ensures Ran(c, turns).meter.totals.ledger == TrendClient.Ran(s, singles).meter.totals.ledger
            <==> AllAtLeast(Received(turns), s.bufsize)
  {
    hide Ran, TrendClient.Ran;
    BatchRefinesSingle(c, turns, s, singles);
    if !AllAtLeast(Received(turns), s.bufsize) {
      TrendClient.ShortDatagramsLogFewer(s, singles);
      RunLogsEach(c, turns);
      RanBalanced(c, turns);
      TrendClient.RanSound(s, singles);
      LengthShows(Ran(c, turns).meter, TrendClient.Ran(s, singles).meter);
    }
  }

  /** Ledgers of logs whose lengths differ by less than 2^64 differ. */
  lemma LengthShows(a: Meter, b: Meter)
    requires Balanced(a) && Balanced(b)
    requires 0 < |a.totals.log| - |b.totals.log| < TWO64
    ensures a.totals.ledger != b.totals.ledger
  {
    hide Ledger.Replay;
    var x, y := a.totals.log, b.totals.log;
    Ledger.Conservation(x);
    Ledger.Conservation(y);
    WrapSeparates(|x| + a.totals.ledger.drops, |y| + a.totals.ledger.drops);
  }

  /** The smallest case: two datagrams that only together fill the buffer are two numbers
      to recvmmsg, and a single one to `readn`. */
  lemma ShortDatagramsDiffer(c: Mmsg, t: Turn, s: TrendClient.Trend, u: TrendClient.Turn, a: seq<Byte>, b: seq<Byte>)
    requires c.running && |c.slots| >= 2 && Sized(c.slots, s.bufsize) && t.Batch? && t.datagrams == [a, b]
    requires s.Valid() && s.progress == TrendClient.Running && s.pending == [Data(a), Data(b)]
    requires a != [] && b != [] && |a| + |b| == s.bufsize
    ensures |Turned(c, t).meter.totals.log| == |c.meter.totals.log| + 2
    ensures |TrendClient.Turned(s, u).meter.totals.log| == |s.meter.totals.log| + 1
    ensures TrendClient.Turned(s, u).pending == []
  {
    hide GetSeqNum, FoldSlots;
    FoldLogsEach(AtTop(c, t.now).meter, Filled(c.slots, [a, b])[..2]);
    TwoGlued(a, b);
  }

  // ---------------------------------------------------------------- every run

  lemma {:induction false} FoldBalanced(m: Meter, slots: seq<Slot>)
    requires Balanced(m)
    requires forall i :: 0 <= i < |slots| ==> |slots[i].base| >= SEQ_BYTES
    ensures Balanced(FoldSlots(m, slots))
    decreases slots
  {
    hide Balanced, GetSeqNum;
    if slots != [] {
      AccountedBalanced(m, slots[0].len, GetSeqNum(slots[0].base));
      FoldBalanced(Accounted(m, slots[0].len, GetSeqNum(slots[0].base)), slots[1..]);
    }
  }

  /** The count-based reports lose nothing either. */
  lemma {:induction false} RanBalanced(c: Mmsg, turns: seq<Turn>)
    requires forall i :: 0 <= i < |c.slots| ==> |c.slots[i].base| >= SEQ_BYTES
    requires Fits(turns, |c.slots|) && Balanced(c.meter)
    ensures Balanced(Ran(c, turns).meter)
    decreases turns
  {
    hide Balanced, GetSeqNum, FoldSlots;
    if turns != [] && c.running {
      ReportedBalanced(c.meter, turns[0].now);
      if turns[0].Batch? {
        FoldBalanced(AtTop(c, turns[0].now).meter, Filled(c.slots, turns[0].datagrams)[..|turns[0].datagrams|]);
      }
      RanBalanced(Turned(c, turns[0]), turns[1..]);
    }
  }

  // ---------------------------------------------------------------- when reports are made

  /** The j-th report (from zero) is made with 1000 * (j + 1) - 1 calls behind it. */
  ghost predicate OnSchedule(c: Mmsg) {
    && c.recvmmsgCount == Wrap(c.calls + 1)
    && |c.meter.reports| == |c.closedAt| == c.calls / 1000
    && forall j :: 0 <= j < |c.closedAt| ==> c.closedAt[j] == 1000 * (j + 1) - 1
  }

  lemma {:induction false} FoldKeepsReports(m: Meter, slots: seq<Slot>)
    requires forall i :: 0 <= i < |slots| ==> |slots[i].base| >= SEQ_BYTES
    ensures FoldSlots(m, slots).reports == m.reports
    decreases slots
  {
    if slots != [] {
      FoldKeepsReports(Accounted(m, slots[0].len, GetSeqNum(slots[0].base)), slots[1..]);
    }
  }

  lemma {:induction false} RanOnSchedule(c: Mmsg, turns: seq<Turn>)
    requires c.running && OnSchedule(c) && Fits(turns, |c.slots|)
    requires forall i :: 0 <= i < |c.slots| ==> |c.slots[i].base| >= SEQ_BYTES
    requires forall i :: 0 <= i < |turns| ==> turns[i].Batch?
    requires c.calls + |turns| + 1 < TWO64
    ensures var r := Ran(c, turns); r.running && r.calls == c.calls + |turns| && OnSchedule(r)
    decreases turns
  {
    hide GetSeqNum, FoldSlots, Wrap;
    if turns != [] {
      var ds := turns[0].datagrams;
      FoldKeepsReports(AtTop(c, turns[0].now).meter, Filled(c.slots, ds)[..|ds|]);
      WrapWord(c.calls + 1);
      WrapWord(c.calls + 2);
      RanOnSchedule(Turned(c, turns[0]), turns[1..]);
    }
  }

  /** Report schedule: the first report covers 999 calls and every later one 1000. After k
      calls, counting the check at the loop top that follows, (k + 1) / 1000 have been made. */
  lemma ReportSchedule(vlen: nat, bufsize: nat, start: Timeval, turns: seq<Turn>, now: Timeval)
    requires bufsize >= SEQ_BYTES && Fits(turns, vlen)
    requires forall i :: 0 <= i < |turns| ==> turns[i].Batch?
    requires |turns| + 1 < TWO64
    ensures var c := AtTop(Ran(Started(vlen, bufsize, start), turns), now);
            && |c.meter.reports| == |c.closedAt| == (|turns| + 1) / 1000
            && (|c.closedAt| > 0 ==> c.closedAt[0] == 999)
            && (forall j :: 0 < j < |c.closedAt| ==> c.closedAt[j] == c.closedAt[j - 1] + 1000)
  {
    hide Ran, Wrap;
    var s := Started(vlen, bufsize, start);
    WrapWord(1);
    RanOnSchedule(s, turns);
    WrapWord(|turns| + 1);
  }

  lemma {:induction false} RanAppend(c: Mmsg, turns: seq<Turn>, t: Turn)
    requires forall i :: 0 <= i < |c.slots| ==> |c.slots[i].base| >= SEQ_BYTES
    requires Fits(turns, |c.slots|) && (t.Batch? ==> |t.datagrams| <= |c.slots|)
    ensures Fits(turns + [t], |c.slots|)
    ensures |Ran(c, turns).slots| == |c.slots|
    ensures forall i :: 0 <= i < |c.slots| ==> |Ran(c, turns).slots[i].base| == |c.slots[i].base|
    ensures Ran(c, turns + [t]) == Turned(Ran(c, turns), t)
    decreases turns
  {
    hide FoldSlots;
    if turns == [] || !c.running {
      assert turns == [] ==> (turns + [t])[1..] == [];
    } else {
      assert (turns + [t])[1..] == turns[1..] + [t];
      RanAppend(Turned(c, turns[0]), turns[1..], t);
    }
  }

  /** The turns up to the first failed call. */
  function Batches(turns: seq<Turn>): (b: seq<Turn>)
    ensures b <= turns && forall i :: 0 <= i < |b| ==> b[i].Batch?
    ensures |b| < |turns| ==> turns[|b|].CallFailed?
  {
    if turns == [] || turns[0].CallFailed? then [] else [turns[0]] + Batches(turns[1..])
  }

  /** The turns that a run begins. */
  function Begun(turns: seq<Turn>): (e: nat)
    ensures e <= |turns|
  {
    var b := |Batches(turns)|;
    if b < |turns| then b + 1 else b
  }

  lemma {:induction false} BatchesAppend(turns: seq<Turn>, t: Turn)
    ensures Batches(turns + [t]) == if Batches(turns) == turns && t.Batch? then turns + [t] else Batches(turns)
    decreases turns
  {
    if turns == [] {
      assert [t][1..] == [];
    } else if turns[0].Batch? {
      assert (turns + [t])[1..] == turns[1..] + [t];
      BatchesAppend(turns[1..], t);
      assert turns == [turns[0]] + turns[1..];
    }
  }

  lemma {:induction false} ReceivedAppend(turns: seq<Turn>, t: Turn)
    ensures Received(turns + [t]) == Received(turns) + (if t.Batch? then t.datagrams else [])
    decreases turns
  {
    if turns == [] {
      assert [t][1..] == [];
    } else {
      assert (turns + [t])[1..] == turns[1..] + [t];
      ReceivedAppend(turns[1..], t);
    }
  }

  /** The clocks of turns 999, 1999, ..., n of them, ... */
  function DueClocks(turns: seq<Turn>, n: nat): (ts: seq<Timeval>)
    requires 1000 * n <= |turns|
    ensures |ts| == n
  {
    seq(n, j requires 0 <= j < n => turns[1000 * j + 999].now)
  }

  /** ... and how many datagrams came before each. */
  function DueCuts(turns: seq<Turn>, n: nat): (ns: seq<nat>)
    requires 1000 * n <= |turns|
    ensures |ns| == n
  {
    seq(n, j requires 0 <= j < n => |Received(turns[..1000 * j + 999])|)
  }

  lemma DueAppend(turns: seq<Turn>, t: Turn, n: nat)
    requires 1000 * n <= |turns|
    ensures DueClocks(turns + [t], n) == DueClocks(turns, n) && DueCuts(turns + [t], n) == DueCuts(turns, n)
    ensures |turns| == 1000 * n + 999 ==>
              && DueClocks(turns + [t], n + 1) == DueClocks(turns, n) + [t.now]
              && DueCuts(turns + [t], n + 1) == DueCuts(turns, n) + [|Received(turns)|]
  {
    hide Received;
    forall j | 0 <= j < n
      ensures (turns + [t])[..1000 * j + 999] == turns[..1000 * j + 999]
    {
    }
    assert (turns + [t])[..|turns|] == turns;
  }

  lemma WhenDue(k: nat)
    ensures (k + 1) / 1000 == k / 1000 + (if (k + 1) % 1000 == 0 then 1 else 0)
    ensures (k + 1) % 1000 == 0 ==> k == 1000 * (k / 1000) + 999
    ensures 1000 * (k / 1000) <= k
  {
  }

  /** What a run of the receiver on `turns` has printed: the j-th report (from zero) is that
      of turn 1000 * j + 999 if the run gets there. Its times are those of that turn's clock,
      and it covers exactly the datagrams since the report before. */
  ghost predicate Reporting(r: Mmsg, start: Timeval, turns: seq<Turn>) {
    && r.meter.start == start
    && 1000 * (Begun(turns) / 1000) <= |turns|
    && Told(r.meter, DueClocks(turns, Begun(turns) / 1000), DueCuts(turns, Begun(turns) / 1000))
  }

  /** Reports and failure, whatever the calls return: the reports are as described, and a
      failed call ends the run for good and counts nothing. */
  lemma {:induction false} ReportsAndFailure(vlen: nat, bufsize: nat, start: Timeval, turns: seq<Turn>)
    requires bufsize >= SEQ_BYTES && Fits(turns, vlen) && |turns| < TWO64
    ensures var r := Ran(Started(vlen, bufsize, start), turns);
            && (r.running <==> forall i :: 0 <= i < |turns| ==> turns[i].Batch?)
            && |r.meter.totals.log| == |Received(Batches(turns))|
            && r.recvmmsgCount == Wrap(|Batches(turns)| + 1)
            && Reporting(r, start, turns)
    decreases |turns|
  {
    hide Ran, FoldSlots, Received, Wrap, Turned, Reporting, Balanced, Batches;
    var c := Started(vlen, bufsize, start);
    if turns == [] {
      NothingYetTold(vlen, bufsize, start);
    } else {
      var init, t := turns[..|turns| - 1], turns[|turns| - 1];
      assert turns == init + [t];
      ReportsAndFailure(vlen, bufsize, start, init);
      RanAppend(c, init, t);
      BatchesAppend(init, t);
      var r := Ran(c, init);
      if r.running {
        AllBatches(init);
        StartedBalanced(vlen, bufsize, start, init);
        ReceivedAppend(init, t);
        TurnReports(r, start, init, t);
      } else {
        StoppedReports(r, start, init, t);
      }
    }
  }

  lemma AllBatches(turns: seq<Turn>)
    requires forall i :: 0 <= i < |turns| ==> turns[i].Batch?
    ensures Batches(turns) == turns && Begun(turns) == |turns|
  {
    hide Batches;
  }

  lemma TurnReports(r: Mmsg, start: Timeval, init: seq<Turn>, t: Turn)
    requires r.running && Balanced(r.meter) && Reporting(r, start, init) && |init| + 1 < TWO64
    requires Batches(init) == init && r.recvmmsgCount == Wrap(|init| + 1)
    requires |r.meter.totals.log| == |Received(init)|
    requires forall i :: 0 <= i < |r.slots| ==> |r.slots[i].base| >= SEQ_BYTES
    requires t.Batch? ==> |t.datagrams| <= |r.slots|
    ensures var m := Turned(r, t);
            && Reporting(m, start, init + [t]) && m.running == t.Batch?
            && |m.meter.totals.log| == |Received(init)| + (if t.Batch? then |t.datagrams| else 0)
            && m.recvmmsgCount == Wrap(if t.Batch? then |init| + 2 else |init| + 1)
  {
    hide Told, Turned, Received, Balanced, DueClocks, DueCuts, Wrap, Batches;
    var k := |init|;
    WrapWord(k + 1);
    WrapAdd(k + 1, 1);
    BatchesAppend(init, t);
    WhenDue(k);
    DueAppend(init, t, k / 1000);
    TurnTold(r, t, DueClocks(init, k / 1000), DueCuts(init, k / 1000));
  }

  lemma StoppedReports(r: Mmsg, start: Timeval, init: seq<Turn>, t: Turn)
    requires !r.running && Reporting(r, start, init) && Batches(init) != init
    requires forall i :: 0 <= i < |r.slots| ==> |r.slots[i].base| >= SEQ_BYTES
    requires t.Batch? ==> |t.datagrams| <= |r.slots|
    ensures Turned(r, t) == r && Reporting(r, start, init + [t])
  {
    hide Told, Received, DueClocks, DueCuts, Batches;
    BatchesAppend(init, t);
    WhenDue(Begun(init));
    DueAppend(init, t, Begun(init) / 1000);
  }

  lemma NothingYetTold(vlen: nat, bufsize: nat, start: Timeval)
    requires bufsize >= SEQ_BYTES
    ensures var c := Started(vlen, bufsize, start);
            && Ran(c, []) == c && |Received([])| == 0 && c.recvmmsgCount == Wrap(1) && Reporting(c, start, [])
  {
    FreshTold(start);
  }

  lemma StartedBalanced(vlen: nat, bufsize: nat, start: Timeval, turns: seq<Turn>)
    requires bufsize >= SEQ_BYTES && Fits(turns, vlen)
    ensures Balanced(Ran(Started(vlen, bufsize, start), turns).meter)
  {
    FreshBalanced(start);
    RanBalanced(Started(vlen, bufsize, start), turns);
  }

  lemma {:induction false} FoldTold(m: Meter, slots: seq<Slot>, clocks: seq<Timeval>, cuts: seq<nat>)
    requires Balanced(m) && Told(m, clocks, cuts)
    requires forall i :: 0 <= i < |slots| ==> |slots[i].base| >= SEQ_BYTES
    ensures Told(FoldSlots(m, slots), clocks, cuts) && FoldSlots(m, slots).start == m.start
    decreases slots
  {
    hide Told, GetSeqNum, Ledger.Replay, SumSizes, Wrap;
    if slots != [] {
      var seqNum := GetSeqNum(slots[0].base);
      AccountedBalanced(m, slots[0].len, seqNum);
      AccountedTold(m, slots[0].len, seqNum, clocks, cuts);
      FoldTold(Accounted(m, slots[0].len, seqNum), slots[1..], clocks, cuts);
    }
  }

  lemma TurnTold(c: Mmsg, t: Turn, clocks: seq<Timeval>, cuts: seq<nat>)
    requires c.running && Balanced(c.meter) && Told(c.meter, clocks, cuts)
    requires forall i :: 0 <= i < |c.slots| ==> |c.slots[i].base| >= SEQ_BYTES
    requires t.Batch? ==> |t.datagrams| <= |c.slots|
    ensures var r, due := Turned(c, t), c.recvmmsgCount % 1000 == 0;
            && r.meter.start == c.meter.start && r.running == t.Batch?
            && |r.meter.totals.log| == |c.meter.totals.log| + (if t.Batch? then |t.datagrams| else 0)
            && r.recvmmsgCount == (if t.Batch? then Add(c.recvmmsgCount, 1) else c.recvmmsgCount)
            && Told(r.meter, if due then clocks + [t.now] else clocks,
                    if due then cuts + [|c.meter.totals.log|] else cuts)
  {
    hide Told, FoldSlots, GetSeqNum, Filled, Balanced;
    ReportedTold(c.meter, t.now, clocks, cuts);
    ReportedBalanced(c.meter, t.now);
    if t.Batch? {
      var a, due := AtTop(c, t.now), c.recvmmsgCount % 1000 == 0;
      var first := Filled(c.slots, t.datagrams)[..|t.datagrams|];
      FoldLogsEach(a.meter, first);
      FoldTold(a.meter, first, if due then clocks + [t.now] else clocks,
               if due then cuts + [|c.meter.totals.log|] else cuts);
    }
  }

  // ---------------------------------------------------------------- the process

  class MsgHdr {
    const iovBase: array<Byte>
    var msgLen: nat

    constructor (bufsize: nat)
      ensures fresh(iovBase) && iovBase.Length == bufsize
      ensures iovBase[..] == seq(bufsize, _ => 0) && msgLen == 0
    {
      iovBase := new Byte[bufsize](_ => 0);
      msgLen := 0;
    }

    function Abs(): Slot
      reads this, iovBase
    {
      Slot(iovBase[..], msgLen)
    }
  }

  ghost predicate Separate(v: seq<MsgHdr>) {
    forall i, j :: 0 <= i < j < |v| ==> v[i] != v[j] && v[i].iovBase != v[j].iovBase
  }

  ghost function Buffers(v: seq<MsgHdr>): set<object> {
    set m | m in v :: m.iovBase
  }

  ghost function SlotsOf(v: seq<MsgHdr>): (s: seq<Slot>)
    reads v, Buffers(v)
    ensures |s| == |v| && forall i :: 0 <= i < |v| ==> s[i] == v[i].Abs()
  {
    seq(|v|, i requires 0 <= i < |v| reads v, Buffers(v) => v[i].Abs())
  }

  /** recvmmsg(2): the i-th datagram goes to the start of the i-th buffer. */
  method RecvMmsg(msgvec: seq<MsgHdr>, ds: seq<seq<Byte>>)
    requires Separate(msgvec) && |ds| <= |msgvec|
    modifies msgvec, Buffers(msgvec)
    ensures SlotsOf(msgvec) == Filled(old(SlotsOf(msgvec)), ds)
  {
    hide Taken;
    ghost var before := SlotsOf(msgvec);
    var i := 0;
    while i < |ds|
      invariant 0 <= i <= |ds|
      invariant forall j :: 0 <= j < |msgvec| ==>
                  msgvec[j].Abs() == if j < i then Taken(before[j], ds[j]) else before[j]
    {
      Deliver(msgvec[i], ds[i]);
      i := i + 1;
    }
  }

  method Deliver(h: MsgHdr, d: seq<Byte>)
    modifies h, h.iovBase
    ensures h.Abs() == Taken(old(h.Abs()), d)
  {
    var k := if |d| <= h.iovBase.Length then |d| else h.iovBase.Length;
    forall i | 0 <= i < k {
      h.iovBase[i] := d[i];
    }
    h.msgLen := k;
  }

  class Process {
    const msgvec: seq<MsgHdr>
    const meters: Meters
    var recvmmsgCount: Word
    var running: bool
    ghost var calls: nat
    ghost var closedAt: seq<nat>

    ghost predicate Valid() {
      Separate(msgvec) && forall i :: 0 <= i < |msgvec| ==> msgvec[i].iovBase.Length >= SEQ_BYTES
    }

    ghost function Abs(): (c: Mmsg)
      requires Valid()
      reads this, meters, msgvec, Buffers(msgvec)
      ensures |c.slots| == |msgvec| && forall i :: 0 <= i < |c.slots| ==> |c.slots[i].base| >= SEQ_BYTES
    {
      Mmsg(running, SlotsOf(msgvec), recvmmsgCount, meters.Abs(), calls, closedAt)
    }

    constructor (vlen: nat, bufsize: nat, now: Timeval)
      requires bufsize >= SEQ_BYTES
      ensures Valid() && Abs() == Started(vlen, bufsize, now)
    {
      var vec: seq<MsgHdr> := [];
      while |vec| < vlen
        invariant |vec| <= vlen && Separate(vec)
        invariant forall j :: 0 <= j < |vec| ==>
                    fresh(vec[j]) && fresh(vec[j].iovBase) && vec[j].Abs() == Slot(seq(bufsize, _ => 0), 0)
      {
        var h := new MsgHdr(bufsize);
        vec := vec + [h];
      }
      msgvec := vec;
      meters := new Meters(now);
      recvmmsgCount, running, calls, closedAt := 1, true, 0, [];
      new;
      assert SlotsOf(msgvec) == Started(vlen, bufsize, now).slots;
    }

    method FoldIn(n: nat)
      requires Valid() && n <= |msgvec|
      modifies meters
      ensures meters.Abs() == FoldSlots(old(meters.Abs()), SlotsOf(msgvec)[..n])
    {
      hide Accounted, GetSeqNum, SlotsOf;
      ghost var slots := SlotsOf(msgvec)[..n];
      assert slots[0..] == slots;
      var i := 0;
      while i < n
        invariant 0 <= i <= n && slots == SlotsOf(msgvec)[..n]
        invariant FoldSlots(meters.Abs(), slots[i..]) == FoldSlots(old(meters.Abs()), slots)
      {
        var seqNum := GetSeqNum(msgvec[i].iovBase[..]);
        assert slots[i] == msgvec[i].Abs() && slots[i..][1..] == slots[i + 1..];
        meters.Account(msgvec[i].msgLen, seqNum);
        i := i + 1;
      }
      assert slots[n..] == [];
    }

    method ReportIfDue(now: Timeval)
      requires Valid()
      modifies this`closedAt, meters
      ensures Abs() == AtTop(old(Abs()), now)
    {
      if recvmmsgCount % 1000 == 0 {
        meters.Print(now);
        closedAt := closedAt + [calls];
      }
    }

    method TakeBatch(ds: seq<seq<Byte>>)
      requires Valid() && |ds| <= |msgvec|
      modifies this`recvmmsgCount, this`calls, meters, msgvec, Buffers(msgvec)
      ensures Abs() == Refilled(old(Abs()), ds)
    {
      hide FoldSlots, Taken, Wrap, Filled, SlotsOf;
      RecvMmsg(msgvec, ds);
      FoldIn(|ds|);
      recvmmsgCount := Add(recvmmsgCount, 1);
      calls := calls + 1;
    }

    /** The loop of `main`. */
    method Loop(turns: seq<Turn>)
      requires Valid() && Fits(turns, |msgvec|)
      modifies this, meters, msgvec, Buffers(msgvec)
      ensures Abs() == Ran(old(Abs()), turns)
    {
      var i := 0;
      while i < |turns| && running
        invariant 0 <= i <= |turns|
        invariant Ran(Abs(), turns[i..]) == Ran(old(Abs()), turns)
      {
        assert turns[i..][1..] == turns[i + 1..];
        ReportIfDue(turns[i].now);
        match turns[i] {
          case CallFailed(_) => running := false;
          case Batch(_, ds) => TakeBatch(ds);
        }
        i := i + 1;
      }
    }
  }
}
