/** udp-read-trend: read one buffer at a time, account for it, report at every alarm. */
module TrendClient {
  import opened Word64
  import opened Bytes
  import opened Sockets
  import opened Timeval
  import opened Ledger
  import opened Meter
  import opened Alarms

  const READ_BUF: nat := 65536

  datatype Progress = Running | Waiting | Exited

  /** One turn of the loop: whether has_alarm is found set, and the clock. */
  datatype Turn = Turn(alarmed: bool, now: Timeval)

  datatype Trend = Trend(progress: Progress, buf: seq<Byte>, bufsize: nat, pending: seq<Arrival>, meter: Meter) {
    ghost predicate Valid() {
      |buf| == READ_BUF && bufsize <= READ_BUF
    }
  }

  function AtTop(m: Meter, t: Turn): Meter {
    if t.alarmed then Reported(m, t.now) else m
  }

  /** The sequence number is taken from the buffer even if the read was short: then some
      or all of its bytes are left over from the datagram before. */
  function Turned(c: Trend, t: Turn): (r: Trend)
    requires c.Valid()
    ensures r.Valid() && r.bufsize == c.bufsize
  {
    if c.progress != Running then c else
    var m := AtTop(c.meter, t);
    var got := Drain(Datagram, c.pending, c.bufsize);
    var buf := Overwrite(c.buf, got.data);
    match got.status
    case Returned => Trend(Running, buf, c.bufsize, got.rest, Accounted(m, |got.data|, GetSeqNum(buf)))
    case Failed => Trend(Exited, buf, c.bufsize, got.rest, m)
    case Blocked => Trend(Waiting, buf, c.bufsize, got.rest, m)
  }

  function Ran(c: Trend, turns: seq<Turn>): (r: Trend)
    requires c.Valid()
    ensures r.Valid() && r.bufsize == c.bufsize
    decreases turns
  {
    if turns == [] || c.progress != Running then c else Ran(Turned(c, turns[0]), turns[1..])
  }

  // ---------------------------------------------------------------- every run

  /** The newest number accounted for is the one still in the buffer. */
  ghost predicate Sound(c: Trend) {
    && c.Valid() && Balanced(c.meter)
    && (c.progress == Running && c.meter.totals.log != [] ==> GetSeqNum(c.buf) == Last(c.meter.totals.log))
  }

  lemma TurnedSound(c: Trend, t: Turn)
    requires Sound(c)
    ensures Sound(Turned(c, t))
  {
    hide Drain, GetSeqNum, Balanced;
    if c.progress == Running {
      if t.alarmed {
        ReportedBalanced(c.meter, t.now);
      }
      var got := Drain(Datagram, c.pending, c.bufsize);
      AccountedBalanced(AtTop(c.meter, t), |got.data|, GetSeqNum(Overwrite(c.buf, got.data)));
    }
  }

  lemma {:induction false} RanSound(c: Trend, turns: seq<Turn>)
    requires Sound(c)
    ensures Sound(Ran(c, turns))
    decreases turns
  {
    if turns != [] && c.progress == Running {
      TurnedSound(c, turns[0]);
      RanSound(Turned(c, turns[0]), turns[1..]);
    }
  }

  function Started(buf: seq<Byte>, bufsize: nat, pending: seq<Arrival>, now: Timeval): Trend {
    Trend(Running, buf, bufsize, pending, Fresh(now))
  }

  /** For every history of arrivals and every placing of the alarms: reports and running
      interval add up to the totals, and the totals obey conservation. */
  lemma ReportsLoseNothing(buf: seq<Byte>, bufsize: nat, pending: seq<Arrival>, now: Timeval, turns: seq<Turn>)
    requires |buf| == READ_BUF && bufsize <= READ_BUF
    ensures var m := Ran(Started(buf, bufsize, pending, now), turns).meter;
            var l := m.totals.ledger;
            && Wrap(SumBytes(m.reports) + m.tally.bytes) == m.totals.bytes
            && Wrap(SumDrops(m.reports) + m.tally.drops) == l.drops
            && Wrap(SumReads(m.reports) + m.tally.count) == Sub(l.expected, l.drops)
            && l.expected == Wrap(|m.totals.log| + l.drops)
            && (m.reports != [] ==> SumMicros(m.reports) == m.reports[|m.reports| - 1].elapsed.Micros())
  {
    hide Ran;
    FreshBalanced(now);
    RanSound(Started(buf, bufsize, pending, now), turns);
    var m := Ran(Started(buf, bufsize, pending, now), turns).meter;
    ReadsAreExpectedMinusDrops(m);
    Conservation(m.totals.log);
  }

  ghost predicate NormalClock(m: Meter) {
    && m.start.Normal() && m.prev.Normal()
    && forall i :: 0 <= i < |m.reports| ==> m.reports[i].elapsed.Normal() && m.reports[i].interval.Normal()
  }

  /** All printed times are normalised when the clock's are. */
  lemma {:induction false} PrintedTimesNormal(c: Trend, turns: seq<Turn>)
    requires c.Valid() && NormalClock(c.meter)
    requires forall i :: 0 <= i < |turns| ==> turns[i].now.Normal()
    ensures NormalClock(Ran(c, turns).meter)
    decreases turns
  {
    if turns != [] && c.progress == Running {
      assert NormalClock(AtTop(c.meter, turns[0]));
      PrintedTimesNormal(Turned(c, turns[0]), turns[1..]);
    }
  }

  /** A zero-length datagram reads like the previous one again and so takes one drop off
      the counter: an empty datagram hides a lost one. */
  lemma EmptyDatagramHidesADrop(c: Trend, t: Turn)
    requires Sound(c) && c.progress == Running && c.meter.totals.log != []
    requires c.bufsize > 0 && c.pending != [] && c.pending[0] == Data([])
    ensures var before, after := c.meter.totals, Turned(c, t).meter.totals;
            && after.bytes == before.bytes
            && after.ledger.drops == Wrap(before.ledger.drops - 1)
            && after.ledger.expected == before.ledger.expected
  {
    hide GetSeqNum, Replay, Wrap;
    var l := c.meter.totals.ledger;
    var seqNum := Last(c.meter.totals.log);
    assert Overwrite(c.buf, []) == c.buf;
    WrapWord(c.meter.totals.bytes);
    Conservation(c.meter.totals.log);
    assert l.expected == Add(seqNum, 1);
    WrapSub(seqNum + 1, seqNum);
    WrapAdd(seqNum - l.expected, l.drops);
    var k := WrapQuotient(seqNum + 1);
    WrapPeriod(seqNum - l.expected + l.drops, l.drops - 1, k);
  }

  // ---------------------------------------------------------------- when it reports, and why it ends

  lemma {:induction false} RanAppend(c: Trend, turns: seq<Turn>, t: Turn)
    requires c.Valid()
    ensures Ran(c, turns + [t]) == Turned(Ran(c, turns), t)
    decreases turns
  {
    hide Drain, GetSeqNum;
    if turns == [] || c.progress != Running {
      assert turns == [] ==> (turns + [t])[1..] == [];
    } else {
      assert (turns + [t])[1..] == turns[1..] + [t];
      RanAppend(Turned(c, turns[0]), turns[1..], t);
    }
  }

  function Checks(turns: seq<Turn>): seq<Check> {
    seq(|turns|, i requires 0 <= i < |turns| => Check(turns[i].alarmed, turns[i].now))
  }

  /** The turns that a run has begun: one for each read accounted for, and the one that it
      ended in. */
  function Begun(r: Trend): nat {
    |r.meter.totals.log| + (if r.progress == Running then 0 else 1)
  }

  /** There is one report for each turn begun with has_alarm set and no other. Its times are
      those of that turn's clock, and it covers exactly the turns since the report before. */
  lemma {:induction false} AlarmsAreReported(buf: seq<Byte>, bufsize: nat, pending: seq<Arrival>, start: Timeval,
                                             turns: seq<Turn>)
    requires |buf| == READ_BUF && bufsize <= READ_BUF
    ensures var r := Ran(Started(buf, bufsize, pending, start), turns);
            && r.meter.start == start
            && Begun(r) <= |turns| && (r.progress == Running ==> Begun(r) == |turns|)
            && Told(r.meter, AlarmClocks(Checks(turns[..Begun(r)])), AlarmTurns(Checks(turns[..Begun(r)])))
    decreases |turns|
  {
    hide Ran, Told, Accounted, Reported, Drain, GetSeqNum;
    var c := Started(buf, bufsize, pending, start);
    if turns == [] {
      RanNothing(c);
      FreshTold(start);
    } else {
      var init, t := turns[..|turns| - 1], turns[|turns| - 1];
      AlarmsAreReported(buf, bufsize, pending, start, init);
      assert turns == init + [t];
      RanAppend(c, init, t);
      var r := Ran(c, init);
      FreshBalanced(start);
      RanSound(c, init);
      if r.progress == Running {
        assert init[..Begun(r)] == init;
        TurnTold(r, t, AlarmClocks(Checks(init)), AlarmTurns(Checks(init)));
        AlarmsAppend(Checks(init), Check(t.alarmed, t.now));
        assert Checks(turns) == Checks(init) + [Check(t.alarmed, t.now)];
        assert turns[..|turns|] == turns;
      } else {
        assert turns[..Begun(r)] == init[..Begun(r)];
      }
    }
  }

  lemma RanNothing(c: Trend)
    requires c.Valid()
    ensures Ran(c, []) == c
  {
  }

  lemma TurnTold(c: Trend, t: Turn, clocks: seq<Timeval>, cuts: seq<nat>)
    requires Sound(c) && c.progress == Running && Told(c.meter, clocks, cuts)
    ensures var r := Turned(c, t);
            && r.meter.start == c.meter.start
            && |r.meter.totals.log| == |c.meter.totals.log| + (if r.progress == Running then 1 else 0)
            && Told(r.meter, clocks + (if t.alarmed then [t.now] else []),
                    cuts + (if t.alarmed then [|c.meter.totals.log|] else []))
  {
    hide Told, Drain, GetSeqNum, Replay;
    var n := |c.meter.totals.log|;
    var later, all := clocks + (if t.alarmed then [t.now] else []), cuts + (if t.alarmed then [n] else []);
    ReportedTold(c.meter, t.now, clocks, cuts);
    assert clocks + [] == clocks && cuts + [] == cuts;
    var m := AtTop(c.meter, t);
    var got := Drain(Datagram, c.pending, c.bufsize);
    AccountedTold(m, |got.data|, GetSeqNum(Overwrite(c.buf, got.data)), later, all);
  }

  lemma TurnEnds(c: Trend, t: Turn)
    requires c.Valid() && c.progress == Running
    ensures var r := Turned(c, t);
            var k := |c.pending| - |r.pending|;
            && 0 <= k && r.pending == c.pending[k..]
            && (r.progress == Exited <==> Fault in c.pending[..k])
            && |r.meter.totals.log| == |c.meter.totals.log| + (if r.progress == Running then 1 else 0)
            && (r.progress == Waiting ==> r.pending == [])
  {
    hide Drain, GetSeqNum;
    DrainConsumes(c.pending, c.bufsize);
  }

  /** A run uses up a beginning of what arrives. It has ended with an error exactly if there
      was one in it, and still runs exactly if every turn has accounted for a read;
      otherwise it waits for more. */
  lemma {:induction false} EndsForAReason(c: Trend, turns: seq<Turn>)
    requires c.Valid() && c.progress == Running
    ensures var r := Ran(c, turns);
            var k, entries := |c.pending| - |r.pending|, |r.meter.totals.log| - |c.meter.totals.log|;
            && 0 <= k && r.pending == c.pending[k..]
            && (r.progress == Exited <==> Fault in c.pending[..k])
            && 0 <= entries <= |turns|
            && (r.progress == Running <==> entries == |turns|)
            && (r.progress == Waiting ==> r.pending == [])
    decreases turns
  {
    hide Turned;
    if turns != [] {
      TurnEnds(c, turns[0]);
      var m := Turned(c, turns[0]);
      if m.progress == Running {
        EndsForAReason(m, turns[1..]);
        var k, i := |c.pending| - |m.pending|, |m.pending| - |Ran(m, turns[1..]).pending|;
        assert c.pending[..k + i] == c.pending[..k] + m.pending[..i];
      }
    }
  }

  // ---------------------------------------------------------------- full-sized datagrams

  /** How much of a datagram a buffer of `size` bytes holds. */
  function Stored(d: seq<Byte>, size: nat): nat {
    if |d| <= size then |d| else size
  }

  /** Accounting for one datagram after the other, each under its own number. */
  function OneByOne(t: Totals, ds: seq<seq<Byte>>, size: nat): Totals
    requires AllAtLeast(ds, SEQ_BYTES)
    decreases ds
  {
    if ds == [] then t else OneByOne(Counted(t, Stored(ds[0], size), GetSeqNum(ds[0])), ds[1..], size)
  }

  /** Every datagram gets one entry in the log, in order. */
  lemma {:induction false} OneByOneLog(t: Totals, ds: seq<seq<Byte>>, size: nat)
    requires AllAtLeast(ds, SEQ_BYTES)
    ensures OneByOne(t, ds, size).log == t.log + SeqNums(ds)
    decreases ds
  {
    hide GetSeqNum, SeqNums;
    if ds == [] {
      assert t.log + SeqNums(ds) == t.log;
    } else {
      var first, rest := GetSeqNum(ds[0]), SeqNums(ds[1..]);
      OneByOneLog(Counted(t, Stored(ds[0], size), first), ds[1..], size);
      SeqNumsCons(ds);
      assert (t.log + [first]) + rest == t.log + ([first] + rest);
    }
  }

  function SumStored(ds: seq<seq<Byte>>, size: nat): nat {
    if ds == [] then 0 else Stored(ds[0], size) + SumStored(ds[1..], size)
  }

  /** ... and its bytes, as far as the buffer holds them. */
  lemma {:induction false} OneByOneBytes(t: Totals, ds: seq<seq<Byte>>, size: nat)
    requires AllAtLeast(ds, SEQ_BYTES)
    ensures OneByOne(t, ds, size).bytes == Wrap(t.bytes + SumStored(ds, size))
    decreases ds
  {
    hide GetSeqNum, Wrap;
    WrapWord(t.bytes);
    if ds != [] {
      var n := Stored(ds[0], size);
      OneByOneBytes(Counted(t, n, GetSeqNum(ds[0])), ds[1..], size);
      WrapAdd(t.bytes + n, SumStored(ds[1..], size));
    }
  }

  lemma SeqNumsCons(ds: seq<seq<Byte>>)
    requires ds != [] && AllAtLeast(ds, SEQ_BYTES)
    ensures SeqNums(ds) == [GetSeqNum(ds[0])] + SeqNums(ds[1..])
  {
    hide GetSeqNum;
  }

  lemma {:induction false} OneByOneSizes(t: Totals, ds: seq<seq<Byte>>, size: nat)
    requires AllAtLeast(ds, SEQ_BYTES) && AllAtLeast(ds, size)
    requires forall i :: 0 <= i < |t.sizes| ==> t.sizes[i] == size
    ensures forall i :: 0 <= i < |OneByOne(t, ds, size).sizes| ==> OneByOne(t, ds, size).sizes[i] == size
    decreases ds
  {
    hide GetSeqNum;
    if ds != [] {
      OneByOneSizes(Counted(t, size, GetSeqNum(ds[0])), ds[1..], size);
    }
  }

  /** One turn over full-sized datagrams consumes exactly the first of them. */
  lemma TurnConsumesOne(c: Trend, t: Turn)
    requires c.Valid() && c.progress == Running && c.bufsize >= SEQ_BYTES
    requires FullDatagrams(c.pending, c.bufsize) && Datagrams(c.pending) != []
    ensures var r := Turned(c, t);
            && |Datagrams(c.pending)[0]| >= c.bufsize
            && r.progress == Running && FullDatagrams(r.pending, c.bufsize)
            && Datagrams(r.pending) == Datagrams(c.pending)[1..]
            && r.meter == Accounted(AtTop(c.meter, t), c.bufsize, GetSeqNum(Datagrams(c.pending)[0]))
  {
    DrainTakesFirst(c.pending, c.bufsize);
    var d := Datagrams(c.pending)[0];
    assert Overwrite(c.buf, d[..c.bufsize])[..8] == d[..8];
  }

  /** Wherever interrupts and alarms fall, k turns account for the first k datagrams. */
  lemma {:induction false} RunIsOneByOne(c: Trend, turns: seq<Turn>)
    requires c.Valid() && c.progress == Running && c.bufsize >= SEQ_BYTES
    requires FullDatagrams(c.pending, c.bufsize) && |turns| <= |Datagrams(c.pending)|
    ensures AllAtLeast(Datagrams(c.pending), SEQ_BYTES)
    ensures Ran(c, turns).meter.totals ==
            OneByOne(c.meter.totals, Datagrams(c.pending)[..|turns|], c.bufsize)
    decreases turns
  {
    hide Turned, GetSeqNum;
    LongIsFull(c.pending, c.bufsize, c.bufsize);
    if turns != [] {
      TurnConsumesOne(c, turns[0]);
      var ds := Datagrams(c.pending)[..|turns|];
      assert ds[1..] == Datagrams(c.pending)[1..][..|turns| - 1];
      RunIsOneByOne(Turned(c, turns[0]), turns[1..]);
    }
  }

  /** Over nonempty datagrams no run logs more entries than there are datagrams, and one
      with a datagram shorter than the buffer logs strictly fewer: a short datagram is
      glued to its successor, or keeps the last call waiting. */
  lemma {:induction false} ShortDatagramsLogFewer(c: Trend, turns: seq<Turn>)
    requires c.Valid() && c.progress == Running && c.bufsize > 0 && FullDatagrams(c.pending, 1)
    ensures var entries, ds := |Ran(c, turns).meter.totals.log| - |c.meter.totals.log|, Datagrams(c.pending);
            && 0 <= entries <= |ds|
            && (!AllAtLeast(ds, c.bufsize) ==> entries < |ds|)
    decreases turns
  {
    hide GetSeqNum;
    var ds := Datagrams(c.pending);
    if turns != [] {
      DrainTakesSome(c.pending, c.bufsize);
      var r := Turned(c, turns[0]);
      if r.progress == Running {
        ShortDatagramsLogFewer(r, turns[1..]);
        var later := Datagrams(r.pending);
        if !AllAtLeast(ds, c.bufsize) && |later| == |ds| - 1 {
          assert forall i :: 1 <= i < |ds| ==> ds[i] == later[i - 1];
        }
      }
    }
  }

  lemma TurnIsFull(c: Trend, t: Turn)
    requires c.Valid() && c.progress == Running && c.bufsize > 0 && FullDatagrams(c.pending, 1)
    ensures var r := Turned(c, t);
            && FullDatagrams(r.pending, 1)
            && if r.progress == Running
               then r.meter.totals.bytes == Wrap(c.meter.totals.bytes + c.bufsize)
                    && |r.meter.totals.log| == |c.meter.totals.log| + 1
               else r.meter.totals == c.meter.totals
  {
    hide Drain, GetSeqNum, Wrap;
    DrainTakesSome(c.pending, c.bufsize);
  }

  /** Over nonempty datagrams every read fills the request, whatever is glued together. */
  lemma {:induction false} ReadsAreFull(c: Trend, turns: seq<Turn>)
    requires c.Valid() && c.progress == Running && c.bufsize > 0 && FullDatagrams(c.pending, 1)
    ensures var r := Ran(c, turns);
            r.meter.totals.bytes ==
            Wrap(c.meter.totals.bytes + c.bufsize * (|r.meter.totals.log| - |c.meter.totals.log|))
    decreases turns
  {
    hide Turned, Wrap;
    WrapWord(c.meter.totals.bytes);
    if turns != [] {
      TurnIsFull(c, turns[0]);
      var m := Turned(c, turns[0]);
      if m.progress == Running {
        ReadsAreFull(m, turns[1..]);
        var n, was := |Ran(m, turns[1..]).meter.totals.log| - |m.meter.totals.log|, c.meter.totals.bytes;
        OneMore(c.bufsize, n);
        WrapAdd(was + c.bufsize, c.bufsize * n);
      }
    }
  }

  lemma OneMore(a: int, n: int)
    ensures a * (n + 1) == a + a * n
  {
  }

  /** A read counts under the number of the first datagram in it. */
  lemma NumberOfTheFirst(c: Trend, t: Turn)
    requires c.Valid() && c.progress == Running && c.bufsize >= SEQ_BYTES && FullDatagrams(c.pending, 1)
    requires Turned(c, t).progress == Running
    ensures var ds := Datagrams(c.pending);
            ds != [] && (|ds[0]| >= SEQ_BYTES ==>
              Turned(c, t).meter.totals.log == c.meter.totals.log + [GetSeqNum(ds[0])])
  {
    DrainTakesSome(c.pending, c.bufsize);
    var d, got := Datagrams(c.pending)[0], Drain(Datagram, c.pending, c.bufsize);
    if |d| >= SEQ_BYTES {
      assert Overwrite(c.buf, got.data)[..8] == d[..8];
    }
  }

  // ---------------------------------------------------------------- the process

  class Process {
    const readBuf: array<Byte>
    const bufsize: nat
    const sock: Socket
    const meters: Meters
    var progress: Progress

    ghost predicate Valid()
      reads this
    {
      readBuf.Length == READ_BUF && bufsize <= READ_BUF && sock.mode == Datagram
    }

    ghost function Abs(): Trend
      reads this, readBuf, sock, meters
    {
      Trend(progress, readBuf[..], bufsize, sock.arrivals, meters.Abs())
    }

    constructor (bufsize: nat, sock: Socket, now: Timeval)
      requires bufsize <= READ_BUF && sock.mode == Datagram
      ensures Valid() && this.sock == sock && fresh(readBuf) && fresh(meters)
      ensures Abs() == Started(readBuf[..], bufsize, sock.arrivals, now)
    {
      readBuf := new Byte[READ_BUF];
      meters := new Meters(now);
      this.bufsize, this.sock, progress := bufsize, sock, Running;
    }

    /** The loop of `main`. */
    method Loop(turns: seq<Turn>)
      requires Valid()
      modifies this`progress, readBuf, sock`arrivals, meters
      ensures Valid() && Abs() == Ran(old(Abs()), turns)
    {
      hide Drain, GetSeqNum, Accounted, Reported;
      var i := 0;
      while i < |turns| && progress == Running
        invariant 0 <= i <= |turns| && Valid()
        invariant Ran(Abs(), turns[i..]) == Ran(old(Abs()), turns)
      {
        ghost var before := Abs();
        if turns[i].alarmed {
          meters.Print(turns[i].now);
        }
        var status, n := Readn(sock, readBuf, bufsize);
        match status {
          case Failed => progress := Exited;
          case Blocked => progress := Waiting;
          case Returned =>
            var seqNum := GetSeqNum(readBuf[..]);
            meters.Account(n, seqNum);
        }
        assert Abs() == Turned(before, turns[i]);
        assert turns[i..][1..] == turns[i + 1..];
        i := i + 1;
      }
    }
  }
}
