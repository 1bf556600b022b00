/** The counters that udp-read-trend and udp-mmsg-trend share line for line: running
    totals, interval counters that every report prints and clears, and the clock. */
module Meter {
  import opened Word64
  import opened Ledger
  import opened Timeval
  import opened Alarms

  datatype Tally = Tally(bytes: Word, count: Word, drops: Word)

  const NOTHING := Tally(0, 0, 0)

  /** One printed line. */
  datatype Report = Report(elapsed: Timeval, interval: Timeval, tally: Tally)

  /** What the final line prints: `ledger` holds total_read_counter and
      total_drop_counter. The specification also keeps the sequence numbers processed
      and the byte counts. */
  datatype Totals = Totals(bytes: Word, ledger: Ledger, log: seq<Word>, sizes: seq<nat>)

  datatype Meter = Meter(totals: Totals, tally: Tally, start: Timeval, prev: Timeval, reports: seq<Report>)

  function Fresh(start: Timeval): Meter {
    Meter(Totals(0, EMPTY, [], []), NOTHING, start, start, [])
  }

  function Counted(t: Totals, n: nat, seqNum: Word): Totals {
    Totals(Add(t.bytes, n), Receive(t.ledger, seqNum), t.log + [seqNum], t.sizes + [n])
  }

  function Accounted(m: Meter, n: nat, seqNum: Word): Meter {
    var expected := m.totals.ledger.expected;
    m.(totals := Counted(m.totals, n, seqNum),
       tally := Tally(Add(m.tally.bytes, n),
                      Add(m.tally.count, 1),
                      if expected != seqNum then Add(m.tally.drops, Sub(seqNum, expected)) else m.tally.drops))
  }

  function Reported(m: Meter, now: Timeval): Meter {
    m.(tally := NOTHING,
       prev := now,
       reports := m.reports + [Report(TimerSub(now, m.start), TimerSub(now, m.prev), m.tally)])
  }

  // ---------------------------------------------------------------- sums over the reports

  function SumBytes(rs: seq<Report>): nat {
    if rs == [] then 0 else SumBytes(rs[..|rs| - 1]) + rs[|rs| - 1].tally.bytes
  }

  function SumReads(rs: seq<Report>): nat {
    if rs == [] then 0 else SumReads(rs[..|rs| - 1]) + rs[|rs| - 1].tally.count
  }

  function SumDrops(rs: seq<Report>): nat {
    if rs == [] then 0 else SumDrops(rs[..|rs| - 1]) + rs[|rs| - 1].tally.drops
  }

  function SumMicros(rs: seq<Report>): int {
    if rs == [] then 0 else SumMicros(rs[..|rs| - 1]) + rs[|rs| - 1].interval.Micros()
  }

  function SumSizes(ns: seq<nat>): nat {
    if ns == [] then 0 else SumSizes(ns[..|ns| - 1]) + ns[|ns| - 1]
  }

  /** What every run keeps: the totals are those of the log, and reports plus the running
      interval add up to the totals, in bytes, reads, drops and time. */
  ghost predicate Balanced(m: Meter) {
    && m.totals.ledger == Replay(m.totals.log)
    && |m.totals.log| == |m.totals.sizes|
    && m.totals.bytes == Wrap(SumSizes(m.totals.sizes))
    && Wrap(SumBytes(m.reports) + m.tally.bytes) == m.totals.bytes
    && Wrap(SumReads(m.reports) + m.tally.count) == Wrap(|m.totals.log|)
    && Wrap(SumDrops(m.reports) + m.tally.drops) == m.totals.ledger.drops
    && SumMicros(m.reports) == m.prev.Micros() - m.start.Micros()
    && (m.reports != [] ==> m.reports[|m.reports| - 1].elapsed.Micros() == SumMicros(m.reports))
  }

  lemma FreshBalanced(start: Timeval)
    ensures Balanced(Fresh(start))
  {
  }

  /** Adding the same amount to the running interval and to the total. */
  lemma AddBoth(sum: int, running: Word, total: int, d: int)
    requires Wrap(sum + running) == Wrap(total)
    ensures Wrap(sum + Add(running, d)) == Wrap(total + d)
  {
    var k := WrapQuotient(sum + running);
    var j := WrapQuotient(total);
    var i := WrapQuotient(running + d);
    WrapPeriod(sum + Add(running, d), total + d, k - j - i);
  }

  lemma {:induction false} AccountedBalanced(m: Meter, n: nat, seqNum: Word)
    requires Balanced(m)
    ensures Balanced(Accounted(m, n, seqNum))
  {
    hide Wrap, Replay, SumBytes, SumReads, SumDrops, SumMicros;
    var t := m.totals;
    ReplayAppend(t.log, seqNum);
    assert (t.sizes + [n])[..|t.sizes|] == t.sizes;
    WrapAdd(SumSizes(t.sizes), n);
    WrapWord(t.bytes);
    AddBoth(SumBytes(m.reports), m.tally.bytes, t.bytes, n);
    AddBoth(SumReads(m.reports), m.tally.count, |t.log|, 1);
    WrapWord(t.ledger.drops);
    AddBoth(SumDrops(m.reports), m.tally.drops, t.ledger.drops, Sub(seqNum, t.ledger.expected));
  }

  lemma {:induction false} ReportedBalanced(m: Meter, now: Timeval)
    requires Balanced(m)
    ensures Balanced(Reported(m, now))
  {
    assert Reported(m, now).reports[..|m.reports|] == m.reports;
  }

  /** The printed reads, summed up, are the expected counter minus the drop counter. */
  lemma ReadsAreExpectedMinusDrops(m: Meter)
    requires Balanced(m)
    ensures Wrap(SumReads(m.reports) + m.tally.count) == Sub(m.totals.ledger.expected, m.totals.ledger.drops)
  {
    var l := m.totals.ledger;
    Conservation(m.totals.log);
    WrapSub(|m.totals.log| + l.drops, l.drops);
  }

  // ---------------------------------------------------------------- what the reports say

  /** What the reads a, a + 1, ..., b - 1 add up to, modulo 2^64. */
  function Between(t: Totals, a: nat, b: nat): Tally
    requires a <= b <= |t.log| == |t.sizes|
  {
    Tally(Wrap(SumSizes(t.sizes[a..b])), Wrap(b - a), Sub(Replay(t.log[..b]).drops, Replay(t.log[..a]).drops))
  }

  function Clock(start: Timeval, clocks: seq<Timeval>, j: nat): Timeval
    requires j <= |clocks|
  {
    if j == 0 then start else clocks[j - 1]
  }

  /** A report made at `now`: the time since the start, the time since `before`, and the
      reads a, ..., b - 1. */
  ghost predicate Says(r: Report, t: Totals, start: Timeval, before: Timeval, now: Timeval, a: nat, b: nat) {
    && r.elapsed.Micros() == now.Micros() - start.Micros()
    && r.interval.Micros() == now.Micros() - before.Micros()
    && a <= b <= |t.log| == |t.sizes| && r.tally == Between(t, a, b)
  }

  /** The reports are those made at `clocks` with `cuts` reads behind them. Each covers the
      time and the reads since the one before; the running interval covers the rest. */
  ghost predicate Told(m: Meter, clocks: seq<Timeval>, cuts: seq<nat>) {
    && |m.reports| == |clocks| == |cuts|
    && (forall j :: 0 <= j < |cuts| ==>
          Says(m.reports[j], m.totals, m.start, Clock(m.start, clocks, j), clocks[j], Cut(cuts, j), cuts[j]))
    && m.prev == Clock(m.start, clocks, |clocks|)
    && var last := Cut(cuts, |cuts|);
       last <= |m.totals.log| == |m.totals.sizes| && m.tally == Between(m.totals, last, |m.totals.log|)
  }

  lemma FreshTold(start: Timeval)
    ensures Told(Fresh(start), [], [])
  {
  }

  lemma ReportedTold(m: Meter, now: Timeval, clocks: seq<Timeval>, cuts: seq<nat>)
    requires Told(m, clocks, cuts)
    ensures Told(Reported(m, now), clocks + [now], cuts + [|m.totals.log|])
  {
    hide Between, Says, TimerSub;
    var r, j, later, all := Reported(m, now), |cuts|, clocks + [now], cuts + [|m.totals.log|];
    NothingBetween(m.totals);
    NewLine(m, now, Cut(cuts, j));
    assert Clock(r.start, later, j) == m.prev && Cut(all, j) == Cut(cuts, j);
    forall i | 0 <= i < j
      ensures Says(r.reports[i], r.totals, r.start, Clock(r.start, later, i), later[i], Cut(all, i), all[i])
    {
      assert Clock(r.start, later, i) == Clock(m.start, clocks, i) && Cut(all, i) == Cut(cuts, i);
      assert r.reports[i] == m.reports[i] && later[i] == clocks[i] && all[i] == cuts[i];
    }
  }

  lemma NewLine(m: Meter, now: Timeval, a: nat)
    requires a <= |m.totals.log| == |m.totals.sizes| && m.tally == Between(m.totals, a, |m.totals.log|)
    ensures Says(Reported(m, now).reports[|m.reports|], m.totals, m.start, m.prev, now, a, |m.totals.log|)
  {
    hide Between;
  }

  lemma NothingBetween(t: Totals)
    requires |t.log| == |t.sizes|
    ensures Between(t, |t.log|, |t.log|) == NOTHING
  {
    hide Replay;
    assert t.sizes[|t.log|..|t.log|] == [];
  }

  lemma AccountedTold(m: Meter, n: nat, seqNum: Word, clocks: seq<Timeval>, cuts: seq<nat>)
    requires Told(m, clocks, cuts) && m.totals.ledger == Replay(m.totals.log)
    ensures Told(Accounted(m, n, seqNum), clocks, cuts)
  {
    hide Between, Replay, Says, Counted;
    var t, r := m.totals, Accounted(m, n, seqNum);
    CountedOneMore(t, n, seqNum);
    TallyGrows(m, n, seqNum, Cut(cuts, |cuts|));
    forall j | 0 <= j < |cuts|
      ensures Says(r.reports[j], r.totals, r.start, Clock(r.start, clocks, j), clocks[j], Cut(cuts, j), cuts[j])
    {
      SaidBefore(m.reports[j], t, n, seqNum, m.start, Clock(m.start, clocks, j), clocks[j], Cut(cuts, j), cuts[j]);
    }
  }

  lemma CountedOneMore(t: Totals, n: nat, seqNum: Word)
    ensures var r := Counted(t, n, seqNum); |r.log| == |t.log| + 1 && |r.sizes| == |t.sizes| + 1
  {
  }

  lemma SaidBefore(r: Report, t: Totals, n: nat, seqNum: Word, start: Timeval, before: Timeval, now: Timeval,
                   a: nat, b: nat)
    requires Says(r, t, start, before, now, a, b)
    ensures Says(r, Counted(t, n, seqNum), start, before, now, a, b)
  {
    hide Replay, Wrap, SumSizes;
    var u := Counted(t, n, seqNum);
    assert u.sizes[a..b] == t.sizes[a..b] && u.log[..a] == t.log[..a] && u.log[..b] == t.log[..b];
  }

  lemma TallyGrows(m: Meter, n: nat, seqNum: Word, a: nat)
    requires a <= |m.totals.log| == |m.totals.sizes| && m.totals.ledger == Replay(m.totals.log)
    requires m.tally == Between(m.totals, a, |m.totals.log|)
    ensures var r := Accounted(m, n, seqNum); r.tally == Between(r.totals, a, |r.totals.log|)
  {
    hide Replay, Wrap;
    var t, r, k := m.totals, Accounted(m, n, seqNum), |m.totals.log|;
    assert t.log[..k] == t.log && r.totals.log[..k + 1] == r.totals.log && r.totals.log[..a] == t.log[..a];
    assert r.totals.sizes[a..k + 1] == t.sizes[a..k] + [n];
    assert (t.sizes[a..k] + [n])[..k - a] == t.sizes[a..k];
    ReplayAppend(t.log, seqNum);
    WrapAdd(SumSizes(t.sizes[a..k]), n);
    WrapAdd(k - a, 1);
    DropsGrow(t.ledger, seqNum, Replay(t.log[..a]).drops);
  }

  lemma DropsGrow(l: Ledger, seqNum: Word, was: Word)
    ensures Sub(Receive(l, seqNum).drops, was) ==
            if l.expected != seqNum then Add(Sub(l.drops, was), Sub(seqNum, l.expected)) else Sub(l.drops, was)
  {
    hide Wrap;
    var d: int, more: int := l.drops, Sub(seqNum, l.expected);
    WrapAdd(d - was, more);
    WrapSub(d + more, was);
  }

  // ---------------------------------------------------------------- the counters themselves

  /** The global totals of a receiver together with the interval counters of its `main`. */
  class Meters {
    var totalReadBytes: Word
    var totalDropCounter: Word
    var totalReadCounter: Word
    var intervalReadCounter: Word
    var intervalReadBytes: Word
    var intervalDropCounter: Word
    var start: Timeval
    var prev: Timeval
    var printed: seq<Report>
    ghost var log: seq<Word>
    ghost var sizes: seq<nat>

    ghost function Abs(): Meter
      reads this
    {
      Meter(Totals(totalReadBytes, Ledger(totalReadCounter, totalDropCounter), log, sizes),
            Tally(intervalReadBytes, intervalReadCounter, intervalDropCounter),
            start, prev, printed)
    }

    constructor (now: Timeval)
      ensures Abs() == Fresh(now)
    {
      totalReadBytes, totalDropCounter, totalReadCounter := 0, 0, 0;
      intervalReadCounter, intervalReadBytes, intervalDropCounter := 0, 0, 0;
      start, prev, printed := now, now, [];
      log, sizes := [], [];
    }

    method Account(n: nat, seqNum: Word)
      modifies this
      ensures Abs() == Accounted(old(Abs()), n, seqNum)
    {
      hide Wrap;
      intervalReadBytes := Add(intervalReadBytes, n);
      totalReadBytes := Add(totalReadBytes, n);
      if totalReadCounter != seqNum {
        intervalDropCounter := Add(intervalDropCounter, Sub(seqNum, totalReadCounter));
        totalDropCounter := Add(totalDropCounter, Sub(seqNum, totalReadCounter));
        totalReadCounter := seqNum;
      }
      totalReadCounter := Add(totalReadCounter, 1);
      intervalReadCounter := Add(intervalReadCounter, 1);
      log, sizes := log + [seqNum], sizes + [n];
    }

    method Print(now: Timeval)
      modifies this
      ensures Abs() == Reported(old(Abs()), now)
    {
      var elapsed := TimerSub(now, start);
      var interval := TimerSub(now, prev);
      prev := now;
      printed := printed + [Report(elapsed, interval,
                                   Tally(intervalReadBytes, intervalReadCounter, intervalDropCounter))];
      intervalReadCounter := 0;
      intervalReadBytes := 0;
      intervalDropCounter := 0;
    }
  }
}
