/** Loss accounting of the receivers: a next-expected counter that is moved to every
    sequence number seen, and a drop counter that collects the unsigned differences.
    Both live modulo 2^64, so a late datagram takes the drop counter "below zero". */
module Ledger {
  import opened Word64
  import opened Cardinality

  datatype Ledger = Ledger(expected: Word, drops: Word)

  const EMPTY := Ledger(0, 0)

  function Receive(l: Ledger, seqNum: Word): Ledger {
    if l.expected != seqNum then
      Ledger(Add(seqNum, 1), Add(l.drops, Sub(seqNum, l.expected)))
    else
      Ledger(Add(l.expected, 1), l.drops)
  }

  /** The counters after the datagrams of `log`, oldest first. */
  function Replay(log: seq<Word>): Ledger {
    if log == [] then EMPTY else Receive(Replay(log[..|log| - 1]), log[|log| - 1])
  }

  lemma ReplayNothing()
    ensures Replay([]) == EMPTY
  {
  }

  lemma ReplayAppend(log: seq<Word>, seqNum: Word)
    ensures Replay(log + [seqNum]) == Receive(Replay(log), seqNum)
  {
    assert (log + [seqNum])[..|log|] == log;
  }

  // ---------------------------------------------------------------- conservation

  lemma ConservationStep(l: Ledger, seqNum: Word, n: nat)
    requires l.expected == Wrap(n + l.drops)
    requires l.expected != seqNum
    ensures Wrap(n + 1 + Receive(l, seqNum).drops) == Add(seqNum, 1)
  {
    var k := WrapQuotient(n + l.drops);
    var j := WrapQuotient(seqNum - l.expected);
    var i := WrapQuotient(l.drops + Sub(seqNum, l.expected));
    WrapPeriod(n + 1 + Receive(l, seqNum).drops, seqNum + 1, k - j - i);
  }

  /** Whatever arrives, in whatever order and however often: the expected counter is
      datagrams processed plus drops, and sits one past the last sequence number. */
  lemma {:induction false} Conservation(log: seq<Word>)
    ensures Replay(log).expected == Wrap(|log| + Replay(log).drops)
    ensures log != [] ==> Replay(log).expected == Add(log[|log| - 1], 1)
  {
    if log != [] {
      var init, seqNum := log[..|log| - 1], log[|log| - 1];
      var l, n := Replay(init), |init|;
      Conservation(init);
      if l.expected == seqNum {
        WrapAdd(n + l.drops, 1);
      } else {
        ConservationStep(l, seqNum, n);
      }
    }
  }

  // ---------------------------------------------------------------- what the drop counter means

  function Last(log: seq<Word>): Word
    requires log != []
  {
    log[|log| - 1]
  }

  /** Sequence numbers smaller than the newest one that have not been received. */
  function Missing(log: seq<Word>): set<int>
    requires log != []
  {
    Below(Last(log)) - SetOf(log)
  }

  /** Received sequence numbers larger than the newest one: datagrams that overtook it. */
  function Overtakers(log: seq<Word>): set<int>
    requires log != []
  {
    Above(log, Last(log))
  }

  ghost predicate NewestIsLargest(log: seq<Word>)
    requires log != []
  {
    forall v :: v in log ==> v <= Last(log)
  }

  function Repeats(log: seq<Word>): nat {
    SetOfSize(log);
    |log| - |SetOf(log)|
  }

  lemma MissingSize(log: seq<Word>)
    requires log != []
    ensures |Missing(log)| - |Overtakers(log)| - Repeats(log) == Last(log) + 1 - |log|
  {
    assert Last(log) in log;
    SplitAt(log, Last(log));
  }

  lemma OvertakersBound(log: seq<Word>, bound: nat)
    requires log != [] && forall v :: v in log ==> v < bound
    ensures |Overtakers(log)| < bound - Last(log)
  {
    var last: int := Last(log);
    var upToLast := Below(last) + {last};
    assert last in log;
    assert forall v :: v in upToLast ==> v in Below(bound);
    BelowSize(last);
    BelowSize(bound);
    SubsetSize(upToLast, Below(bound));
    assert forall v :: v in Overtakers(log) ==> v in Below(bound) - upToLast;
    SubsetSize(Overtakers(log), Below(bound) - upToLast);
  }

  lemma NoOvertakers(log: seq<Word>)
    requires log != []
    ensures |Overtakers(log)| == 0 <==> NewestIsLargest(log)
  {
    if v :| v in log && v > Last(log) {
      assert v in Overtakers(log);
    } else {
      assert Overtakers(log) == {};
    }
  }

  lemma SolveForDrops(n: nat, drops: Word, next: nat, balance: int)
    requires Wrap(n + drops) == Wrap(next)
    requires balance == next - n
    ensures drops == Wrap(balance)
  {
    var k := WrapQuotient(n + drops);
    var j := WrapQuotient(next);
    WrapPeriod(drops, balance, k - j);
    WrapWord(drops);
  }

  /** The drop counter after any nonempty log, modulo 2^64: the missing numbers, less one
      for each datagram that overtook the newest and one for each repeated datagram. */
  lemma DropsExplained(log: seq<Word>)
    requires log != []
    ensures Replay(log).drops == Wrap(|Missing(log)| - |Overtakers(log)| - Repeats(log))
  {
    Conservation(log);
    MissingSize(log);
    SolveForDrops(|log|, Replay(log).drops, Last(log) + 1,
                  |Missing(log)| - |Overtakers(log)| - Repeats(log));
  }

  /** The counter is exact if and only if the corrections cancel out modulo 2^64. */
  lemma ExactIff(log: seq<Word>)
    requires log != []
    ensures Replay(log).drops == |Missing(log)| <==> Wrap(|Overtakers(log)| + Repeats(log)) == 0
  {
    DropsExplained(log);
    BelowSize(Last(log));
    SubsetSize(Missing(log), Below(Last(log)));
    WrapCancels(|Missing(log)|, |Overtakers(log)|, Repeats(log));
  }

  lemma WrapCancels(m: Word, a: int, b: int)
    ensures Wrap(m - a - b) == m <==> Wrap(a + b) == 0
  {
    var k := WrapQuotient(m - a - b);
    var j := WrapQuotient(a + b);
  }

  /** Self-healing under reordering: for a duplicate-free log the counter is exact
      precisely when the newest datagram carries the largest number so far. */
  lemma SelfHealing(log: seq<Word>)
    requires log != [] && NoDup(log)
    ensures Replay(log).drops == |Missing(log)| <==> NewestIsLargest(log)
  {
    ExactIff(log);
    SetOfSize(log);
    OvertakersBound(log, TWO64);
    NoOvertakers(log);
    WrapWord(|Overtakers(log)| + Repeats(log));
  }

  /** With loss but neither reordering nor duplication the numbers increase, and the
      counter is exact after every single datagram. */
  lemma InOrderAlwaysExact(log: seq<Word>, k: nat)
    requires forall i, j :: 0 <= i < j < |log| ==> log[i] < log[j]
    requires 0 < k <= |log|
    ensures Replay(log[..k]).drops == |Missing(log[..k])|
  {
    SelfHealing(log[..k]);
  }

  /** A duplicate never heals: without reordering, up to 2^64 - 1 repeated datagrams take
      exactly their number off the count of missing ones, and wrap below zero when they
      outnumber them. */
  lemma RepeatsUndercount(log: seq<Word>)
    requires log != [] && NewestIsLargest(log) && Repeats(log) < TWO64
    ensures Replay(log).drops ==
            if Repeats(log) <= |Missing(log)| then |Missing(log)| - Repeats(log)
            else TWO64 + |Missing(log)| - Repeats(log)
  {
    DropsExplained(log);
    NoOvertakers(log);
    BelowSize(Last(log));
    SubsetSize(Missing(log), Below(Last(log)));
    WrapOnce(|Missing(log)| - Repeats(log));
  }

  lemma WrapOnce(x: int)
    requires -TWO64 < x < TWO64
    ensures Wrap(x) == if x < 0 then TWO64 + x else x
  {
    if x < 0 {
      WrapPeriod(x, TWO64 + x, -1);
      WrapWord(TWO64 + x);
    }
  }

  /** The intermediate values really wrap: the order 1, 0, 2 passes through 2^64 - 1. */
  lemma ReorderingWraps()
    ensures Replay([1, 0]).drops == TWO64 - 1
    ensures Replay([1, 0, 2]) == Ledger(3, 0)
  {
    ReplayAppend([], 1);
    ReplayAppend([1], 0);
    ReplayAppend([1, 0], 2);
    assert [] + [1] == [1] && [1] + [0] == [1, 0] && [1, 0] + [2] == [1, 0, 2];
  }
}
