/** The sequence numbers of one session as they travel: written by the server, in flight,
    lost, queued in the receiver's socket, accounted for. Loss, duplication and reordering
    can strike anything in flight at any time. */
module Flow {
  import opened Word64
  import opened Cardinality
  import opened Ledger
  import L = Ledger

  /** All oldest first; `copies` lists the numbers the network has duplicated and `log` is
      what the receiver has accounted for. */
  datatype Flow = Flow(written: seq<Word>, inflight: seq<Word>, lost: seq<Word>, copies: seq<Word>,
                       queued: seq<Word>, log: seq<Word>)

  /** `Take(n)` accounts for the n oldest queued numbers. */
  datatype Move = Idle | Send | Lose(i: nat) | Duplicate(i: nat) | Deliver(i: nat) | Take(n: nat)

  function Without<T>(s: seq<T>, i: nat): seq<T>
    requires i < |s|
  {
    s[..i] + s[i + 1..]
  }

  predicate Enabled(f: Flow, m: Move) {
    match m
    case Lose(i) => i < |f.inflight|
    case Duplicate(i) => i < |f.inflight|
    case Deliver(i) => i < |f.inflight|
    case Take(n) => n <= |f.queued|
    case _ => true
  }

  function Moved(f: Flow, m: Move): Flow
    requires Enabled(f, m)
  {
    match m
    case Idle => f
    case Send => f.(written := f.written + [Wrap(|f.written|)], inflight := f.inflight + [Wrap(|f.written|)])
    case Lose(i) => f.(inflight := Without(f.inflight, i), lost := f.lost + [f.inflight[i]])
    case Duplicate(i) => f.(inflight := f.inflight + [f.inflight[i]], copies := f.copies + [f.inflight[i]])
    case Deliver(i) => f.(inflight := Without(f.inflight, i), queued := f.queued + [f.inflight[i]])
    case Take(n) => f.(queued := f.queued[n..], log := f.log + f.queued[..n])
  }

  ghost function Everywhere(f: Flow): multiset<Word> {
    multiset(f.log) + multiset(f.queued) + multiset(f.inflight) + multiset(f.lost)
  }

  /** Every number written, and every copy of one, is in exactly one place. */
  ghost predicate Placed(f: Flow) {
    && (forall i :: 0 <= i < |f.written| ==> f.written[i] == Wrap(i))
    && Everywhere(f) == multiset(f.written) + multiset(f.copies)
    && (forall v :: v in f.copies ==> v in f.written)
  }

  lemma WithoutOne(s: seq<Word>, i: nat)
    requires i < |s|
    ensures multiset(s) == multiset(Without(s, i)) + multiset{s[i]}
  {
    assert s == s[..i] + [s[i]] + s[i + 1..];
  }

  lemma WithOne(s: seq<Word>, v: Word)
    ensures multiset(s + [v]) == multiset(s) + multiset{v}
  {
  }

  lemma Cut(s: seq<Word>, n: nat)
    requires n <= |s|
    ensures multiset(s) == multiset(s[n..]) + multiset(s[..n])
  {
    assert s == s[..n] + s[n..];
  }

  lemma SomeMove(a: multiset<Word>, b: multiset<Word>, c: multiset<Word>, d: multiset<Word>, x: multiset<Word>)
    ensures a + b + c + (d + x) == a + b + (c + x) + d
    ensures a + (b + x) + c + d == a + b + (c + x) + d
    ensures (a + x) + b + c + d == a + (b + x) + c + d
    ensures a + b + (c + x) + d == a + b + c + d + x
  {
  }

  /** Loss, delivery and acceptance move numbers; only a write or a copy adds one. */
  lemma MovedKeepsAll(f: Flow, m: Move)
    requires Enabled(f, m)
    ensures Everywhere(Moved(f, m)) ==
            match m
            case Send => Everywhere(f) + multiset{Wrap(|f.written|)}
            case Duplicate(i) => Everywhere(f) + multiset{f.inflight[i]}
            case _ => Everywhere(f)
  {
    hide Wrap, Without;
    var log, queued, inflight, lost := multiset(f.log), multiset(f.queued), multiset(f.inflight), multiset(f.lost);
    match m
    case Idle =>
    case Send =>
      WithOne(f.inflight, Wrap(|f.written|));
      SomeMove(log, queued, inflight, lost, multiset{Wrap(|f.written|)});
    case Lose(i) =>
      WithoutOne(f.inflight, i);
      WithOne(f.lost, f.inflight[i]);
      SomeMove(log, queued, multiset(Without(f.inflight, i)), lost, multiset{f.inflight[i]});
    case Duplicate(i) =>
      WithOne(f.inflight, f.inflight[i]);
      SomeMove(log, queued, inflight, lost, multiset{f.inflight[i]});
    case Deliver(i) =>
      WithoutOne(f.inflight, i);
      WithOne(f.queued, f.inflight[i]);
      SomeMove(log, queued, multiset(Without(f.inflight, i)), lost, multiset{f.inflight[i]});
    case Take(n) =>
      Cut(f.queued, n);
      SomeMove(log, multiset(f.queued[n..]), inflight, lost, multiset(f.queued[..n]));
  }

  lemma MovedGrows(f: Flow, m: Move)
    requires Enabled(f, m)
    ensures |f.written| <= |Moved(f, m).written|
  {
  }

  lemma MovedPlaced(f: Flow, m: Move)
    requires Placed(f) && Enabled(f, m)
    ensures Placed(Moved(f, m))
  {
    hide Wrap, Everywhere;
    MovedKeepsAll(f, m);
    if m.Send? {
      WithOne(f.written, Wrap(|f.written|));
      SendMoves(multiset(f.written), multiset(f.copies), multiset{Wrap(|f.written|)});
    } else if m.Duplicate? {
      WithOne(f.copies, f.inflight[m.i]);
      SendMoves(multiset(f.copies), multiset(f.written), multiset{f.inflight[m.i]});
      WhereFrom(f, f.inflight[m.i]);
    }
  }

  lemma SendMoves(a: multiset<Word>, b: multiset<Word>, x: multiset<Word>)
    ensures a + b + x == (a + x) + b
    ensures b + a + x == b + (a + x)
  {
  }

  /** Whatever travels was written. */
  lemma WhereFrom(f: Flow, v: Word)
    requires Placed(f)
    ensures v in f.log + f.queued + f.inflight + f.lost <==> v in f.written
  {
    assert v in Everywhere(f) <==> v in f.log + f.queued + f.inflight + f.lost;
    assert v in multiset(f.written) + multiset(f.copies) <==> v in f.written;
  }

  // ---------------------------------------------------------------- any order

  /** Numbers below n that were written but not accounted for: in flight, queued or lost. */
  function OutstandingBelow(f: Flow, n: nat): set<int> {
    set v | v in f.queued + f.inflight + f.lost && v < n && v !in f.log
  }

  /** With at most 2^64 sends the numbers written are all different. */
  lemma WrittenNumbers(f: Flow, v: Word)
    requires Placed(f) && |f.written| <= TWO64
    ensures multiset(f.written)[v] == if v < |f.written| then 1 else 0
    ensures v in f.written <==> v < |f.written|
  {
    forall i | 0 <= i < |f.written|
      ensures f.written[i] == i
    {
      WrapWord(i);
    }
    CountOnce(f.written, v);
  }

  lemma {:induction false} CountOnce(s: seq<Word>, v: Word)
    requires forall i :: 0 <= i < |s| ==> s[i] == i
    ensures multiset(s)[v] == if v < |s| then 1 else 0
  {
    if s != [] {
      var init := s[..|s| - 1];
      assert s == init + [s[|s| - 1]];
      CountOnce(init, v);
    }
  }

  /** The log repeats no more often than the network has duplicated. */
  lemma RepeatsAreCopies(f: Flow)
    requires Placed(f) && |f.written| <= TWO64
    ensures Repeats(f.log) <= |f.copies|
  {
    SetOfSize(f.log);
    OncePlusCopies(f);
    SubMultisetSize(multiset(f.log), multiset(SetOf(f.log)) + multiset(f.copies));
  }

  lemma SubMultisetSize(a: multiset<int>, b: multiset<int>)
    requires a <= b
    ensures |a| <= |b|
  {
    assert b == a + (b - a);
  }

  lemma OncePlusCopies(f: Flow)
    requires Placed(f) && |f.written| <= TWO64
    ensures multiset(f.log) <= multiset(SetOf(f.log)) + multiset(f.copies)
  {
    forall v: int | v in multiset(f.log)
      ensures multiset(f.log)[v] <= 1 + multiset(f.copies)[v]
    {
      assert v in f.log;
      WrittenNumbers(f, v);
      assert multiset(f.log)[v] <= Everywhere(f)[v];
      assert Everywhere(f)[v] == multiset(f.written)[v] + multiset(f.copies)[v];
    }
  }

  lemma MissingIsOutstanding(f: Flow)
    requires Placed(f) && |f.written| <= TWO64 && f.log != []
    ensures Missing(f.log) == OutstandingBelow(f, Last(f.log))
  {
    var last := Last(f.log);
    assert last in f.log;
    WhereFrom(f, last);
    WrittenNumbers(f, last);
    forall v: int
      ensures v in Missing(f.log) <==> v in OutstandingBelow(f, last)
    {
      if 0 <= v < last {
        WhereFrom(f, v);
        WrittenNumbers(f, v);
      }
    }
  }

  /** Under loss, duplication and reordering: the drop counter is what is outstanding below
      the newest number, less the overtakers and the repeats, modulo 2^64, and there are no
      more repeats than copies. */
  lemma DropsExplained(f: Flow)
    requires Placed(f) && |f.written| <= TWO64 && f.log != []
    ensures Replay(f.log).drops ==
            Wrap(|OutstandingBelow(f, Last(f.log))| - |Overtakers(f.log)| - Repeats(f.log))
    ensures Repeats(f.log) <= |f.copies|
  {
    hide Replay, Wrap;
    L.DropsExplained(f.log);
    MissingIsOutstanding(f);
    RepeatsAreCopies(f);
  }

  /** Without duplication the drop counter counts what is outstanding below the newest
      number, exactly when that is also the largest. */
  lemma DropsAreOutstanding(f: Flow)
    requires Placed(f) && |f.written| <= TWO64 && f.log != [] && f.copies == []
    ensures Replay(f.log).drops == |OutstandingBelow(f, Last(f.log))| <==> NewestIsLargest(f.log)
  {
    hide Replay;
    RepeatsAreCopies(f);
    SetOfSize(f.log);
    SelfHealing(f.log);
    MissingIsOutstanding(f);
  }

  // ---------------------------------------------------------------- order kept

  ghost predicate Ordered(s: seq<Word>, bound: nat) {
    && (forall i, j :: 0 <= i < j < |s| ==> s[i] < s[j])
    && (forall i :: 0 <= i < |s| ==> s[i] < bound)
  }

  /** From the oldest number accounted for to the newest in flight. */
  function Pipeline(f: Flow): seq<Word> {
    f.log + f.queued + f.inflight
  }

  ghost predicate InOrder(f: Flow) {
    f.copies == [] && Ordered(Pipeline(f), |f.written|)
  }

  /** The network neither duplicates nor reorders. */
  predicate Fifo(m: Move) {
    !m.Duplicate? && (m.Deliver? ==> m.i == 0)
  }

  lemma OrderedAppend(s: seq<Word>, n: Word)
    requires Ordered(s, n)
    ensures Ordered(s + [n], n + 1)
  {
  }

  lemma OrderedWithout(s: seq<Word>, k: nat, n: nat)
    requires Ordered(s, n) && k < |s|
    ensures Ordered(Without(s, k), n)
  {
  }

  lemma MovedInOrder(f: Flow, m: Move)
    requires InOrder(f) && Enabled(f, m) && Fifo(m) && |f.written| < TWO64
    ensures InOrder(Moved(f, m))
  {
    hide Ordered, Wrap;
    var r, p := Moved(f, m), Pipeline(f);
    match m
    case Idle =>
    case Send =>
      WrapWord(|f.written|);
      assert Pipeline(r) == p + [|f.written|];
      OrderedAppend(p, |f.written|);
    case Lose(i) =>
      var before := f.log + f.queued;
      assert Pipeline(r) == before + Without(f.inflight, i) == Without(p, |before| + i);
      OrderedWithout(p, |before| + i, |f.written|);
    case Deliver(i) =>
      assert Pipeline(r) == p;
    case Take(n) =>
      assert Pipeline(r) == p;
  }

  function LostBelow(f: Flow, n: nat): set<int> {
    set v | v in f.lost && v < n
  }

  lemma TailIsLater(a: seq<Word>, b: seq<Word>, bound: nat)
    requires a != [] && Ordered(a + b, bound)
    ensures NewestIsLargest(a) && forall v :: v in b ==> v > Last(a)
  {
    var s := a + b;
    assert s[|a| - 1] == Last(a);
    forall v | v in a
      ensures v <= Last(a)
    {
      var k :| 0 <= k < |a| && a[k] == v;
      assert s[k] == v;
    }
    forall v | v in b
      ensures v > Last(a)
    {
      var k :| 0 <= k < |b| && b[k] == v;
      assert s[|a| + k] == v;
    }
  }

  /** With the order kept, the drop counter is the number of lost datagrams below the
      expected number, and whatever is still on its way lies at or above it. */
  lemma DropsAreLosses(f: Flow)
    requires Placed(f) && InOrder(f) && |f.written| < TWO64
    ensures var l := Replay(f.log);
            && l.drops == |LostBelow(f, l.expected)|
            && (forall v :: v in f.queued + f.inflight ==> v >= l.expected)
  {
    hide Replay, Placed, NewestIsLargest;
    if f.log == [] {
      ReplayNothing();
      assert LostBelow(f, 0) == {};
    } else {
      var later, last := f.queued + f.inflight, Last(f.log);
      assert Pipeline(f) == f.log + later;
      assert Pipeline(f)[|f.log| - 1] == last;
      TailIsLater(f.log, later, |f.written|);
      NextExpected(f.log);
      DropsAreOutstanding(f);
      OutstandingIsLost(f);
    }
  }

  lemma OutstandingIsLost(f: Flow)
    requires Placed(f) && |f.written| < TWO64 && f.log != [] && f.copies == []
    requires forall v :: v in f.queued + f.inflight ==> v > Last(f.log)
    ensures OutstandingBelow(f, Last(f.log)) == LostBelow(f, Last(f.log) + 1)
  {
    forall v | v in f.lost
      ensures v !in f.log
    {
      LostIsNotLogged(f, v);
    }
    assert Last(f.log) in f.log;
    hide Placed, Missing;
  }

  lemma LostIsNotLogged(f: Flow, v: Word)
    requires Placed(f) && |f.written| <= TWO64 && f.copies == [] && v in f.lost
    ensures v !in f.log
  {
    WrittenNumbers(f, v);
    assert Everywhere(f)[v] <= 1;
    assert multiset(f.lost)[v] >= 1;
  }

  lemma NextExpected(log: seq<Word>)
    requires log != [] && Last(log) + 1 < TWO64
    ensures Replay(log).expected == Last(log) + 1
  {
    hide Replay;
    Conservation(log);
    WrapWord(Last(log) + 1);
  }
}
