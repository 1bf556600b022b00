/** epoll-client: sockets registered once, read when ready, deregistered and closed at an
    empty read, with a running count of live servers. */
module EpollClient {
  import opened Word64
  import opened HostList

  // ---------------------------------------------------------------- the event loop on values

  /** One host: its counters, and whether its socket is open and in the interest list. */
  datatype Host = Host(bytes: Word, count: Word, open: bool, watched: bool)

  datatype Phase = Looping | Finished | Failed

  /** `log` lists the nonempty reads: host and size. */
  datatype Epoll = Epoll(hosts: seq<Host>, nServer: int, phase: Phase, log: seq<(nat, nat)>)

  /** A ready host and what `read` on it returns. */
  datatype Event = Event(host: nat, n: int)

  datatype Wait = Interrupted | TimedOut | WaitFailed | Ready(events: seq<Event>)

  function Started(n: nat): Epoll {
    Epoll(seq(n, _ => Host(0, 0, true, true)), n, Looping, [])
  }

  function Handled(s: Epoll, e: Event): (r: Epoll)
    ensures |r.hosts| == |s.hosts|
  {
    if s.phase != Looping || e.host >= |s.hosts| then s else
    var h := s.hosts[e.host];
    if e.n < 0 then s.(phase := Failed)
    else if e.n == 0 then
      s.(hosts := s.hosts[e.host := h.(open := false, watched := false)],
         nServer := s.nServer - 1,
         phase := if s.nServer - 1 == 0 then Finished else Looping)
    else
      s.(hosts := s.hosts[e.host := h.(bytes := Add(h.bytes, e.n), count := Add(h.count, 1))],
         log := s.log + [(e.host, e.n)])
  }

  function HandledAll(s: Epoll, events: seq<Event>): (r: Epoll)
    ensures |r.hosts| == |s.hosts|
    decreases events
  {
    if events == [] || s.phase != Looping then s else HandledAll(Handled(s, events[0]), events[1..])
  }

  function Waited(s: Epoll, w: Wait): (r: Epoll)
    ensures |r.hosts| == |s.hosts|
  {
    match w
    case Interrupted => s
    case TimedOut => s
    case WaitFailed => s.(phase := Failed)
    case Ready(events) => HandledAll(s, events)
  }

  function Ran(s: Epoll, waits: seq<Wait>): (r: Epoll)
    ensures |r.hosts| == |s.hosts|
    decreases waits
  {
    if waits == [] || s.phase != Looping then s else Ran(Waited(s, waits[0]), waits[1..])
  }

  /** What epoll_wait(epfd, ev_ret, n_server, ...) may return: at most n_server events, for
      different hosts, all in the interest list. */
  ghost predicate Lawful(s: Epoll, events: seq<Event>) {
    && |events| <= s.nServer
    && (forall i :: 0 <= i < |events| ==> events[i].host < |s.hosts| && s.hosts[events[i].host].watched)
    && (forall i, j :: 0 <= i < j < |events| ==> events[i].host != events[j].host)
  }

  ghost predicate LawfulRun(s: Epoll, waits: seq<Wait>)
    decreases waits
  {
    waits == [] || s.phase != Looping ||
    ((waits[0].Ready? ==> Lawful(s, waits[0].events)) && LawfulRun(Waited(s, waits[0]), waits[1..]))
  }

  // ---------------------------------------------------------------- liveness accounting

  function Watched(hosts: seq<Host>): nat {
    if hosts == [] then 0 else (if hosts[0].watched then 1 else 0) + Watched(hosts[1..])
  }

  function BytesOf(log: seq<(nat, nat)>, host: nat): nat {
    if log == [] then 0
    else BytesOf(log[..|log| - 1], host) + (if log[|log| - 1].0 == host then log[|log| - 1].1 else 0)
  }

  function ReadsOf(log: seq<(nat, nat)>, host: nat): nat {
    if log == [] then 0
    else ReadsOf(log[..|log| - 1], host) + (if log[|log| - 1].0 == host then 1 else 0)
  }

  /** n_server is the number of registered sockets, the registered sockets are the open
      ones, it is positive while the loop runs, and every host's counters are those of its
      nonempty reads. */
  ghost predicate Live(s: Epoll) {
    && s.nServer == Watched(s.hosts)
    && (forall i :: 0 <= i < |s.hosts| ==> (s.hosts[i].open <==> s.hosts[i].watched))
    && (s.phase == Looping ==> s.nServer >= 1)
    && (s.phase == Finished <==> s.nServer == 0)
    && Tallied(s.hosts, s.log)
  }

  ghost predicate Tallied(hosts: seq<Host>, log: seq<(nat, nat)>) {
    forall i :: 0 <= i < |hosts| ==>
      hosts[i].bytes == Wrap(BytesOf(log, i)) && hosts[i].count == Wrap(ReadsOf(log, i))
  }

  lemma {:induction false} WatchedAll(n: nat)
    ensures Watched(Started(n).hosts) == n
  {
    if n > 0 {
      WatchedAll(n - 1);
      assert Started(n).hosts[1..] == Started(n - 1).hosts;
    }
  }

  lemma {:induction false} WatchedUpdate(hosts: seq<Host>, i: nat, h: Host)
    requires i < |hosts|
    ensures Watched(hosts[i := h]) == Watched(hosts) - (if hosts[i].watched then 1 else 0) + (if h.watched then 1 else 0)
  {
    if i == 0 {
      assert hosts[0 := h][1..] == hosts[1..];
    } else {
      WatchedUpdate(hosts[1..], i - 1, h);
      assert hosts[i := h][1..] == hosts[1..][i - 1 := h];
    }
  }

  lemma {:induction false} WatchedNone(hosts: seq<Host>)
    ensures Watched(hosts) == 0 <==> forall i :: 0 <= i < |hosts| ==> !hosts[i].watched
  {
    if hosts != [] {
      WatchedNone(hosts[1..]);
      if Watched(hosts) == 0 {
        assert forall i :: 0 < i < |hosts| ==> hosts[i] == hosts[1..][i - 1];
      }
    }
  }

  lemma StartedLive(n: nat)
    requires n > 0
    ensures Live(Started(n))
  {
    WatchedAll(n);
  }

  lemma HandledLive(s: Epoll, e: Event)
    requires Live(s) && s.phase == Looping && e.host < |s.hosts| && s.hosts[e.host].watched
    ensures Live(Handled(s, e))
  {
    hide Tallied, Watched;
    var h := s.hosts[e.host];
    if e.n == 0 {
      WatchedUpdate(s.hosts, e.host, h.(open := false, watched := false));
      ClosedTallied(s.hosts, s.log, e.host);
    } else if e.n > 0 {
      WatchedUpdate(s.hosts, e.host, h.(bytes := Add(h.bytes, e.n), count := Add(h.count, 1)));
      ReadTallied(s.hosts, s.log, e.host, e.n);
    }
  }

  lemma ClosedTallied(hosts: seq<Host>, log: seq<(nat, nat)>, i: nat)
    requires Tallied(hosts, log) && i < |hosts|
    ensures Tallied(hosts[i := hosts[i].(open := false, watched := false)], log)
  {
    hide Wrap, BytesOf, ReadsOf;
  }

  lemma ReadTallied(hosts: seq<Host>, log: seq<(nat, nat)>, i: nat, n: nat)
    requires Tallied(hosts, log) && i < |hosts|
    ensures Tallied(hosts[i := hosts[i].(bytes := Add(hosts[i].bytes, n), count := Add(hosts[i].count, 1))],
                    log + [(i, n)])
  {
    hide Wrap, Add, BytesOf, ReadsOf;
    LogAppend(log, i, n);
  }

  lemma LogAppend(log: seq<(nat, nat)>, host: nat, n: nat)
    ensures forall i: nat :: BytesOf(log + [(host, n)], i) == BytesOf(log, i) + (if i == host then n else 0)
    ensures forall i: nat :: ReadsOf(log + [(host, n)], i) == ReadsOf(log, i) + (if i == host then 1 else 0)
    ensures Add(Wrap(BytesOf(log, host)), n) == Wrap(BytesOf(log, host) + n)
    ensures Add(Wrap(ReadsOf(log, host)), 1) == Wrap(ReadsOf(log, host) + 1)
  {
    assert (log + [(host, n)])[..|log|] == log;
    WrapAdd(BytesOf(log, host), n);
    WrapAdd(ReadsOf(log, host), 1);
  }

  /** Handling one event leaves the rest of the batch lawful: it touches only its own host. */
  lemma RestLawful(s: Epoll, events: seq<Event>)
    requires Live(s) && s.phase == Looping && events != [] && Lawful(s, events)
    ensures Live(Handled(s, events[0]))
    ensures Handled(s, events[0]).phase == Looping ==> Lawful(Handled(s, events[0]), events[1..])
    ensures Handled(s, events[0]).phase == Finished ==> events[1..] == []
  {
    hide Handled, Tallied, Watched;
    HandledLive(s, events[0]);
    HandledElsewhere(s, events[0]);
  }

  lemma HandledElsewhere(s: Epoll, e: Event)
    requires s.phase == Looping && e.host < |s.hosts|
    ensures var r := Handled(s, e);
            && (forall i :: 0 <= i < |s.hosts| && i != e.host ==> r.hosts[i] == s.hosts[i])
            && r.nServer >= s.nServer - 1
            && (r.phase == Finished ==> s.nServer == 1)
  {
  }

  lemma FirstIsOpen(s: Epoll, events: seq<Event>)
    requires Live(s) && Lawful(s, events) && events != []
    ensures events[0].host < |s.hosts| && s.hosts[events[0].host].open && s.hosts[events[0].host].watched
  {
  }

  /** While a batch is handled, every event meets an open, registered socket, and the
      program can only exit normally at the very last event of a batch. */
  lemma {:induction false} BatchIsSafe(s: Epoll, events: seq<Event>, k: nat)
    requires Live(s) && s.phase == Looping && Lawful(s, events) && k < |events|
    ensures var m := HandledAll(s, events[..k]);
            && Live(m) && m.phase != Finished
            && (m.phase == Looping ==> m.hosts[events[k].host].open && m.hosts[events[k].host].watched)
    decreases events
  {
    hide Live, Lawful, Handled;
    if k == 0 {
      FirstIsOpen(s, events);
    } else {
      RestLawful(s, events);
      var t := Handled(s, events[0]);
      assert events[..k][1..] == events[1..][..k - 1] && events[..k][0] == events[0];
      if t.phase == Looping {
        BatchIsSafe(t, events[1..], k - 1);
      }
    }
  }

  lemma {:induction false} HandledAllLive(s: Epoll, events: seq<Event>)
    requires Live(s) && (s.phase == Looping ==> Lawful(s, events))
    ensures Live(HandledAll(s, events))
    decreases events
  {
    if events != [] && s.phase == Looping {
      RestLawful(s, events);
      HandledAllLive(Handled(s, events[0]), events[1..]);
    }
  }

  lemma {:induction false} RanLive(s: Epoll, waits: seq<Wait>)
    requires Live(s) && LawfulRun(s, waits)
    ensures Live(Ran(s, waits))
    decreases waits
  {
    if waits != [] && s.phase == Looping {
      if waits[0].Ready? {
        HandledAllLive(s, waits[0].events);
      }
      RanLive(Waited(s, waits[0]), waits[1..]);
    }
  }

  /** Over every lawful run: the accounting holds, the event array sized at the start is
      large enough for every later batch, and the normal exit happens exactly when the last
      host has closed. */
  lemma LivenessAccounting(n: nat, waits: seq<Wait>)
    requires n > 0 && LawfulRun(Started(n), waits)
    ensures var r := Ran(Started(n), waits);
            && Live(r) && |r.hosts| == n
            && r.nServer <= n
            && (r.phase == Finished <==> forall i :: 0 <= i < n ==> !r.hosts[i].open)
            && (forall events :: Lawful(r, events) ==> |events| <= n)
  {
    StartedLive(n);
    RanLive(Started(n), waits);
    var r := Ran(Started(n), waits);
    WatchedNone(r.hosts);
    WatchedBound(r.hosts);
  }

  lemma {:induction false} WatchedBound(hosts: seq<Host>)
    ensures Watched(hosts) <= |hosts|
  {
    if hosts != [] {
      WatchedBound(hosts[1..]);
    }
  }

  // ---------------------------------------------------------------- the run, told from the waits

  /** What the waits of a program with n hosts bring, event by event; a failed wait ends the
      program as a failed read does. */
  function EventsOf(waits: seq<Wait>, n: nat): seq<Event> {
    if waits == [] then [] else
    (match waits[0]
     case Interrupted => []
     case TimedOut => []
     case WaitFailed => [Event(0, -1)]
     case Ready(events) => OfHosts(events, n)) + EventsOf(waits[1..], n)
  }

  function OfHosts(events: seq<Event>, n: nat): (r: seq<Event>)
    ensures forall i :: 0 <= i < |r| ==> r[i].host < n
  {
    if events == [] then []
    else (if events[0].host < n then [events[0]] else []) + OfHosts(events[1..], n)
  }

  function Closings(events: seq<Event>): nat {
    if events == [] then 0 else (if events[0].n == 0 then 1 else 0) + Closings(events[1..])
  }

  /** The events before the first error, up to the one that closes the last of `live` hosts. */
  function Heard(events: seq<Event>, live: nat): (h: seq<Event>)
    ensures h <= events && forall i :: 0 <= i < |h| ==> h[i].n >= 0
    ensures Closings(h) <= live
    ensures h == events || Closings(h) == live || events[|h|].n < 0
    decreases events
  {
    if events == [] || live == 0 || events[0].n < 0 then [] else
    var h := Heard(events[1..], if events[0].n == 0 then live - 1 else live);
    assert ([events[0]] + h)[1..] == h && events == [events[0]] + events[1..];
    [events[0]] + h
  }

  function SumFrom(events: seq<Event>, host: nat): int {
    if events == [] then 0 else (if events[0].host == host then events[0].n else 0) + SumFrom(events[1..], host)
  }

  function ReadsFrom(events: seq<Event>, host: nat): nat {
    if events == [] then 0
    else (if events[0].host == host && events[0].n > 0 then 1 else 0) + ReadsFrom(events[1..], host)
  }

  ghost predicate ClosedIn(events: seq<Event>, host: nat) {
    exists i :: 0 <= i < |events| && events[i] == Event(host, 0)
  }

  /** The outcome r of the events from s on, host by host and for the whole program. */
  ghost predicate Outcome(s: Epoll, events: seq<Event>, r: Epoll)
    requires s.nServer >= 0
  {
    var h := Heard(events, s.nServer);
    && |r.hosts| == |s.hosts| && r.nServer == s.nServer - Closings(h)
    && (forall i :: 0 <= i < |s.hosts| ==>
          && r.hosts[i].bytes == Wrap(s.hosts[i].bytes + SumFrom(h, i))
          && r.hosts[i].count == Wrap(s.hosts[i].count + ReadsFrom(h, i))
          && (r.hosts[i].open <==> s.hosts[i].open && !ClosedIn(h, i))
          && (r.hosts[i].watched <==> s.hosts[i].watched && !ClosedIn(h, i)))
    && (r.phase == Finished <==> Closings(h) == s.nServer)
    && (r.phase == Failed <==> Closings(h) < s.nServer && h != events)
  }

  lemma NothingHeard(s: Epoll, events: seq<Event>)
    requires if s.nServer == 0 then s.phase == Finished else s.nServer > 0 && s.phase == Looping && events == []
    ensures Outcome(s, events, s)
  {
    hide Wrap;
    forall i | 0 <= i < |s.hosts|
      ensures Wrap(s.hosts[i].bytes) == s.hosts[i].bytes && Wrap(s.hosts[i].count) == s.hosts[i].count
    {
      WrapWord(s.hosts[i].bytes);
      WrapWord(s.hosts[i].count);
    }
  }

  lemma HeardFirst(e: Event, h: seq<Event>, host: nat)
    ensures Closings([e] + h) == (if e.n == 0 then 1 else 0) + Closings(h)
    ensures SumFrom([e] + h, host) == (if e.host == host then e.n else 0) + SumFrom(h, host)
    ensures ReadsFrom([e] + h, host) == (if e.host == host && e.n > 0 then 1 else 0) + ReadsFrom(h, host)
    ensures ClosedIn([e] + h, host) <==> e == Event(host, 0) || ClosedIn(h, host)
  {
    var all := [e] + h;
    assert all[1..] == h;
    if ClosedIn(h, host) {
      var k :| 0 <= k < |h| && h[k] == Event(host, 0);
      assert all[k + 1] == Event(host, 0);
    }
    if e == Event(host, 0) {
      assert all[0] == Event(host, 0);
    }
  }

  /** One host over the first event and the events behind it. */
  lemma HostStep(s: Epoll, e: Event, h: seq<Event>, i: nat)
    requires s.phase == Looping && e.n >= 0 && e.host < |s.hosts| && i < |s.hosts|
    ensures var m := Handled(s, e).hosts[i];
            && Wrap(m.bytes + SumFrom(h, i)) == Wrap(s.hosts[i].bytes + SumFrom([e] + h, i))
            && Wrap(m.count + ReadsFrom(h, i)) == Wrap(s.hosts[i].count + ReadsFrom([e] + h, i))
            && (m.open && !ClosedIn(h, i) <==> s.hosts[i].open && !ClosedIn([e] + h, i))
            && (m.watched && !ClosedIn(h, i) <==> s.hosts[i].watched && !ClosedIn([e] + h, i))
  {
    hide Wrap, SumFrom, ReadsFrom, ClosedIn;
    HeardFirst(e, h, i);
    WrapAdd(s.hosts[i].bytes + e.n, SumFrom(h, i));
    WrapAdd(s.hosts[i].count + 1, ReadsFrom(h, i));
  }

  lemma HandledServers(s: Epoll, e: Event)
    requires s.phase == Looping && s.nServer > 0 && e.host < |s.hosts| && e.n >= 0
    ensures var m := Handled(s, e);
            |m.hosts| == |s.hosts| && m.nServer == if e.n == 0 then s.nServer - 1 else s.nServer
  {
  }

  lemma HeardMore(events: seq<Event>, live: nat)
    requires events != [] && live > 0 && events[0].n >= 0
    ensures var h := Heard(events[1..], if events[0].n == 0 then live - 1 else live);
            Heard(events, live) == [events[0]] + h && (h != events[1..] <==> Heard(events, live) != events)
  {
    var h := Heard(events[1..], if events[0].n == 0 then live - 1 else live);
    assert events == [events[0]] + events[1..];
    assert ([events[0]] + h)[1..] == h;
  }

  lemma OutcomeStep(s: Epoll, events: seq<Event>, r: Epoll)
    requires s.phase == Looping && s.nServer > 0 && events != []
    requires events[0].host < |s.hosts| && events[0].n >= 0
    requires Outcome(Handled(s, events[0]), events[1..], r)
    ensures Outcome(s, events, r)
  {
    hide Wrap, SumFrom, ReadsFrom, ClosedIn, Closings, Heard, Handled;
    var e, m, rest := events[0], Handled(s, events[0]), events[1..];
    var h := Heard(rest, m.nServer);
    HandledServers(s, e);
    HeardMore(events, s.nServer);
    HeardFirst(e, h, 0);
    forall i | 0 <= i < |s.hosts|
      ensures var a, b := s.hosts[i], r.hosts[i];
              && b.bytes == Wrap(a.bytes + SumFrom([e] + h, i)) && b.count == Wrap(a.count + ReadsFrom([e] + h, i))
              && (b.open <==> a.open && !ClosedIn([e] + h, i)) && (b.watched <==> a.watched && !ClosedIn([e] + h, i))
    {
      HostStep(s, e, h, i);
    }
  }

  lemma FirstFails(s: Epoll, events: seq<Event>)
    requires s.phase == Looping && s.nServer > 0 && events != []
    requires events[0].host < |s.hosts| && events[0].n < 0
    ensures Outcome(s, events, Handled(s, events[0]))
  {
    hide Wrap;
    forall i | 0 <= i < |s.hosts|
      ensures Wrap(s.hosts[i].bytes) == s.hosts[i].bytes && Wrap(s.hosts[i].count) == s.hosts[i].count
    {
      WrapWord(s.hosts[i].bytes);
      WrapWord(s.hosts[i].count);
    }
  }

  lemma {:induction false} HandledAllOutcome(s: Epoll, events: seq<Event>)
    requires s.phase == Looping && s.nServer > 0
    requires forall i :: 0 <= i < |events| ==> events[i].host < |s.hosts|
    ensures Outcome(s, events, HandledAll(s, events))
    decreases events
  {
    hide Outcome;
    if events == [] {
      NothingHeard(s, events);
    } else if events[0].n < 0 {
      FirstFails(s, events);
    } else {
      var m := Handled(s, events[0]);
      if m.phase == Looping {
        HandledAllOutcome(m, events[1..]);
      } else {
        NothingHeard(m, events[1..]);
        assert HandledAll(m, events[1..]) == m;
      }
      OutcomeStep(s, events, HandledAll(s, events));
    }
  }

  lemma {:induction false} HandledAllAppend(s: Epoll, a: seq<Event>, b: seq<Event>)
    ensures HandledAll(s, a + b) == HandledAll(HandledAll(s, a), b)
    decreases a
  {
    if a == [] || s.phase != Looping {
      assert a == [] ==> a + b == b;
    } else {
      assert (a + b)[1..] == a[1..] + b;
      HandledAllAppend(Handled(s, a[0]), a[1..], b);
    }
  }

  lemma {:induction false} OnlyItsHosts(s: Epoll, events: seq<Event>)
    ensures HandledAll(s, OfHosts(events, |s.hosts|)) == HandledAll(s, events)
    decreases events
  {
    if events != [] && s.phase == Looping {
      var e, rest := events[0], OfHosts(events[1..], |s.hosts|);
      OnlyItsHosts(Handled(s, e), events[1..]);
      assert e.host < |s.hosts| ==> ([e] + rest)[1..] == rest;
      assert [] + rest == rest;
    }
  }

  lemma {:induction false} EventsAreOfHosts(waits: seq<Wait>, n: nat)
    requires n > 0
    ensures forall i :: 0 <= i < |EventsOf(waits, n)| ==> EventsOf(waits, n)[i].host < n
    decreases waits
  {
    hide OfHosts;
    if waits != [] {
      EventsAreOfHosts(waits[1..], n);
    }
  }

  lemma {:induction false} RanByEvents(s: Epoll, waits: seq<Wait>)
    requires |s.hosts| > 0
    ensures Ran(s, waits) == HandledAll(s, EventsOf(waits, |s.hosts|))
    decreases waits
  {
    hide HandledAll, OfHosts;
    NothingToHandle(s);
    if waits != [] && s.phase == Looping {
      var n, rest := |s.hosts|, EventsOf(waits[1..], |s.hosts|);
      RanByEvents(Waited(s, waits[0]), waits[1..]);
      assert [] + rest == rest;
      match waits[0]
      case Interrupted =>
      case TimedOut =>
      case WaitFailed =>
        HandledAllAppend(s, [Event(0, -1)], rest);
        FailedWait(s);
      case Ready(events) =>
        HandledAllAppend(s, OfHosts(events, n), rest);
        OnlyItsHosts(s, events);
    }
  }

  lemma FailedWait(s: Epoll)
    requires |s.hosts| > 0 && s.phase == Looping
    ensures HandledAll(s, [Event(0, -1)]) == s.(phase := Failed)
  {
  }

  lemma NothingToHandle(s: Epoll)
    ensures HandledAll(s, []) == s
    ensures s.phase != Looping ==> forall events :: HandledAll(s, events) == s
  {
  }

  /** Over every run, told from the waits alone: each host's counters are the bytes and the
      number of its nonempty reads, a host is closed exactly if one of its reads was empty,
      the program fails exactly at the first error before all hosts have closed, and
      finishes exactly when they have. */
  lemma CountsAreTheReads(n: nat, waits: seq<Wait>)
    requires n > 0
    ensures var r, events := Ran(Started(n), waits), EventsOf(waits, n);
            var h := Heard(events, n);
            && |r.hosts| == n && r.nServer == n - Closings(h)
            && (forall i :: 0 <= i < n ==>
                  && r.hosts[i].bytes == Wrap(SumFrom(h, i)) && r.hosts[i].count == Wrap(ReadsFrom(h, i))
                  && (r.hosts[i].open <==> !ClosedIn(h, i)) && (r.hosts[i].watched <==> !ClosedIn(h, i)))
            && (r.phase == Finished <==> Closings(h) == n)
            && (r.phase == Failed <==> |h| < |events| && events[|h|].n < 0 && Closings(h) < n)
  {
    hide Wrap, Ran, HandledAll, Closings, ReadsFrom, SumFrom, ClosedIn, Heard;
    RanByEvents(Started(n), waits);
    EventsAreOfHosts(waits, n);
    HandledAllOutcome(Started(n), EventsOf(waits, n));
  }

  // ---------------------------------------------------------------- the process

  lemma BatchFits(s: Epoll, events: seq<Event>)
    requires Live(s) && Lawful(s, events)
    ensures |events| <= |s.hosts|
  {
    WatchedBound(s.hosts);
  }

  lemma RanFrom(s: Epoll, waits: seq<Wait>, i: nat)
    requires i < |waits| && s.phase == Looping && Live(s) && LawfulRun(s, waits[i..])
    ensures waits[i].Ready? ==> Lawful(s, waits[i].events)
    ensures Live(Waited(s, waits[i])) && LawfulRun(Waited(s, waits[i]), waits[i + 1..])
    ensures Ran(s, waits[i..]) == Ran(Waited(s, waits[i]), waits[i + 1..])
  {
    hide Lawful, HandledAll;
    assert waits[i..][1..] == waits[i + 1..];
    if waits[i].Ready? {
      HandledAllLive(s, waits[i].events);
    }
  }

  lemma RanStops(s: Epoll, waits: seq<Wait>, i: nat)
    requires i <= |waits| && (i == |waits| || s.phase != Looping)
    ensures Ran(s, waits[i..]) == s
  {
  }

  ghost function HostOf(p: HostInfo): Host
    reads p
  {
    Host(p.readBytes, p.readCount, p.open, p.watched)
  }

  ghost function HostsOf(nodes: seq<HostInfo>): (hs: seq<Host>)
    reads nodes
    ensures |hs| == |nodes| && forall i :: 0 <= i < |hs| ==> hs[i] == HostOf(nodes[i])
  {
    seq(|nodes|, i requires 0 <= i < |nodes| reads nodes => HostOf(nodes[i]))
  }

  /** The loop that opens the sockets and hands them to epoll_ctl, along the list. */
  method RegisterAll(hostList: HostInfo?, ghost nodes: seq<HostInfo>)
    requires IsList(hostList, nodes)
    modifies nodes
    ensures IsList(hostList, nodes)
    ensures forall i :: 0 <= i < |nodes| ==>
              HostOf(nodes[i]) == old(HostOf(nodes[i])).(open := true, watched := true)
  {
    var p := hostList;
    ghost var k := 0;
    while p != null
      invariant 0 <= k <= |nodes| && p == (if k < |nodes| then nodes[k] else null)
      invariant IsList(hostList, nodes)
      invariant forall i :: 0 <= i < |nodes| ==>
                  HostOf(nodes[i]) == if i < k then old(HostOf(nodes[i])).(open := true, watched := true)
                                      else old(HostOf(nodes[i]))
      decreases |nodes| - k
    {
      forall i | 0 <= i < |nodes| && i != k
        ensures nodes[i] != p
      {
        if i < k {
          ListsAreAcyclic(hostList, nodes, i, k);
        } else {
          ListsAreAcyclic(hostList, nodes, k, i);
        }
      }
      p.open, p.watched := true, true;
      p := p.next;
      k := k + 1;
    }
  }

  method Prepare(argv: seq<string>) returns (hostList: HostInfo?, ghost nodes: seq<HostInfo>)
    ensures IsList(hostList, nodes) && |nodes| == |argv| && fresh(nodes)
    ensures HostsOf(nodes) == Started(|argv|).hosts
    ensures forall i :: 0 <= i < |nodes| ==> Endpoint(nodes[i].ipAddress, nodes[i].port) == ParseHost(argv[i])
  {
    hostList, nodes := BuildList(argv);
    RegisterAll(hostList, nodes);
  }

  class Process {
    const hostList: HostInfo?
    ghost const nodes: seq<HostInfo>
    const evRet: array<HostInfo?>
    var nServer: int
    var phase: Phase
    ghost var log: seq<(nat, nat)>

    ghost predicate Valid()
      reads this, nodes
    {
      IsList(hostList, nodes) && evRet.Length == |nodes|
    }

    ghost function Abs(): Epoll
      reads this, nodes
    {
      Epoll(HostsOf(nodes), nServer, phase, log)
    }

    /** Builds the list, opens a socket per host, sizes the event array, and registers
        every socket by walking the list. */
    constructor (argv: seq<string>)
      ensures Valid() && |nodes| == |argv| && Abs() == Started(|argv|) && fresh(nodes) && fresh(evRet)
      ensures forall i :: 0 <= i < |nodes| ==> Endpoint(nodes[i].ipAddress, nodes[i].port) == ParseHost(argv[i])
    {
      hide IsList, ParseHost;
      var head;
      ghost var all;
      head, all := Prepare(argv);
      hostList, nodes := head, all;
      nServer, phase, log := |argv|, Looping, [];
      evRet := new HostInfo?[|argv|];
    }

    /** One event: the read, and what the program makes of its result. */
    method HandleEvent(p: HostInfo, ghost e: Event, n: int)
      requires Valid() && phase == Looping && e.host < |nodes| && p == nodes[e.host] && n == e.n
      requires p.open
      modifies this`nServer, this`phase, this`log, p`readBytes, p`readCount, p`open, p`watched
      ensures Valid() && Abs() == Handled(old(Abs()), e)
    {
      forall i | 0 <= i < |nodes| && i != e.host
        ensures nodes[i] != p
      {
        if i < e.host {
          ListsAreAcyclic(hostList, nodes, i, e.host);
        } else {
          ListsAreAcyclic(hostList, nodes, e.host, i);
        }
      }
      if n < 0 {
        phase := Failed;
      } else if n == 0 {
        p.watched := false;
        p.open := false;
        nServer := nServer - 1;
        if nServer == 0 {
          phase := Finished;
        }
      } else {
        p.readBytes := Add(p.readBytes, n);
        p.readCount := Add(p.readCount, 1);
        log := log + [(e.host, n)];
      }
    }

    /** epoll_wait stores the ready hosts in the event array; the loop handles them. */
    method HandleBatch(events: seq<Event>, ready: seq<HostInfo>)
      requires Valid() && phase == Looping && Live(Abs()) && Lawful(Abs(), events)
      requires |ready| == |events| && forall i :: 0 <= i < |ready| ==> ready[i] == nodes[events[i].host]
      modifies this`nServer, this`phase, this`log, nodes, evRet
      ensures Valid() && Abs() == HandledAll(old(Abs()), events)
    {
      hide Live, Lawful, Handled, IsList;
      BatchFits(Abs(), events);
      var nfds := |events|;
      forall i | 0 <= i < nfds {
        evRet[i] := ready[i];
      }
      var i := 0;
      while i < nfds && phase == Looping
        invariant 0 <= i <= nfds && Valid()
        invariant forall j :: 0 <= j < nfds ==> evRet[j] == ready[j]
        invariant Live(Abs()) && (phase == Looping ==> Lawful(Abs(), events[i..]))
        invariant HandledAll(Abs(), events[i..]) == HandledAll(old(Abs()), events)
      {
        ghost var s := Abs();
        RestLawful(s, events[i..]);
        FirstIsOpen(s, events[i..]);
        assert events[i..][0] == events[i] && events[i..][1..] == events[i + 1..];
        HandleEvent(evRet[i], events[i], events[i].n);
        i := i + 1;
      }
    }

    /** The loop of `main`. `ready` holds the host pointers that come back with the events. */
    method Loop(waits: seq<Wait>, ready: seq<seq<HostInfo>>)
      requires Valid() && phase == Looping && Live(Abs()) && LawfulRun(Abs(), waits) && |ready| == |waits|
      requires forall i :: 0 <= i < |waits| && waits[i].Ready? ==>
                 |ready[i]| == |waits[i].events| && forall j :: 0 <= j < |ready[i]| ==>
                   waits[i].events[j].host < |nodes| && ready[i][j] == nodes[waits[i].events[j].host]
      modifies this`nServer, this`phase, this`log, nodes, evRet
      ensures Valid() && Abs() == Ran(old(Abs()), waits)
    {
      hide HandledAll, Lawful, IsList, Ran;
      var i := 0;
      assert waits[0..] == waits;
      while i < |waits| && phase == Looping
        invariant 0 <= i <= |waits| && Valid() && Live(Abs()) && LawfulRun(Abs(), waits[i..])
        invariant Ran(Abs(), waits[i..]) == Ran(old(Abs()), waits)
      {
        ghost var s := Abs();
        RanFrom(s, waits, i);
        match waits[i] {
          case Interrupted =>
          case TimedOut =>
          case WaitFailed =>
            phase := Failed;
          case Ready(events) =>
            HandleBatch(events, ready[i]);
        }
        assert Abs() == Waited(s, waits[i]);
        i := i + 1;
      }
      RanStops(Abs(), waits, i);
    }
  }
}
