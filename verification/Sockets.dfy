/** `read` and `write` on a descriptor, driven by a finite history of what the kernel
    did, and the two retry loops around them. The loops are written for byte streams;
    the programs use them on datagram sockets. */
module Sockets {
  import opened Bytes

  datatype Mode = Stream | Datagram

  /** What the kernel has for a `read`. */
  datatype Arrival = Data(bytes: seq<Byte>) | Interrupt | Fault | EndOfFile

  /** What the kernel answers to a `write`. */
  datatype Reply = Accept(count: nat) | WriteInterrupt | WriteFault

  /** `Blocked`: the history ends while the caller is still inside the call. */
  datatype Status = Returned | Failed | Blocked

  /** Payload limit of a UDP datagram over IPv4: 65535 - 20 - 8. */
  const MAX_DATAGRAM := 65507

  // ---------------------------------------------------------------- reading

  datatype ReadResult = Got(data: seq<Byte>) | ReadInterrupted | ReadFailed | NothingYet

  /** One `read` of at most `want` bytes. A stream keeps what did not fit for the next
      read; a datagram socket discards it (RFC 768, read(2)). */
  function ReadCall(mode: Mode, script: seq<Arrival>, want: nat): (ReadResult, seq<Arrival>) {
    if script == [] then (NothingYet, []) else
    var rest := script[1..];
    match script[0]
    case Interrupt => (ReadInterrupted, rest)
    case Fault => (ReadFailed, rest)
    case EndOfFile => (Got([]), rest)
    case Data(b) =>
      if |b| <= want then (Got(b), rest)
      else if mode.Stream? then (Got(b[..want]), [Data(b[want..])] + rest)
      else (Got(b[..want]), rest)
  }

  datatype Transfer = Transfer(status: Status, data: seq<Byte>, rest: seq<Arrival>) {
    function After(earlier: seq<Byte>): Transfer {
      this.(data := earlier + data)
    }
  }

  /** What an n-byte `readn` takes from the history. */
  function Drain(mode: Mode, script: seq<Arrival>, n: nat): (t: Transfer)
    ensures |t.data| <= n
    decreases n, |script|
  {
    if n == 0 then Transfer(Returned, [], script) else
    var (r, rest) := ReadCall(mode, script, n);
    match r
    case NothingYet => Transfer(Blocked, [], rest)
    case ReadFailed => Transfer(Failed, [], rest)
    case ReadInterrupted => Drain(mode, rest, n)
    case Got(b) =>
      if b == [] then Transfer(Returned, [], rest)
      else Drain(mode, rest, n - |b|).After(b)
  }

  /** All bytes the history still holds, in order. */
  function Pending(script: seq<Arrival>): seq<Byte> {
    if script == [] then []
    else if script[0].Data? then script[0].bytes + Pending(script[1..])
    else Pending(script[1..])
  }

  function Datagrams(script: seq<Arrival>): seq<seq<Byte>> {
    if script == [] then []
    else if script[0].Data? then [script[0].bytes] + Datagrams(script[1..])
    else Datagrams(script[1..])
  }

  function Quiet(script: seq<Arrival>): seq<Arrival> {
    if script == [] then []
    else if script[0].Interrupt? then Quiet(script[1..])
    else [script[0]] + Quiet(script[1..])
  }

  function Interrupts(k: nat): (s: seq<Arrival>)
    ensures |s| == k && forall i :: 0 <= i < k ==> s[i] == Interrupt
  {
    if k == 0 then [] else [Interrupt] + Interrupts(k - 1)
  }

  /** On a stream no byte is lost, repeated or reordered, whatever the outcome. */
  lemma {:induction false} StreamConserves(script: seq<Arrival>, n: nat)
    ensures var t := Drain(Stream, script, n); t.data + Pending(t.rest) == Pending(script)
    decreases n, |script|
  {
    hide Pending;
    if n > 0 {
      var (r, rest) := ReadCall(Stream, script, n);
      CallConserves(script, n);
      if r.ReadInterrupted? {
        StreamConserves(rest, n);
      } else if r.Got? && r.data != [] {
        StreamConserves(rest, n - |r.data|);
        var t := Drain(Stream, rest, n - |r.data|);
        assert (r.data + t.data) + Pending(t.rest) == r.data + (t.data + Pending(t.rest));
      }
    }
  }

  lemma CallConserves(script: seq<Arrival>, n: nat)
    ensures var (r, rest) := ReadCall(Stream, script, n);
            (if r.Got? then r.data else []) + Pending(rest) == Pending(script)
  {
    if script != [] && script[0].Data? && |script[0].bytes| > n {
      var b, tail := script[0].bytes, script[1..];
      PendingPush(b[n..], tail);
      SplitAppend(b, n, Pending(tail));
    }
  }

  lemma PendingPush(b: seq<Byte>, tail: seq<Arrival>)
    ensures Pending([Data(b)] + tail) == b + Pending(tail)
  {
    assert ([Data(b)] + tail)[1..] == tail;
  }

  lemma SplitAppend(b: seq<Byte>, n: nat, c: seq<Byte>)
    requires n <= |b|
    ensures b[..n] + (b[n..] + c) == b + c
  {
  }

  ghost predicate EndsReading(a: Arrival) {
    a == EndOfFile || a == Data([])
  }

  /** A short count means that the last thing taken was an end of file (or an empty
      datagram, which `readn` cannot tell from one). */
  lemma {:induction false} ShortOnlyAtEnd(mode: Mode, script: seq<Arrival>, n: nat)
    requires Drain(mode, script, n).status == Returned
    requires |Drain(mode, script, n).data| < n
    ensures exists i ::
              0 <= i < |script| && EndsReading(script[i]) && Drain(mode, script, n).rest == script[i + 1..]
    decreases n, |script|
  {
    var (r, rest) := ReadCall(mode, script, n);
    if r.Got? && r.data == [] {
      assert EndsReading(script[0]) && rest == script[0 + 1..];
    } else {
      var left := if r.Got? then n - |r.data| else n;
      assert rest == script[1..];
      ShortOnlyAtEnd(mode, rest, left);
      var i :| 0 <= i < |rest| && EndsReading(rest[i]) && Drain(mode, rest, left).rest == rest[i + 1..];
      assert EndsReading(script[i + 1]) && rest[i + 1..] == script[i + 1 + 1..];
    }
  }

  /** Interrupted calls are invisible in the outcome, wherever they fall. */
  lemma {:induction false} InterruptsAreInvisible(mode: Mode, script: seq<Arrival>, n: nat)
    ensures var t := Drain(mode, script, n);
            Drain(mode, Quiet(script), n) == Transfer(t.status, t.data, Quiet(t.rest))
    decreases n, |script|
  {
    if n > 0 && script != [] {
      var (r, rest) := ReadCall(mode, script, n);
      assert r.ReadInterrupted? <==> script[0].Interrupt?;
      if r.ReadInterrupted? {
        InterruptsAreInvisible(mode, rest, n);
      } else {
        assert Quiet(script)[0] == script[0] && Quiet(script)[1..] == Quiet(script[1..]);
        assert ReadCall(mode, Quiet(script), n).1 == Quiet(rest);
        if r.Got? && r.data != [] {
          InterruptsAreInvisible(mode, rest, n - |r.data|);
        }
      }
    }
  }

  /** A history of nothing but interrupts and datagrams of at least n bytes. */
  ghost predicate FullDatagrams(script: seq<Arrival>, n: nat) {
    forall i :: 0 <= i < |script| ==> script[i].Interrupt? || (script[i].Data? && |script[i].bytes| >= n)
  }

  /** A socket queue as what the kernel has for the reads to come. */
  function AsArrivals(ds: seq<seq<Byte>>): seq<Arrival> {
    if ds == [] then [] else [Data(ds[0])] + AsArrivals(ds[1..])
  }

  lemma {:induction false} QueueIsArrivals(k: nat, ds: seq<seq<Byte>>, n: nat)
    requires AllAtLeast(ds, n)
    ensures Datagrams(Interrupts(k) + AsArrivals(ds)) == ds
    ensures FullDatagrams(Interrupts(k) + AsArrivals(ds), n)
  {
    hide AsArrivals;
    if k > 0 {
      QueueIsArrivals(k - 1, ds, n);
      var rest := Interrupts(k - 1) + AsArrivals(ds);
      assert Interrupts(k) + AsArrivals(ds) == [Interrupt] + rest;
      FullCons(Interrupt, rest, n);
    } else {
      QueueAlone(ds, n);
      assert Interrupts(0) + AsArrivals(ds) == AsArrivals(ds);
    }
  }

  lemma {:induction false} QueueAlone(ds: seq<seq<Byte>>, n: nat)
    requires AllAtLeast(ds, n)
    ensures Datagrams(AsArrivals(ds)) == ds && FullDatagrams(AsArrivals(ds), n)
    decreases ds
  {
    if ds != [] {
      QueueAlone(ds[1..], n);
      FullCons(Data(ds[0]), AsArrivals(ds[1..]), n);
      assert ds == [ds[0]] + ds[1..];
    }
  }

  lemma FullCons(a: Arrival, rest: seq<Arrival>, n: nat)
    requires FullDatagrams(rest, n) && (a.Interrupt? || (a.Data? && |a.bytes| >= n))
    ensures FullDatagrams([a] + rest, n)
    ensures Datagrams([a] + rest) == (if a.Data? then [a.bytes] else []) + Datagrams(rest)
  {
    assert ([a] + rest)[1..] == rest;
  }

  /** One `readn`, one datagram: the first one, cut to n bytes; the others stay. */
  lemma {:induction false} DrainTakesFirst(script: seq<Arrival>, n: nat)
    requires n > 0 && FullDatagrams(script, n) && Datagrams(script) != []
    ensures var t := Drain(Datagram, script, n);
            && t.status == Returned && |Datagrams(script)[0]| >= n
            && t.data == Datagrams(script)[0][..n]
            && Datagrams(t.rest) == Datagrams(script)[1..]
            && FullDatagrams(t.rest, n)
  {
    if script[0].Interrupt? {
      DrainTakesFirst(script[1..], n);
    } else {
      var (r, rest) := ReadCall(Datagram, script, n);
      assert Drain(Datagram, rest, n - |r.data|) == Transfer(Returned, [], rest);
      assert r.data + [] == r.data;
    }
  }

  /** With no datagram queued the call cannot return. */
  lemma {:induction false} DrainBlocks(script: seq<Arrival>, n: nat)
    requires n > 0 && FullDatagrams(script, n) && Datagrams(script) == []
    ensures Drain(Datagram, script, n) == Transfer(Blocked, [], [])
  {
    if script != [] {
      DrainBlocks(script[1..], n);
    }
  }

  lemma {:induction false} DrainSkipsInterrupts(mode: Mode, k: nat, script: seq<Arrival>, n: nat)
    requires n > 0
    ensures Drain(mode, Interrupts(k) + script, n) == Drain(mode, script, n)
  {
    if k > 0 {
      DrainSkipsInterrupts(mode, k - 1, script, n);
      assert (Interrupts(k) + script)[1..] == Interrupts(k - 1) + script;
    } else {
      assert Interrupts(k) + script == script;
    }
  }

  lemma {:induction false} RestShrinks(script: seq<Arrival>, n: nat)
    ensures |Drain(Datagram, script, n).rest| <= |script|
    ensures n > 0 && script != [] ==> |Drain(Datagram, script, n).rest| < |script|
    decreases n, |script|
  {
    if n > 0 && script != [] {
      var (r, rest) := ReadCall(Datagram, script, n);
      if r.ReadInterrupted? {
        RestShrinks(rest, n);
      } else if r.Got? && r.data != [] {
        RestShrinks(rest, n - |r.data|);
      }
    }
  }

  /** Exactly when a datagram socket keeps its framing under `readn`: with another
      nonempty datagram queued behind it, a datagram is read alone if and only if it is
      at least as long as the request, or empty. A shorter one is glued to its successor. */
  lemma OneReadOneDatagramIff(k: nat, d: seq<Byte>, j: nat, e: seq<Byte>, tail: seq<Arrival>, n: nat)
    requires n > 0 && e != []
    ensures var behind := Interrupts(j) + [Data(e)] + tail;
            Drain(Datagram, Interrupts(k) + ([Data(d)] + behind), n).rest == behind
            <==> (|d| >= n || d == [])
  {
    var behind := Interrupts(j) + [Data(e)] + tail;
    var here := [Data(d)] + behind;
    DrainSkipsInterrupts(Datagram, k, here, n);
    assert here[1..] == behind;
    if 0 < |d| < n {
      RestShrinks(behind, n - |d|);
    }
  }

  /** Over nonempty datagrams a call that returns has taken at least one of them, at least
      two if the first is shorter than the request, and has filled the request, the first
      datagram in front; the others stay as they were. */
  lemma {:induction false} DrainTakesSome(script: seq<Arrival>, n: nat)
    requires n > 0 && FullDatagrams(script, 1)
    ensures var t := Drain(Datagram, script, n);
            var before, after := Datagrams(script), Datagrams(t.rest);
            && t.status != Failed && FullDatagrams(t.rest, 1)
            && |after| <= |before| && after == before[|before| - |after|..]
            && (t.status == Returned ==> |after| < |before|)
            && (t.status == Returned && |before[0]| < n ==> |after| < |before| - 1)
            && (t.status == Returned ==>
                  |t.data| == n && forall i :: 0 <= i < n && i < |before[0]| ==> t.data[i] == before[0][i])
    decreases n, |script|
  {
    if script != [] {
      if script[0].Interrupt? {
        DrainTakesSome(script[1..], n);
      } else if |script[0].bytes| < n {
        DrainTakesSome(script[1..], n - |script[0].bytes|);
      } else {
        assert Drain(Datagram, script[1..], 0).rest == script[1..];
      }
    }
  }

  /** What a `readn` may go on after. */
  ghost predicate Plain(a: Arrival) {
    a.Interrupt? || (a.Data? && a.bytes != [])
  }

  ghost predicate AllPlain(script: seq<Arrival>) {
    forall i :: 0 <= i < |script| ==> Plain(script[i])
  }

  /** The i-th event is an error, met with fewer than n bytes read. */
  ghost predicate FaultAt(script: seq<Arrival>, i: nat, n: nat) {
    && i < |script| && script[i] == Fault
    && AllPlain(script[..i]) && |Pending(script[..i])| < n
  }

  ghost predicate Faults(script: seq<Arrival>, n: nat) {
    exists i: nat :: FaultAt(script, i, n)
  }

  /** Exactly when a `readn` fails and when it keeps waiting, in either mode. */
  lemma {:induction false} DrainStatus(mode: Mode, script: seq<Arrival>, n: nat)
    ensures Drain(mode, script, n).status == Failed <==> Faults(script, n)
    ensures Drain(mode, script, n).status == Blocked <==> AllPlain(script) && |Pending(script)| < n
    decreases n, |script|
  {
    if n > 0 && script != [] {
      FaultStep(script, n);
      PlainStep(script);
      var (r, rest) := ReadCall(mode, script, n);
      if r.ReadInterrupted? {
        DrainStatus(mode, rest, n);
      } else if r.Got? && r.data != [] && rest == script[1..] {
        DrainStatus(mode, rest, n - |r.data|);
      }
    }
  }

  lemma PlainStep(script: seq<Arrival>)
    requires script != []
    ensures AllPlain(script) <==> Plain(script[0]) && AllPlain(script[1..])
  {
    hide Plain;
    assert forall i :: 1 <= i < |script| ==> script[i] == script[1..][i - 1];
    assert forall i :: 0 <= i < |script| - 1 ==> script[1..][i] == script[i + 1];
  }

  lemma FaultStep(script: seq<Arrival>, n: nat)
    requires script != []
    ensures Faults(script, n) <==>
            if script[0] == Fault then n > 0
            else Plain(script[0]) &&
                 var d := if script[0].Data? then |script[0].bytes| else 0;
                 d < n && Faults(script[1..], n - d)
  {
    var d := if script[0].Data? then |script[0].bytes| else 0;
    if script[0] == Fault {
      assert n > 0 ==> FaultAt(script, 0, n);
      if i: nat :| FaultAt(script, i, n) && i > 0 {
        assert script[..i][0] == Fault;
      }
    } else {
      forall i: nat | 0 < i < |script|
        ensures FaultAt(script, i, n) <==> Plain(script[0]) && d < n && FaultAt(script[1..], i - 1, n - d)
      {
        PlainStep(script[..i]);
        assert script[..i][1..] == script[1..][..i - 1];
      }
      if i: nat :| FaultAt(script, i, n) {
        assert FaultAt(script[1..], i - 1, n - d);
      }
      if d < n && Plain(script[0]) {
        var m: nat := n - d;
        if i: nat :| FaultAt(script[1..], i, m) {
          assert FaultAt(script, i + 1, n);
        }
      }
    }
  }

  /** A read from a datagram socket uses up a beginning of the history, with an error in it
      exactly if it fails, and all of it if it keeps waiting. */
  lemma {:induction false} DrainConsumes(script: seq<Arrival>, n: nat)
    ensures var t := Drain(Datagram, script, n);
            var k := |script| - |t.rest|;
            && 0 <= k && t.rest == script[k..]
            && (t.status == Failed <==> Fault in script[..k])
            && (t.status == Blocked ==> t.rest == [])
    decreases n, |script|
  {
    if n > 0 && script != [] {
      var (r, rest) := ReadCall(Datagram, script, n);
      var left := if r.Got? then n - |r.data| else n;
      assert rest == script[1..] && (r.ReadFailed? <==> script[0] == Fault);
      if r.ReadInterrupted? || (r.Got? && r.data != []) {
        DrainConsumes(rest, left);
        var t := Drain(Datagram, rest, left);
        DrainGoesOn(script, n);
        ConsumedStep(script, |rest| - |t.rest|);
      } else {
        ConsumedStep(script, 0);
      }
    }
  }

  lemma DrainGoesOn(script: seq<Arrival>, n: nat)
    requires n > 0
    ensures var (r, rest) := ReadCall(Datagram, script, n);
            r.ReadInterrupted? || (r.Got? && r.data != []) ==>
              var t, u := Drain(Datagram, script, n), Drain(Datagram, rest, if r.Got? then n - |r.data| else n);
              t.status == u.status && t.rest == u.rest
  {
  }

  lemma ConsumedStep(script: seq<Arrival>, k: nat)
    requires script != [] && k <= |script| - 1
    ensures script[1..][k..] == script[k + 1..]
    ensures Fault in script[..k + 1] <==> script[0] == Fault || Fault in script[1..][..k]
  {
    assert script[..k + 1] == [script[0]] + script[1..][..k];
  }

  /** Long datagrams are full, whatever interrupts stand between them. */
  lemma {:induction false} LongIsFull(script: seq<Arrival>, k: nat, n: nat)
    requires FullDatagrams(script, k)
    ensures AllAtLeast(Datagrams(script), n) <==> FullDatagrams(script, n)
  {
    if script != [] {
      LongIsFull(script[1..], k, n);
      var ds := Datagrams(script[1..]);
      if script[0].Data? {
        assert Datagrams(script)[1..] == ds;
        assert AllAtLeast(Datagrams(script), n) <==> |script[0].bytes| >= n && AllAtLeast(ds, n) by {
          assert forall i :: 1 <= i < |Datagrams(script)| ==> Datagrams(script)[i] == ds[i - 1];
          assert forall i :: 0 <= i < |ds| ==> ds[i] == Datagrams(script)[i + 1];
        }
      }
      assert FullDatagrams(script, n) <==>
             (script[0].Interrupt? || |script[0].bytes| >= n) && FullDatagrams(script[1..], n) by {
        assert forall i :: 1 <= i < |script| ==> script[i] == script[1..][i - 1];
        assert forall i :: 0 <= i < |script| - 1 ==> script[1..][i] == script[i + 1];
      }
    }
  }

  /** Two datagrams that together have the requested length come back as one. */
  lemma TwoGlued(a: seq<Byte>, b: seq<Byte>)
    requires a != [] && b != []
    ensures Drain(Datagram, [Data(a), Data(b)], |a| + |b|) == Transfer(Returned, a + b, [])
  {
    var behind: seq<Arrival> := [Data(b)];
    assert [Data(a), Data(b)][1..] == behind && behind[1..] == [];
    OneWhole(b);
    hide Drain;
    DrainTurn(Datagram, [Data(a), Data(b)], |a| + |b|, []);
    assert Drain(Datagram, behind, |b|).After([] + a).data == a + b;
    assert [] + Drain(Datagram, [Data(a), Data(b)], |a| + |b|).data == a + b;
  }

  lemma OneWhole(b: seq<Byte>)
    requires b != []
    ensures Drain(Datagram, [Data(b)], |b|) == Transfer(Returned, b, [])
  {
    assert Drain(Datagram, [], 0).data == [];
    assert [Data(b)][1..] == [] && b + [] == b;
  }

  // ---------------------------------------------------------------- writing

  datatype Emission = Emission(status: Status, wire: seq<seq<Byte>>, rest: seq<Reply>) {
    function After(earlier: seq<Byte>): Emission {
      this.(wire := [earlier] + wire)
    }

    ghost function Behind(earlier: seq<seq<Byte>>): Emission {
      this.(wire := earlier + wire)
    }
  }

  datatype WriteResult = Wrote(count: nat) | WriteInterrupted | WriteFailed | NoReplyYet

  /** One `write` of nonempty data. A stream may take a part; a datagram socket takes all
      of it as one datagram, or refuses it when it is too long. */
  function WriteCall(mode: Mode, replies: seq<Reply>, len: nat): (r: (WriteResult, seq<Reply>))
    ensures r.0.Wrote? ==> r.0.count <= len
  {
    if replies == [] then (NoReplyYet, []) else
    var rest := replies[1..];
    match replies[0]
    case WriteInterrupt => (WriteInterrupted, rest)
    case WriteFault => (WriteFailed, rest)
    case Accept(k) =>
      if mode.Datagram? then (if len > MAX_DATAGRAM then WriteFailed else Wrote(len), rest)
      else (Wrote(if k < len then k else len), rest)
  }

  /** What `writen` hands to the network, unit by unit. */
  function Emit(mode: Mode, replies: seq<Reply>, data: seq<Byte>): Emission
    decreases |data|, |replies|
  {
    if data == [] then Emission(Returned, [], replies) else
    var (r, rest) := WriteCall(mode, replies, |data|);
    match r
    case NoReplyYet => Emission(Blocked, [], rest)
    case WriteFailed => Emission(Failed, [], rest)
    case WriteInterrupted => Emit(mode, rest, data)
    case Wrote(k) =>
      if k == 0 then Emission(Failed, [], rest)
      else Emit(mode, rest, data[k..]).After(data[..k])
  }

  function Flatten(units: seq<seq<Byte>>): seq<Byte> {
    if units == [] then [] else units[0] + Flatten(units[1..])
  }

  /** On a stream the bytes that went out are a prefix of the data, each of them once;
      all of it exactly when the call succeeds. */
  lemma {:induction false} StreamWritesPrefix(replies: seq<Reply>, data: seq<Byte>)
    ensures var e := Emit(Stream, replies, data);
            && Flatten(e.wire) <= data
            && (e.status == Returned <==> Flatten(e.wire) == data)
    decreases |data|, |replies|
  {
    if data != [] {
      var (r, rest) := WriteCall(Stream, replies, |data|);
      if r.WriteInterrupted? {
        StreamWritesPrefix(rest, data);
      } else if r.Wrote? && r.count > 0 {
        var k := r.count;
        StreamWritesPrefix(rest, data[k..]);
        var e := Emit(Stream, rest, data[k..]);
        assert Emit(Stream, replies, data).wire[1..] == e.wire;
        assert data == data[..k] + data[k..];
        assert Flatten(e.wire) == data[k..] <==> data[..k] + Flatten(e.wire) == data by {
          if data[..k] + Flatten(e.wire) == data {
            assert (data[..k] + Flatten(e.wire))[k..] == Flatten(e.wire);
          }
        }
      }
    }
  }

  /** No call was answered. */
  ghost predicate AllInterrupted(replies: seq<Reply>) {
    forall i :: 0 <= i < |replies| ==> replies[i].WriteInterrupt?
  }

  /** One `writen`, one datagram: it succeeds exactly when the first reply that is not an
      interrupt accepts and the payload fits, keeps waiting exactly when there is no such
      reply, and leaves nothing on the wire unless it succeeds. */
  lemma {:induction false} WritesOneDatagram(replies: seq<Reply>, data: seq<Byte>)
    requires data != []
    ensures var e := Emit(Datagram, replies, data);
            && e.wire == (if e.status == Returned then [data] else [])
            && (e.status == Returned <==>
                |data| <= MAX_DATAGRAM && FirstAnswer(replies).Accept?)
            && (e.status == Blocked <==> AllInterrupted(replies))
  {
    var (r, rest) := WriteCall(Datagram, replies, |data|);
    if r.WriteInterrupted? {
      WritesOneDatagram(rest, data);
    } else if r.Wrote? {
      assert data[r.count..] == [] && data[..r.count] == data;
    }
  }

  function SumAccepted(replies: seq<Reply>): nat {
    if replies == [] then 0
    else (if replies[0].Accept? then replies[0].count else 0) + SumAccepted(replies[1..])
  }

  /** What a `writen` on a stream may go on after. */
  ghost predicate AllProgress(replies: seq<Reply>) {
    forall i :: 0 <= i < |replies| ==> !replies[i].WriteFault? && replies[i] != Accept(0)
  }

  /** On a stream a call keeps waiting exactly when no answer is an error or takes nothing,
      and all of them together take less than the data. */
  lemma {:induction false} StreamWriteWaits(replies: seq<Reply>, data: seq<Byte>)
    ensures Emit(Stream, replies, data).status == Blocked <==>
            AllProgress(replies) && SumAccepted(replies) < |data|
    decreases |data|, |replies|
  {
    if data != [] && replies != [] {
      var (r, rest) := WriteCall(Stream, replies, |data|);
      assert AllProgress(replies) <==>
             !replies[0].WriteFault? && replies[0] != Accept(0) && AllProgress(rest) by {
        assert forall i :: 1 <= i < |replies| ==> replies[i] == rest[i - 1];
        assert forall i :: 0 <= i < |rest| ==> rest[i] == replies[i + 1];
      }
      if r.WriteInterrupted? {
        StreamWriteWaits(rest, data);
      } else if r.Wrote? && r.count > 0 {
        StreamWriteWaits(rest, data[r.count..]);
      }
    }
  }

  /** The first reply that is not an interrupt; with none, the call never succeeds. */
  function FirstAnswer(replies: seq<Reply>): Reply {
    if replies == [] then WriteFault
    else if replies[0].WriteInterrupt? then FirstAnswer(replies[1..])
    else replies[0]
  }

  /** End-to-end framing: what one `writen` sends, one `readn` of the same size returns,
      with the sequence number intact, whatever interrupts hit either side. */
  lemma FramingRoundTrip(seqNum: Word64.Word, writeBuf: seq<Byte>, replies: seq<Reply>,
                         readBuf: seq<Byte>, k: nat, tail: seq<Arrival>)
    requires SEQ_BYTES <= |writeBuf| <= |readBuf|
    requires Emit(Datagram, replies, Stamp(seqNum, writeBuf)).status == Returned
    ensures var e := Emit(Datagram, replies, Stamp(seqNum, writeBuf));
            && |e.wire| == 1
            && var t := Drain(Datagram, Interrupts(k) + ([Data(e.wire[0])] + tail), |writeBuf|);
            && t == Transfer(Returned, e.wire[0], tail)
            && GetSeqNum(Overwrite(readBuf, t.data)) == seqNum
  {
    var d := Stamp(seqNum, writeBuf);
    WritesOneDatagram(replies, d);
    DrainSkipsInterrupts(Datagram, k, [Data(d)] + tail, |writeBuf|);
    assert ([Data(d)] + tail)[1..] == tail;
    assert d + [] == d;
    assert Overwrite(readBuf, d)[..8] == d[..8];
  }

  // ---------------------------------------------------------------- the loops

  function Splice(buf: seq<Byte>, off: nat, data: seq<Byte>): seq<Byte>
    requires off + |data| <= |buf|
  {
    buf[..off] + data + buf[off + |data|..]
  }

  class Socket {
    const mode: Mode
    var arrivals: seq<Arrival>
    var replies: seq<Reply>
    var wire: seq<seq<Byte>>

    constructor (mode: Mode, arrivals: seq<Arrival>, replies: seq<Reply>)
      ensures this.mode == mode && this.arrivals == arrivals && this.replies == replies && wire == []
    {
      this.mode, this.arrivals, this.replies, wire := mode, arrivals, replies, [];
    }

    /** read(2) into `buf` at offset `off`. */
    method Read(buf: array<Byte>, off: nat, want: nat) returns (r: ReadResult)
      requires off + want <= buf.Length
      modifies this`arrivals, buf
      ensures (r, arrivals) == ReadCall(mode, old(arrivals), want)
      ensures r.Got? ==> |r.data| <= want && buf[..] == Splice(old(buf[..]), off, r.data)
      ensures !r.Got? ==> buf[..] == old(buf[..])
    {
      var (res, rest) := ReadCall(mode, arrivals, want);
      r, arrivals := res, rest;
      if r.Got? {
        forall i | 0 <= i < |r.data| {
          buf[off + i] := r.data[i];
        }
      }
    }

    /** write(2) of `len` bytes of `buf` from offset `off`. */
    method Write(buf: array<Byte>, off: nat, len: nat) returns (r: WriteResult)
      requires off + len <= buf.Length
      modifies this`replies, this`wire
      ensures (r, replies) == WriteCall(mode, old(replies), len)
      ensures wire == old(wire) + (if r.Wrote? && r.count > 0 then [buf[off..off + r.count]] else [])
    {
      var (res, rest) := WriteCall(mode, replies, len);
      r, replies := res, rest;
      if r.Wrote? && r.count > 0 {
        wire := wire + [buf[off..off + r.count]];
      }
    }
  }

  /** One turn of the `readn` loop, on its specification ... */
  lemma DrainTurn(mode: Mode, script: seq<Arrival>, nleft: nat, got: seq<Byte>)
    requires nleft > 0
    ensures var (r, rest) := ReadCall(mode, script, nleft);
            var t := Drain(mode, script, nleft).After(got);
            match r
            case NothingYet => t == Transfer(Blocked, got, rest)
            case ReadFailed => t == Transfer(Failed, got, rest)
            case ReadInterrupted => |rest| < |script| && t == Drain(mode, rest, nleft).After(got)
            case Got(data) =>
              |data| <= nleft &&
              t == if data == [] then Transfer(Returned, got, rest)
                   else Drain(mode, rest, nleft - |data|).After(got + data)
  {
    var (r, rest) := ReadCall(mode, script, nleft);
    if r.Got? && r.data != [] {
      var t := Drain(mode, rest, nleft - |r.data|);
      assert got + (r.data + t.data) == (got + r.data) + t.data;
    }
  }

  lemma DrainNothing(mode: Mode, script: seq<Arrival>, got: seq<Byte>)
    ensures Drain(mode, script, 0).After(got) == Transfer(Returned, got, script)
  {
  }

  /** ... and on the buffer. */
  lemma SpliceTurn(before: seq<Byte>, got: seq<Byte>, data: seq<Byte>, now: seq<Byte>)
    requires |got| + |data| <= |before| && now == got + before[|got|..]
    ensures Splice(now, |got|, data) == (got + data) + before[|got + data|..]
  {
  }

  method Readn(sock: Socket, buf: array<Byte>, n: nat) returns (status: Status, count: nat)
    requires n <= buf.Length
    modifies sock`arrivals, buf
    ensures var t := Drain(sock.mode, old(sock.arrivals), n);
            && status == t.status && count == |t.data| && sock.arrivals == t.rest
            && buf[..] == Overwrite(old(buf[..]), t.data)
  {
    hide Drain, ReadCall, Splice;
    var nleft, ptr := n, 0;
    ghost var got: seq<Byte> := [];
    ghost var before := buf[..];
    while nleft > 0
      invariant ptr == |got| && ptr + nleft == n
      invariant buf[..] == got + before[ptr..]
      invariant Drain(sock.mode, old(sock.arrivals), n) == Drain(sock.mode, sock.arrivals, nleft).After(got)
      decreases nleft, |sock.arrivals|
    {
      ghost var was := buf[..];
      DrainTurn(sock.mode, sock.arrivals, nleft, got);
      var nread := sock.Read(buf, ptr, nleft);
      match nread
      case NothingYet => return Blocked, ptr;
      case ReadFailed => return Failed, ptr;
      case ReadInterrupted =>
      case Got(data) =>
        SpliceTurn(before, got, data, was);
        if data == [] {
          assert got + data == got;
          break;
        }
        nleft := nleft - |data|;
        ptr := ptr + |data|;
        got := got + data;
    }
    if nleft == 0 {
      DrainNothing(sock.mode, sock.arrivals, got);
    }
    return Returned, n - nleft;
  }

  /** One turn of the `writen` loop, on its specification. */
  lemma EmitTurn(mode: Mode, replies: seq<Reply>, data: seq<Byte>, out: seq<seq<Byte>>)
    requires data != []
    ensures var (r, rest) := WriteCall(mode, replies, |data|);
            var e := Emit(mode, replies, data).Behind(out);
            match r
            case NoReplyYet => e == Emission(Blocked, out, rest)
            case WriteFailed => e == Emission(Failed, out, rest)
            case WriteInterrupted => |rest| < |replies| && e == Emit(mode, rest, data).Behind(out)
            case Wrote(k) =>
              k <= |data| &&
              e == if k == 0 then Emission(Failed, out, rest)
                   else Emit(mode, rest, data[k..]).Behind(out + [data[..k]])
  {
    var (r, rest) := WriteCall(mode, replies, |data|);
    assert out + [] == out;
    if r.Wrote? && r.count > 0 {
      var f := Emit(mode, rest, data[r.count..]);
      assert out + ([data[..r.count]] + f.wire) == (out + [data[..r.count]]) + f.wire;
    }
  }

  lemma EmitNothing(mode: Mode, replies: seq<Reply>, out: seq<seq<Byte>>)
    ensures Emit(mode, replies, []).Behind(out) == Emission(Returned, out, replies)
  {
  }

  method Writen(sock: Socket, buf: array<Byte>, n: nat) returns (status: Status)
    requires n <= buf.Length
    modifies sock`replies, sock`wire
    ensures var e := Emit(sock.mode, old(sock.replies), buf[..n]);
            status == e.status && sock.wire == old(sock.wire) + e.wire && sock.replies == e.rest
  {
    hide Emit, WriteCall;
    var nleft, ptr := n, 0;
    ghost var e := Emit(sock.mode, sock.replies, buf[..n]);
    ghost var out: seq<seq<Byte>> := [];
    assert [] + e.wire == e.wire;
    while nleft > 0
      invariant ptr + nleft == n
      invariant sock.wire == old(sock.wire) + out
      invariant e == Emit(sock.mode, sock.replies, buf[ptr..n]).Behind(out)
      decreases nleft, |sock.replies|
    {
      EmitTurn(sock.mode, sock.replies, buf[ptr..n], out);
      var nwritten := sock.Write(buf, ptr, nleft);
      match nwritten
      case NoReplyYet => return Blocked;
      case WriteFailed => return Failed;
      case WriteInterrupted =>
      case Wrote(k) =>
        if k == 0 {
          return Failed;
        }
        assert buf[ptr..n][..k] == buf[ptr..ptr + k] && buf[ptr..n][k..] == buf[ptr + k..n];
        nleft := nleft - k;
        ptr := ptr + k;
        out := out + [buf[ptr - k..ptr]];
    }
    EmitNothing(sock.mode, sock.replies, out);
    return Returned;
  }
}
