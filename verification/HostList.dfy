/** The heap-allocated host list of epoll-client. */
module HostList {
  import opened Word64
  import opened Decimal
  import opened Lexing

  const DEFAULT_PORT := 1234

  // ---------------------------------------------------------------- host:port

  datatype Endpoint = Endpoint(address: string, port: int)

  /** The C conversion from `long` to `int`. */
  function ToInt(x: int): int {
    if -0x8000_0000 <= x < 0x8000_0000 then x
    else var w := x % TWO32; if w < 0x8000_0000 then w else w - TWO32
  }

  function Clamp(x: int): int {
    if x >= TWO63 then TWO63 - 1 else if x < -TWO63 then -TWO63 else x
  }

  /** atoi: space, sign, decimal digits; zero if there are none. Beyond the range of int
      the C standard leaves the value open; this is strtol's, converted. */
  function Atoi(s: string): int {
    var i := SkipSpace(s, 0);
    var j := if At(s, i) == '-' || At(s, i) == '+' then i + 1 else i;
    var end := RunEnd(s, j, 10);
    if end == j then 0 else
    assert forall k :: 0 <= k < end - j ==> s[j..end][k] == s[j + k];
    var m := Magnitude(s[j..end], 10);
    ToInt(Clamp(if At(s, i) == '-' then -(m as int) else m))
  }

  /** strsep cuts at the first colon. */
  function ParseHost(arg: string): Endpoint {
    var c := IndexOf(arg, ':');
    if c < |arg| then Endpoint(arg[..c], Atoi(arg[c + 1..])) else Endpoint(arg, DEFAULT_PORT)
  }

  /** For every argument the address is the text before the first colon, or all of it. */
  lemma AddressBeforeColon(address: string, rest: string)
    requires ':' !in address
    ensures ParseHost(address) == Endpoint(address, DEFAULT_PORT)
    ensures ParseHost(address + ":" + rest) == Endpoint(address, Atoi(rest))
  {
    hide Atoi;
    var arg := address + ":" + rest;
    assert arg[..|address|] == address && arg[|address| + 1..] == rest;
    IndexOfIs(arg, ':', |address|);
    assert address[..|address|] == address;
    IndexOfIs(address, ':', |address|);
  }

  /** The port is the number behind the first colon, with any white space and a sign in
      front of it and whatever follows, a second colon included; without a digit there it
      is zero. */
  lemma EndpointReadsBack(address: string, sp: string, sign: string, port: nat, rest: string)
    requires ':' !in address && port < 0x8000_0000
    requires AllWhite(sp) && (sign == "" || sign == "+" || sign == "-")
    requires rest == "" || !IsDigit(rest[0])
    ensures ParseHost(address) == Endpoint(address, DEFAULT_PORT)
    ensures ParseHost(address + ":" + (sp + sign + (Digits(port) + rest))) ==
            Endpoint(address, if sign == "-" then -(port as int) else port)
    ensures rest == "" || sign != "" || rest[0] !in WHITE + "+-" ==>
              ParseHost(address + ":" + (sp + sign + rest)) == Endpoint(address, 0)
  {
    hide Atoi, ParseHost;
    AddressBeforeColon(address, sp + sign + (Digits(port) + rest));
    AddressBeforeColon(address, sp + sign + rest);
    AtoiOfDigits(sp, sign, port, rest);
    if rest == "" || sign != "" || rest[0] !in WHITE + "+-" {
      AtoiOfNoDigits(sp, sign, rest);
    }
  }

  lemma AtoiOfDigits(sp: string, sign: string, n: nat, rest: string)
    requires n < 0x8000_0000 && (rest == "" || !IsDigit(rest[0]))
    requires AllWhite(sp) && (sign == "" || sign == "+" || sign == "-")
    ensures Atoi(sp + sign + (Digits(n) + rest)) == if sign == "-" then -(n as int) else n
  {
    var ds := Digits(n);
    DecimalMagnitude(ds);
    ValueOfDigits(n);
    hide RunEnd, Magnitude, Digits, Atoi;
    assert (ds + rest)[0] == ds[0];
    assert rest != "" ==> !InBase(rest[0], 10);
    RunOverPrefix(ds, rest, 0, 10);
    AtoiFromDigit(sp, sign, ds, rest);
  }

  lemma AtoiFromDigit(sp: string, sign: string, ds: string, rest: string)
    requires AllWhite(sp) && (sign == "" || sign == "+" || sign == "-")
    requires ds != "" && AllInBase(ds, 10) && IsDigit(ds[0]) && RunEnd(ds + rest, 0, 10) == |ds|
    ensures var m := Magnitude(ds, 10) as int; Atoi(sp + sign + (ds + rest)) == ToInt(Clamp(if sign == "-" then -m else m))
  {
    hide RunEnd, Magnitude, SkipSpace, ToInt, Clamp;
    var a := sp + sign;
    var t := a + (ds + rest);
    assert t == sp + (sign + (ds + rest));
    WhiteSkipped(sp, sign + (ds + rest));
    assert At(t, |sp|) == (sign + (ds + rest))[0];
    RunShift(a, ds + rest, 0, 10);
    assert t[|a|..|a| + |ds|] == ds;
  }

  lemma AtoiOfNoDigits(sp: string, sign: string, s: string)
    requires AllWhite(sp) && (sign == "" || sign == "+" || sign == "-")
    requires s == "" || (!IsDigit(s[0]) && (sign == "" ==> s[0] !in WHITE + "+-"))
    ensures Atoi(sp + sign + s) == 0
  {
    hide SkipSpace, Magnitude;
    var t := sp + sign + s;
    assert t == sp + (sign + s);
    WhiteSkipped(sp, sign + s);
    assert At(t, |sp|) == At(sign + s, 0);
    assert s != "" ==> t[|sp| + |sign|] == s[0] && !InBase(s[0], 10);
  }

  // ---------------------------------------------------------------- nodes

  /** `struct host_info_tag`; `open` and `watched` are the kernel's view of its socket. */
  class HostInfo {
    const ipAddress: string
    const port: int
    var readBytes: Word
    var readCount: Word
    var next: HostInfo?
    ghost var open: bool
    ghost var watched: bool

    constructor (e: Endpoint)
      ensures ipAddress == e.address && port == e.port
      ensures readBytes == 0 && readCount == 0 && next == null && !open && !watched
    {
      ipAddress, port := e.address, e.port;
      readBytes, readCount, next := 0, 0, null;
      open, watched := false, false;
    }
  }

  /** A node as new_host makes it from an argument. */
  ghost predicate FromArgument(h: HostInfo, arg: string)
    reads h
  {
    && Endpoint(h.ipAddress, h.port) == ParseHost(arg)
    && h.readBytes == 0 && h.readCount == 0 && !h.open && !h.watched
  }

  method NewHost(hostAndPort: string) returns (newp: HostInfo)
    ensures fresh(newp) && newp.next == null && FromArgument(newp, hostAndPort)
  {
    newp := new HostInfo(ParseHost(hostAndPort));
  }

  // ---------------------------------------------------------------- lists

  /** Following `next` from `head` visits exactly `nodes` and then ends. */
  ghost predicate IsList(head: HostInfo?, nodes: seq<HostInfo>)
    reads nodes
  {
    && head == (if nodes == [] then null else nodes[0])
    && (nodes != [] ==> nodes[|nodes| - 1].next == null)
    && forall i :: 0 <= i < |nodes| - 1 ==> nodes[i].next == nodes[i + 1]
  }

  /** A list that ends does not visit a node twice. */
  lemma {:induction false} ListsAreAcyclic(head: HostInfo?, nodes: seq<HostInfo>, i: nat, j: nat)
    requires IsList(head, nodes) && i < j < |nodes|
    ensures nodes[i] != nodes[j]
    decreases |nodes| - j
  {
    assert nodes[i].next == nodes[i + 1];
    if j < |nodes| - 1 {
      ListsAreAcyclic(head, nodes, i + 1, j + 1);
      assert nodes[j].next == nodes[j + 1];
    }
  }

  ghost function LastOf(nodes: seq<HostInfo>): set<HostInfo> {
    if nodes == [] then {} else {nodes[|nodes| - 1]}
  }

  /** Appends a node by relinking the last one; no other field of any node changes. */
  method Addend(hostList: HostInfo?, newp: HostInfo, ghost nodes: seq<HostInfo>) returns (r: HostInfo)
    requires IsList(hostList, nodes) && newp !in nodes && newp.next == null
    modifies LastOf(nodes)`next
    ensures IsList(r, nodes + [newp])
  {
    if hostList == null {
      return newp;
    }
    var p: HostInfo := hostList;
    ghost var k := 0;
    while p.next != null
      invariant 0 <= k < |nodes| && p == nodes[k]
      invariant p.next == if k == |nodes| - 1 then null else nodes[k + 1]
      decreases |nodes| - k
    {
      p := p.next;
      k := k + 1;
    }
    forall i | 0 <= i < k
      ensures nodes[i] != p
    {
      ListsAreAcyclic(hostList, nodes, i, k);
    }
    p.next := newp;
    return hostList;
  }

  method Addfront(hostList: HostInfo?, newp: HostInfo, ghost nodes: seq<HostInfo>) returns (r: HostInfo)
    requires IsList(hostList, nodes) && newp !in nodes
    modifies newp`next
    ensures IsList(r, [newp] + nodes)
  {
    newp.next := hostList;
    return newp;
  }

  /** The argument loop of `main`: one node per argument, in command-line order. */
  method BuildList(argv: seq<string>) returns (hostList: HostInfo?, ghost nodes: seq<HostInfo>)
    ensures IsList(hostList, nodes) && |nodes| == |argv|
    ensures forall i :: 0 <= i < |nodes| ==> fresh(nodes[i]) && FromArgument(nodes[i], argv[i])
  {
    hide ParseHost;
    hostList, nodes := null, [];
    var i := 0;
    while i < |argv|
      invariant 0 <= i <= |argv| && |nodes| == i
      invariant IsList(hostList, nodes)
      invariant forall j :: 0 <= j < i ==> fresh(nodes[j]) && FromArgument(nodes[j], argv[j])
    {
      var newp := NewHost(argv[i]);
      hostList := Addend(hostList, newp, nodes);
      nodes := nodes + [newp];
      i := i + 1;
    }
  }
}
