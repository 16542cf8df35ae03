/** The hop and retry loop of do_traceroute (miscUtils/traceroute.c) over an arbitrary network:
    what each send and receive returns is a parameter. */
module Traceroute {

  const MAX_RETRIES := 10
  const IDENT := 5930
  const ECHO_REPLY := 0
  const TIME_EXCEEDED := 11
  const SHORTEST := 20 + 8

  /** What recvfrom returns: nothing, a timeout, another error, or a packet. */
  datatype Recv = Empty | Again | Error | Packet(size: nat, kind: nat, code: nat, id: nat, from: int)

  /** One pass of the loop: whether the send succeeds, and what is received until the wait ends. */
  datatype Attempt = Attempt(sent: bool, recvs: seq<Recv>)

  type Network = nat -> Attempt

  /** A packet that answers us: long enough, and an echo reply (type 0), a report that the time
      was exceeded (type 11), or anything with our identifier. */
  predicate Ours(r: Recv) {
    r.Packet? && r.size >= 28 && (r.kind == 0 || r.kind == 11 || r.id == 5930)
  }

  predicate Skipped(r: Recv) {
    r.Packet? && !Ours(r)
  }

  /** Every wait ends. */
  ghost predicate Fair(net: Network) {
    forall k: nat :: Ends(net(k).recvs)
  }

  predicate Ends(rs: seq<Recv>) {
    exists i | 0 <= i < |rs| :: !Skipped(rs[i])
  }

  /** The first packet that is ours, or the failure that comes before it. */
  function Awaited(rs: seq<Recv>): (r: Recv)
    ensures Ends(rs) ==> r in rs && !Skipped(r)
  {
    if rs == [] then Error else if Skipped(rs[0]) then Awaited(rs[1..]) else rs[0]
  }

  function Reply(net: Network, k: nat): Recv {
    Awaited(net(k).recvs)
  }

  /** The pass uses up a retry. */
  predicate Lost(net: Network, k: nat) {
    !net(k).sent || Reply(net, k) == Error
  }

  /** The pass finds a node of the route. */
  predicate Found(net: Network, k: nat) {
    net(k).sent && Reply(net, k).Packet?
  }

  /** The node is the destination. */
  predicate Arrived(net: Network, k: nat, dest: int) {
    Found(net, k) && Reply(net, k).code == ECHO_REPLY && Reply(net, k).from == dest
  }

  // The same on the fields of what is received.

  /** Entry i of what a pass receives is the first packet of at least 28 bytes that is an echo
      reply, a "time exceeded", or has our identifier, and no failure comes before it. */
  predicate FirstOurs(rs: seq<Recv>, i: nat) {
    && i < |rs| && rs[i].Packet? && rs[i].size >= 28 && (rs[i].kind == 0 || rs[i].kind == 11 || rs[i].id == 5930)
    && OnlyStrangers(rs, i)
  }

  predicate OnlyStrangers(rs: seq<Recv>, i: nat)
    requires i <= |rs|
  {
    forall j | 0 <= j < i ::
      rs[j].Packet? && (rs[j].size < 28 || (rs[j].kind != 0 && rs[j].kind != 11 && rs[j].id != 5930))
  }

  lemma {:induction false} AwaitedIs(rs: seq<Recv>, i: nat)
    requires i < |rs| && OnlyStrangers(rs, i) && !Skipped(rs[i])
    ensures Awaited(rs) == rs[i]
  {
    if i > 0 {
      AwaitedIs(rs[1..], i - 1);
    }
  }

  lemma {:induction false} AwaitedAt(rs: seq<Recv>) returns (i: nat)
    requires Ends(rs)
    ensures i < |rs| && OnlyStrangers(rs, i) && !Skipped(rs[i])
  {
    if Skipped(rs[0]) {
      SkipOne(rs);
      var j := AwaitedAt(rs[1..]);
      i := j + 1;
      forall k | 0 <= k < i
        ensures Skipped(rs[k])
      {
        assert k > 0 ==> rs[k] == rs[1..][k - 1];
      }
    } else {
      i := 0;
    }
  }

  /** A pass finds a node exactly if it receives a packet of ours before any failure, and the
      node is the sender of the first such packet. */
  lemma FoundIff(net: Network, k: nat)
    requires Fair(net)
    ensures Found(net, k) <==> net(k).sent && exists i: nat :: FirstOurs(net(k).recvs, i)
    ensures forall i: nat | FirstOurs(net(k).recvs, i) :: Reply(net, k) == net(k).recvs[i]
  {
    var rs := net(k).recvs;
    var i := AwaitedAt(rs);
    AwaitedIs(rs, i);
    assert rs[i].Packet? ==> FirstOurs(rs, i);
    forall j: nat | FirstOurs(rs, j)
      ensures Reply(net, k) == rs[j]
    {
      AwaitedIs(rs, j);
    }
  }

  /** It arrives exactly if that packet has code 0 and comes from the destination. */
  lemma ArrivedIff(net: Network, k: nat, dest: int)
    requires Fair(net)
    ensures
      var rs := net(k).recvs;
      Arrived(net, k, dest)
      <==> net(k).sent && exists i: nat :: FirstOurs(rs, i) && rs[i].code == 0 && rs[i].from == dest
  {
    FoundIff(net, k);
  }

  /** A pass is lost exactly if it cannot send, or an error other than a timeout comes before any
      packet of ours. */
  lemma LostIff(net: Network, k: nat)
    requires Fair(net)
    ensures
      var rs := net(k).recvs;
      Lost(net, k) <==> !net(k).sent || exists i: nat :: i < |rs| && rs[i] == Error && OnlyStrangers(rs, i)
  {
    var rs := net(k).recvs;
    var i := AwaitedAt(rs);
    AwaitedIs(rs, i);
    forall j: nat | j < |rs| && rs[j] == Error && OnlyStrangers(rs, j)
      ensures Reply(net, k) == Error
    {
      AwaitedIs(rs, j);
    }
  }

  /** The addresses found in the passes from k to n. */
  function Route(net: Network, k: nat, n: nat): seq<int>
    requires k <= n
    decreases n - k
  {
    if k == n then [] else (if Found(net, k) then [Reply(net, k).from] else []) + Route(net, k + 1, n)
  }

  /** How many passes there are, and how many hops are left. */
  datatype Ending = Ending(passes: nat, hopsLeft: int)

  function Finish(net: Network, k: nat, hops: int, retries: int, dest: int): Ending
    decreases hops, retries
  {
    if hops <= 0 || retries <= 0 then Ending(k, hops)
    else if Lost(net, k) then Finish(net, k + 1, hops, retries - 1, dest)
    else if Arrived(net, k, dest) then Ending(k + 1, hops)
    else Finish(net, k + 1, hops - 1, MAX_RETRIES, dest)
  }

  predicate AllLost(net: Network, from: nat, to: nat) {
    forall k: nat | from <= k < to :: Lost(net, k)
  }

  /** Ten passes up to the given one were all lost. */
  predicate TenLost(net: Network, to: nat) {
    to >= 10 && AllLost(net, to - 10, to)
  }

  /** How many hops the passes from k to n use up: those that are neither lost nor arrive. */
  function Advances(net: Network, dest: int, k: nat, n: nat): nat
    requires k <= n
    decreases n - k
  {
    if k == n then 0
    else (if Lost(net, k) || Arrived(net, k, dest) then 0 else 1) + Advances(net, dest, k + 1, n)
  }

  /** The loop has come to pass k: since the last pass that was not lost, the retries used up. */
  predicate Underway(net: Network, k: nat, hops: int, retries: int, dest: int) {
    && hops >= 0 && 0 <= retries <= MAX_RETRIES && k >= MAX_RETRIES - retries
    && (var since := k - (MAX_RETRIES - retries);
        AllLost(net, since, k) && (since > 0 ==> !Lost(net, since - 1)))
    && (hops == 0 ==> k > 0 && !Arrived(net, k - 1, dest) && retries == MAX_RETRIES)
  }

  /** How the loop ends. */
  predicate Ended(net: Network, e: Ending, dest: int) {
    e.hopsLeft > 0 <==> (e.passes > 0 && Arrived(net, e.passes - 1, dest)) || TenLost(net, e.passes)
  }

  lemma {:induction false} FinishEnds(net: Network, k: nat, hops: int, retries: int, dest: int)
    requires Underway(net, k, hops, retries, dest) && (k > 0 ==> !Arrived(net, k - 1, dest))
    ensures
      var e := Finish(net, k, hops, retries, dest);
      Ended(net, e, dest) && (forall j: nat | k <= j < e.passes :: !TenLost(net, j))
    decreases hops, retries
  {
    if retries > 0 {
      NotTenYet(net, k, hops, retries, dest);
    }
    if hops > 0 && retries > 0 {
      if Lost(net, k) {
        FinishEnds(net, k + 1, hops, retries - 1, dest);
      } else if !Arrived(net, k, dest) {
        FinishEnds(net, k + 1, hops - 1, MAX_RETRIES, dest);
      }
    } else if hops > 0 {
      assert AllLost(net, k - 10, k);
    }
  }

  lemma NotTenYet(net: Network, k: nat, hops: int, retries: int, dest: int)
    requires Underway(net, k, hops, retries, dest) && retries > 0
    ensures !TenLost(net, k)
  {
    var since := k - (MAX_RETRIES - retries);
    if since > 0 && k >= 10 {
      assert !Lost(net, since - 1) && k - 10 <= since - 1 < k;
    }
  }

  lemma {:induction false} FinishBounds(net: Network, k: nat, hops: int, retries: int, dest: int)
    requires hops >= 0 && 0 <= retries <= MAX_RETRIES
    ensures
      var e := Finish(net, k, hops, retries, dest);
      && k <= e.passes && 0 <= e.hopsLeft == hops - Advances(net, dest, k, e.passes)
      && e.passes <= k + (if hops == 0 then 0 else MAX_RETRIES * (hops - 1) + retries)
      && (forall j: nat | k <= j && j + 1 < e.passes :: !Arrived(net, j, dest))
      && |Route(net, k, e.passes)| <= hops
    decreases hops, retries
  {
    if hops > 0 && retries > 0 {
      if Lost(net, k) {
        FinishBounds(net, k + 1, hops, retries - 1, dest);
      } else if Arrived(net, k, dest) {
        assert Route(net, k, k + 1) == [Reply(net, k).from] + Route(net, k + 1, k + 1);
        assert Advances(net, dest, k, k + 1) == Advances(net, dest, k + 1, k + 1);
      } else {
        FinishBounds(net, k + 1, hops - 1, MAX_RETRIES, dest);
      }
    }
  }

  /** The loop as a whole, for any max_hops: at most ten passes for each hop; it goes on until it
      arrives, ten passes in a row are lost, or the hops are used up, and no further; and
      do_traceroute returns true exactly in the first two cases. */
  lemma LoopEnds(net: Network, maxHops: int, dest: int)
    ensures
      var e := Finish(net, 0, maxHops, MAX_RETRIES, dest);
      var most := if maxHops > 0 then maxHops else 0;
      && e.passes <= 10 * most && Ended(net, e, dest)
      && (forall j: nat | j + 1 < e.passes :: !Arrived(net, j, dest))
      && (forall j: nat | j < e.passes :: !TenLost(net, j))
      && e.hopsLeft == maxHops - Advances(net, dest, 0, e.passes)
      && |Route(net, 0, e.passes)| <= most
  {
    if maxHops > 0 {
      FinishEnds(net, 0, maxHops, MAX_RETRIES, dest);
      FinishBounds(net, 0, maxHops, MAX_RETRIES, dest);
    }
  }

  // Two networks on which the result is not what a caller expects.

  /** A network on which every send fails. */
  function Dead(): Network {
    (k: nat) => Attempt(false, [Error])
  }

  lemma {:induction false} AllRetriesLost(k: nat, hops: int, retries: nat, dest: int)
    requires hops > 0
    ensures Finish(Dead(), k, hops, retries, dest) == Ending(k + retries, hops)
    decreases retries
  {
    if retries > 0 {
      assert Lost(Dead(), k);
      AllRetriesLost(k + 1, hops, retries - 1, dest);
    }
  }

  /** There do_traceroute gives up after ten passes, has found nothing, and returns true. */
  lemma DeadNetworkSucceeds(maxHops: int, dest: int)
    requires maxHops > 0
    ensures Fair(Dead()) && (forall k: nat :: !Arrived(Dead(), k, dest))
    ensures Finish(Dead(), 0, maxHops, MAX_RETRIES, dest) == Ending(MAX_RETRIES, maxHops)
    ensures Route(Dead(), 0, MAX_RETRIES) == []
  {
    assert !Skipped([Error][0]);
    AllRetriesLost(0, maxHops, MAX_RETRIES, dest);
    NothingFound(0);
  }

  lemma {:induction false} NothingFound(k: nat)
    requires k <= MAX_RETRIES
    ensures Route(Dead(), k, MAX_RETRIES) == []
    decreases MAX_RETRIES - k
  {
    if k < MAX_RETRIES {
      NothingFound(k + 1);
    }
  }

  /** A network on which one router answers every time that the packet has expired. */
  function Router(addr: int): Network {
    (k: nat) => Attempt(true, [Packet(SHORTEST, TIME_EXCEEDED, 0, IDENT, addr)])
  }

  /** One hop is not enough to get past it, but one node has been allocated. */
  lemma RouterFails(addr: int, dest: int)
    requires addr != dest
    ensures Fair(Router(addr)) && Finish(Router(addr), 0, 1, MAX_RETRIES, dest) == Ending(1, 0)
    ensures Route(Router(addr), 0, 1) == [addr]
  {
    var p := Packet(SHORTEST, TIME_EXCEEDED, 0, IDENT, addr);
    assert !Skipped([p][0]);
    assert Awaited([p]) == p;
    assert Reply(Router(addr), 0) == p;
    assert Route(Router(addr), 0, 1) == [addr] + Route(Router(addr), 1, 1);
  }

  lemma {:induction false} RouteSnoc(net: Network, k: nat, n: nat)
    requires k <= n
    ensures Route(net, k, n + 1) == Route(net, k, n) + if Found(net, n) then [Reply(net, n).from] else []
    decreases n - k
  {
    if k < n {
      RouteSnoc(net, k + 1, n);
    } else {
      assert Route(net, n + 1, n + 1) == [];
    }
  }

  class Node {
    var addr: int
    var next: Node?

    constructor ()
      ensures addr == 0 && next == null
    {
      addr, next := 0, null;
    }
  }

  /** A linked list: the nodes in order, all different, the last one without a successor. */
  ghost predicate List(first: Node?, nodes: seq<Node>)
    reads nodes
  {
    && (if nodes == [] then first == null else first == nodes[0] && nodes[|nodes| - 1].next == null)
    && (forall i, j | 0 <= i < j < |nodes| :: nodes[i] != nodes[j])
    && (forall i | 0 <= i < |nodes| - 1 :: nodes[i].next == nodes[i + 1])
  }

  ghost predicate Addresses(nodes: seq<Node>, addrs: seq<int>)
    reads nodes
  {
    |nodes| == |addrs| && forall i | 0 <= i < |nodes| :: nodes[i].addr == addrs[i]
  }

  /** The inner loop: packets that are not ours are skipped. */
  method Receive(rs: seq<Recv>) returns (r: Recv)
    requires Ends(rs)
    ensures r == Awaited(rs)
  {
    var i := 0;
    while rs[i].Packet? && (rs[i].size < SHORTEST
                            || (rs[i].kind != ECHO_REPLY && rs[i].kind != TIME_EXCEEDED && rs[i].id != IDENT))
      invariant 0 <= i < |rs| && Ends(rs[i..]) && Awaited(rs) == Awaited(rs[i..])
      decreases |rs| - i
    {
      SkipOne(rs[i..]);
      assert rs[i..][1..] == rs[i + 1..];
      i := i + 1;
    }
    r := rs[i];
  }

  lemma SkipOne(rs: seq<Recv>)
    requires Ends(rs) && Skipped(rs[0])
    ensures Ends(rs[1..])
  {
    var i :| 0 <= i < |rs| && !Skipped(rs[i]);
    assert rs[1..][i - 1] == rs[i];
  }

  /** A new node at the end of the list. */
  method Append(first: Node?, last: Node?, addr: int, ghost nodes: seq<Node>, ghost addrs: seq<int>)
    returns (first': Node, n: Node, ghost nodes': seq<Node>)
    requires List(first, nodes) && Addresses(nodes, addrs)
    requires if nodes == [] then last == null else last == nodes[|nodes| - 1]
    modifies nodes
    ensures fresh(n) && nodes' == nodes + [n] && List(first', nodes') && Addresses(nodes', addrs + [addr])
  {
    n := new Node();
    if last != null {
      last.next := n;
    }
    first' := if first == null then n else first;
    n.addr := addr;
    nodes' := nodes + [n];
    assert forall i | 0 <= i < |nodes| :: nodes[i] != n;
  }

  /** do_traceroute, without the sockets. The caller gets the list of the nodes found if it
      returns true. Otherwise only the result record is freed: the nodes, if any, are lost. */
  method DoTraceroute(net: Network, maxHops: int, dest: int)
    returns (ok: bool, first: Node?, hops: nat, passes: nat, leaked: nat, ghost nodes: seq<Node>)
    requires Fair(net)
    ensures
      var e := Finish(net, 0, maxHops, MAX_RETRIES, dest);
      && passes == e.passes && ok == (e.hopsLeft > 0)
      && fresh(nodes) && Addresses(nodes, Route(net, 0, passes))
      && (if ok then List(first, nodes) && hops == |nodes| && leaked == 0
          else first == null && hops == 0 && leaked == |nodes|)
  {
    first, hops, passes, nodes := null, 0, 0, [];
    var last: Node? := null;
    var left, retries := maxHops, MAX_RETRIES;
    while left > 0
      invariant Finish(net, 0, maxHops, MAX_RETRIES, dest) == Finish(net, passes, left, retries, dest)
      invariant List(first, nodes) && fresh(nodes) && hops == |nodes|
      invariant Addresses(nodes, Route(net, 0, passes))
      invariant if nodes == [] then last == null else last == nodes[|nodes| - 1]
      decreases left, retries
    {
      if retries <= 0 {
        break;
      }
      RouteSnoc(net, 0, passes);
      var a := net(passes);
      passes := passes + 1;
      if !a.sent {
        retries := retries - 1;
        continue;
      }
      var r := Receive(a.recvs);
      if r == Error {
        retries := retries - 1;
        continue;
      }
      if r.Packet? {
        first, last, nodes := Append(first, last, r.from, nodes, Route(net, 0, passes - 1));
        hops := hops + 1;
        if r.code == ECHO_REPLY && r.from == dest {
          break;
        }
      }
      left := left - 1;
      retries := MAX_RETRIES;
    }
    ok, leaked := left > 0, 0;
    if !ok {
      first, hops, leaked := null, 0, hops;
    }
  }
}
