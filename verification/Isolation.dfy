/**
 * How one injection wires the nodes (scripts/gauntlet-gs033/inject.py, tn.py): which port every node
 * listens on, which ports it dials, and what each forwarder maps; and that the cut leaves no path.
 */
module Isolation {

  type Node = int
  type Port = int

  const INTERNAL_BASE := 31300
  const FWD_BASE := 32000
  const OUTSIDE := 99
  const MAX_BOOTSTRAPS := 5

  function Internal(i: Node): Port { INTERNAL_BASE + i }

  function FwdPort(m: Node, j: Node): Port { FWD_BASE + 10 * m + j }

  lemma FwdPortInjective(m: Node, j: Node, n: Node, k: Node)
    requires 0 <= j < 10 && 0 <= k < 10 && FwdPort(m, j) == FwdPort(n, k)
    ensures m == n && j == k
  {
  }

  /** A port tells its owner and peer. */
  lemma PortsTell(m: Node, j: Node)
    requires 0 <= j < 10
    ensures (FwdPort(m, j) - 32000) / 10 == m && (FwdPort(m, j) - 32000) % 10 == j && Internal(m) - 31300 == m
  {
  }

  // ----- argument lists -----

  datatype Arg = Bootstrap | P2pPort | Number(n: Port) | Address(port: Port) | Other(id: int)

  function Strip(args: seq<Arg>, opt: Arg, hasVal: bool): seq<Arg>
    decreases |args|
  {
    if args == [] then []
    else if args[0] != opt then [args[0]] + Strip(args[1..], opt, hasVal)
    else if hasVal && |args| > 1 then Strip(args[2..], opt, hasVal)
    else Strip(args[1..], opt, hasVal)
  }

  method StripOpt(args: seq<Arg>, opt: Arg, hasVal: bool) returns (out: seq<Arg>)
    ensures out == Strip(args, opt, hasVal)
  {
    out := [];
    var k := 0;
    while k < |args|
      invariant 0 <= k
      invariant k <= |args| ==> out + Strip(args[k..], opt, hasVal) == Strip(args, opt, hasVal)
      invariant k > |args| ==> out == Strip(args, opt, hasVal)
      decreases |args| - k
    {
      ghost var rest := args[k..];
      assert rest[0] == args[k] && rest[1..] == args[k + 1..];
      if args[k] == opt {
        if hasVal && k + 1 < |args| { assert rest[2..] == args[k + 2..]; }
        k := k + if hasVal then 2 else 1;
      } else {
        assert out + ([args[k]] + Strip(rest[1..], opt, hasVal)) == (out + [args[k]]) + Strip(rest[1..], opt, hasVal);
        out := out + [args[k]];
        k := k + 1;
      }
    }
    if k == |args| { assert args[k..] == [] && out + [] == out; }
  }

  /** The peers an argument list dials: the address behind every bootstrap option. */
  function Dials(args: seq<Arg>): set<Port> {
    set i | 0 <= i < |args| - 1 && args[i].Bootstrap? && args[i + 1].Address? :: args[i + 1].port
  }

  lemma {:induction false} StripRemoves(args: seq<Arg>, opt: Arg, hasVal: bool)
    ensures opt !in Strip(args, opt, hasVal)
    ensures forall a :: a in Strip(args, opt, hasVal) ==> a in args
    decreases |args|
  {
    if args != [] {
      var n := if args[0] == opt && hasVal && |args| > 1 then 2 else 1;
      StripRemoves(args[n..], opt, hasVal);
      assert forall a :: a in args[n..] ==> a in args;
    }
  }

  /** Arguments before the option stay as they are, in order. */
  lemma {:induction false} StripKeeps(a: seq<Arg>, rest: seq<Arg>, opt: Arg, hasVal: bool)
    requires opt !in a
    ensures Strip(a + rest, opt, hasVal) == a + Strip(rest, opt, hasVal)
  {
    if a == [] {
      assert [] + rest == rest && [] + Strip(rest, opt, hasVal) == Strip(rest, opt, hasVal);
    } else {
      assert opt !in a[1..];
      StripKeeps(a[1..], rest, opt, hasVal);
      assert a == [a[0]] + a[1..] && (a + rest)[1..] == a[1..] + rest;
    }
  }

  /** The first option goes, with its value if it takes one; a list without the option stays. */
  lemma StripExact(a: seq<Arg>, opt: Arg, v: Arg, b: seq<Arg>)
    requires opt !in a
    ensures forall hasVal :: Strip(a, opt, hasVal) == a && Strip(a + [opt], opt, hasVal) == a
    ensures Strip(a + ([opt, v] + b), opt, true) == a + Strip(b, opt, true)
    ensures Strip(a + ([opt] + b), opt, false) == a + Strip(b, opt, false)
  {
    forall hasVal ensures Strip(a, opt, hasVal) == a && Strip(a + [opt], opt, hasVal) == a {
      StripKeeps(a, [], opt, hasVal);
      StripKeeps(a, [opt], opt, hasVal);
      assert a + [] == a;
    }
    StripKeeps(a, [opt, v] + b, opt, true);
    StripKeeps(a, [opt] + b, opt, false);
    assert ([opt, v] + b)[2..] == b && ([opt] + b)[1..] == b;
  }

  function BootArgs(ports: seq<Port>): seq<Arg> {
    if ports == [] then [] else BootArgs(ports[..|ports| - 1]) + [Bootstrap, Address(ports[|ports| - 1])]
  }

  /** One bootstrap option with its address after the other. */
  lemma {:induction false} BootArgsExact(ports: seq<Port>, i: nat)
    ensures |BootArgs(ports)| == 2 * |ports|
    ensures i < |ports| ==> BootArgs(ports)[2 * i] == Bootstrap && BootArgs(ports)[2 * i + 1] == Address(ports[i])
  {
    if ports != [] { BootArgsExact(ports[..|ports| - 1], if i < |ports| - 1 then i else 0); }
  }

  /** Bootstraps behind a list without any are exactly the peers dialled. */
  lemma {:induction false} DialsExact(args: seq<Arg>, ports: seq<Port>, tail: seq<Arg>)
    requires Bootstrap !in args && Bootstrap !in tail
    ensures Dials(args + BootArgs(ports) + tail) == set p | p in ports
    decreases |ports|
  {
    if ports == [] {
      assert args + BootArgs(ports) + tail == args + tail;
      assert Bootstrap !in args + tail;
    } else {
      hide Dials;
      var n := |ports| - 1;
      DialsExact(args, ports[..n], []);
      var head := args + BootArgs(ports[..n]);
      assert head + [] == head;
      assert args + BootArgs(ports) + tail == head + [Bootstrap, Address(ports[n])] + tail;
      NoneOpen(args, ports[..n]);
      LastDial(head, ports[n], tail);
      assert ports == ports[..n] + [ports[n]];
    }
  }

  lemma NoneOpen(args: seq<Arg>, ports: seq<Port>)
    requires Bootstrap !in args
    ensures var head := args + BootArgs(ports); head != [] ==> !head[|head| - 1].Bootstrap?
  {
    if ports == [] && args != [] { assert args[|args| - 1] in args; }
  }

  lemma LastDial(head: seq<Arg>, p: Port, tail: seq<Arg>)
    requires Bootstrap !in tail && (head != [] ==> !head[|head| - 1].Bootstrap?)
    ensures Dials(head + [Bootstrap, Address(p)] + tail) == Dials(head) + {p}
  {
    var all := head + [Bootstrap, Address(p)] + tail;
    assert all[|head|] == Bootstrap && all[|head| + 1] == Address(p);
    forall q | q in Dials(all) ensures q in Dials(head) + {p} {
      var i :| 0 <= i < |all| - 1 && all[i].Bootstrap? && all[i + 1].Address? && all[i + 1].port == q;
      if i < |head| - 1 { assert head[i] == all[i] && head[i + 1] == all[i + 1]; }
    }
    forall q | q in Dials(head) ensures q in Dials(all) {
      var i :| 0 <= i < |head| - 1 && head[i].Bootstrap? && head[i + 1].Address? && head[i + 1].port == q;
      assert all[i] == head[i] && all[i + 1] == head[i + 1];
    }
  }

  // ----- the injection's wiring -----

  /** The nodes with their public ports, the minority, and X, isolated behind its own forwarder. */
  datatype Setup = Setup(p2p: seq<Port>, M: set<Node>, X: Node)

  predicate Reserved(p: Port) { INTERNAL_BASE <= p < INTERNAL_BASE + 10 || FWD_BASE <= p < FWD_BASE + 100 }

  /** At most ten nodes, public ports distinct and outside the two reserved ranges. */
  predicate SetupOk(s: Setup) {
    && |s.p2p| <= 10 && 0 <= s.X < |s.p2p| && s.X !in s.M
    && (forall m :: m in s.M ==> 0 <= m < |s.p2p|)
    && (forall i :: 0 <= i < |s.p2p| ==> !Reserved(s.p2p[i]))
    && (forall i, j :: 0 <= i < j < |s.p2p| ==> s.p2p[i] != s.p2p[j])
  }

  /** One `--map` of a forwarder: node b dials lport, which leads to node a's port tport. */
  datatype Map = Map(lport: Port, tport: Port, a: Node, b: Node)

  function MapsFrom(s: Setup, owner: Node, j: Node): seq<Map>
    requires SetupOk(s) && 0 <= owner < |s.p2p| && 0 <= j <= |s.p2p|
    decreases |s.p2p| - j
  {
    if j == |s.p2p| then []
    else
      (if j != owner && j !in s.M then [Map(FwdPort(owner, j), s.p2p[j], owner, j)] else [])
      + MapsFrom(s, owner, j + 1)
  }

  function Maps(s: Setup, owner: Node): seq<Map>
    requires SetupOk(s) && 0 <= owner < |s.p2p|
  {
    [Map(s.p2p[owner], Internal(owner), owner, OUTSIDE)] + MapsFrom(s, owner, 0)
  }

  /** `spawn_fwd`'s map list. */
  method SpawnFwd(s: Setup, owner: Node) returns (maps: seq<Map>)
    requires SetupOk(s) && 0 <= owner < |s.p2p|
    ensures maps == Maps(s, owner)
  {
    maps := [Map(s.p2p[owner], Internal(owner), owner, OUTSIDE)];
    for j := 0 to |s.p2p|
      invariant maps + MapsFrom(s, owner, j) == Maps(s, owner)
    {
      if j != owner && j !in s.M {
        maps := maps + [Map(FwdPort(owner, j), s.p2p[j], owner, j)];
      }
    }
    assert maps + [] == maps;
  }

  lemma {:induction false} MapsFromExact(s: Setup, owner: Node, j: Node, m: Map)
    requires SetupOk(s) && 0 <= owner < |s.p2p| && 0 <= j <= |s.p2p|
    ensures m in MapsFrom(s, owner, j)
            <==> j <= m.b < |s.p2p| && m.b != owner && m.b !in s.M
                 && m == Map(FwdPort(owner, m.b), s.p2p[m.b], owner, m.b)
    decreases |s.p2p| - j
  {
    if j < |s.p2p| { MapsFromExact(s, owner, j + 1, m); }
  }

  /** A forwarder maps its owner's public port to the internal one, and one port for every other majority node. */
  lemma MapsExact(s: Setup, owner: Node, m: Map)
    requires SetupOk(s) && 0 <= owner < |s.p2p|
    ensures m in Maps(s, owner)
            <==> || m == Map(s.p2p[owner], Internal(owner), owner, OUTSIDE)
                 || (0 <= m.b < |s.p2p| && m.b != owner && m.b !in s.M
                     && m == Map(FwdPort(owner, m.b), s.p2p[m.b], owner, m.b))
  {
    MapsFromExact(s, owner, 0, m);
    assert m in Maps(s, owner)
           <==> m == Map(s.p2p[owner], Internal(owner), owner, OUTSIDE) || m in MapsFrom(s, owner, 0);
  }

  /** The links the partition signal cuts, given the control file's node set. */
  predicate Cut(m: Map, minority: set<Node>) { (m.a in minority) != (m.b in minority) }

  /** Every link of a minority forwarder is cut by the minority, every link of X's own by {X}. */
  lemma EveryLinkCut(s: Setup, owner: Node, m: Map)
    requires SetupOk(s) && 0 <= owner < |s.p2p| && m in Maps(s, owner)
    ensures owner in s.M ==> Cut(m, s.M)
    ensures owner == s.X ==> Cut(m, {s.X})
  {
    MapsFromExact(s, owner, 0, m);
  }

  // ----- what nodes dial -----

  function BootsFrom(s: Setup, m: Node, j: Node): seq<Port>
    requires SetupOk(s) && 0 <= j <= |s.p2p|
    decreases |s.p2p| - j
  {
    if j == |s.p2p| then []
    else (if j == m || j == s.X then [] else [if j in s.M then Internal(j) else FwdPort(m, j)]) + BootsFrom(s, m, j + 1)
  }

  lemma {:induction false} BootsFromExact(s: Setup, m: Node, j: Node, p: Port)
    requires SetupOk(s) && 0 <= j <= |s.p2p|
    ensures p in BootsFrom(s, m, j)
            <==> exists k :: j <= k < |s.p2p| && k != m && k != s.X
                             && p == if k in s.M then Internal(k) else FwdPort(m, k)
    decreases |s.p2p| - j
  {
    if j < |s.p2p| { BootsFromExact(s, m, j + 1, p); }
  }

  /** There is one for every node but the node itself and X. */
  lemma {:induction false} BootsCount(s: Setup, m: Node, j: Node)
    requires SetupOk(s) && 0 <= j <= |s.p2p| && m in s.M
    ensures |BootsFrom(s, m, j)| == |s.p2p| - j - (if j <= m then 1 else 0) - (if j <= s.X then 1 else 0)
    decreases |s.p2p| - j
  {
    if j < |s.p2p| { BootsCount(s, m, j + 1); }
  }

  /** X's bootstraps behind its forwarder: one port of its own for every other majority node. */
  function XBootsFrom(s: Setup, j: Node): seq<Port>
    requires SetupOk(s) && 0 <= j <= |s.p2p|
    decreases |s.p2p| - j
  {
    if j == |s.p2p| then []
    else (if j == s.X || j in s.M then [] else [FwdPort(s.X, j)]) + XBootsFrom(s, j + 1)
  }

  lemma {:induction false} XBootsFromExact(s: Setup, j: Node, p: Port)
    requires SetupOk(s) && 0 <= j <= |s.p2p|
    ensures p in XBootsFrom(s, j)
            <==> exists k :: j <= k < |s.p2p| && k != s.X && k !in s.M && p == FwdPort(s.X, k)
    decreases |s.p2p| - j
  {
    if j < |s.p2p| { XBootsFromExact(s, j + 1, p); }
  }

  /** Fronted nodes listen on their internal port, the others on their public one. */
  function ListensOn(s: Setup, v: Node): Port
    requires SetupOk(s) && 0 <= v < |s.p2p|
  {
    if v in s.M || v == s.X then Internal(v) else s.p2p[v]
  }

  /** Ports a node dials by its arguments: minority nodes their bootstraps, X its own forwarder, others public ports. */
  predicate MayDial(s: Setup, u: Node, p: Port)
    requires SetupOk(s) && 0 <= u < |s.p2p|
  {
    if u in s.M then p in BootsFrom(s, u, 0)
    else if u == s.X then exists j :: 0 <= j < |s.p2p| && j != s.X && j !in s.M && p == FwdPort(s.X, j)
    else p in s.p2p
  }

  datatype Argv = Argv(args: seq<Arg>) | NoPortOption | TooManyBootstraps

  predicate HasPort(args: seq<Arg>) { args != [] && (if args[0].P2pPort? then |args| > 1 else HasPort(args[1..])) }

  function SetPort(args: seq<Arg>, port: Port): seq<Arg>
    requires HasPort(args)
  {
    if args[0].P2pPort? then [args[0], Number(port)] + args[2..]
    else [args[0]] + SetPort(args[1..], port)
  }

  /** The first port option stands at k, with a value behind it. */
  predicate FirstPort(args: seq<Arg>, k: nat) {
    k + 1 < |args| && args[k].P2pPort? && forall j :: 0 <= j < k ==> !args[j].P2pPort?
  }

  lemma {:induction false} SetPortExact(args: seq<Arg>, port: Port) returns (k: nat)
    requires HasPort(args)
    ensures FirstPort(args, k) && SetPort(args, port) == args[k + 1 := Number(port)]
  {
    assert SetPort(args, port) == if args[0].P2pPort? then [args[0], Number(port)] + args[2..]
                                  else [args[0]] + SetPort(args[1..], port);
    hide HasPort;
    if args[0].P2pPort? {
      k := 0;
    } else {
      var rest := args[1..];
      k := SetPortExact(rest, port);
      hide SetPort;
      assert args == [args[0]] + rest;
      assert [args[0]] + rest[k + 1 := Number(port)] == args[k + 2 := Number(port)];
      PortShifts(args, k);
      k := k + 1;
    }
  }

  lemma {:induction false} HasPortExact(args: seq<Arg>)
    ensures HasPort(args) <==> exists k :: FirstPort(args, k)
  {
    if args != [] && !args[0].P2pPort? {
      HasPortExact(args[1..]);
      forall k: nat ensures FirstPort(args[1..], k) <==> FirstPort(args, k + 1) { PortShifts(args, k); }
      assert !FirstPort(args, 0);
      if k: nat :| FirstPort(args, k) {
        var before: nat := k - 1;
        assert FirstPort(args, before + 1);
        assert FirstPort(args[1..], before);
      }
      if k: nat :| FirstPort(args[1..], k) { assert FirstPort(args, k + 1); }
    } else if |args| > 1 {
      assert FirstPort(args, 0);
    }
  }

  lemma PortShifts(args: seq<Arg>, k: nat)
    requires args != [] && !args[0].P2pPort?
    ensures FirstPort(args[1..], k) <==> FirstPort(args, k + 1)
  {
    var rest := args[1..];
    assert forall j :: 0 <= j < |rest| ==> rest[j] == args[j + 1];
    if FirstPort(rest, k) {
      forall j | 0 <= j < k + 1 ensures !args[j].P2pPort? { if j > 0 { assert !rest[j - 1].P2pPort?; } }
    }
    if FirstPort(args, k + 1) {
      forall j | 0 <= j < k ensures !rest[j].P2pPort? { assert !args[j + 1].P2pPort?; }
    }
  }

  lemma {:induction false} SetPortKeeps(args: seq<Arg>, port: Port)
    requires HasPort(args) && Bootstrap !in args
    ensures Bootstrap !in SetPort(args, port)
  {
    if !args[0].P2pPort? {
      assert forall a :: a in args[1..] ==> a in args;
      SetPortKeeps(args[1..], port);
    }
  }

  /** The node's arguments without bootstraps, its port set, then its bootstraps and the closing options. */
  predicate ArgvOf(plist: seq<Arg>, port: Port, boots: seq<Port>, tail: seq<Arg>, args: seq<Arg>, k: nat) {
    var bare := Strip(plist, Bootstrap, true);
    FirstPort(bare, k) && args == bare[k + 1 := Number(port)] + BootArgs(boots) + tail
  }

  /** `minority_argv`: its own internal port, and at most five bootstraps, X excluded. */
  method MinorityArgv(s: Setup, m: Node, plist: seq<Arg>, tail: seq<Arg>) returns (r: Argv)
    requires SetupOk(s) && m in s.M && Bootstrap !in tail
    ensures r.NoPortOption? <==> forall k :: !FirstPort(Strip(plist, Bootstrap, true), k)
    ensures r.TooManyBootstraps? <==> !r.NoPortOption? && |BootsFrom(s, m, 0)| > MAX_BOOTSTRAPS
    ensures r.TooManyBootstraps? <==> !r.NoPortOption? && |s.p2p| > 7
    ensures r.Argv? ==> exists k :: ArgvOf(plist, Internal(m), BootsFrom(s, m, 0), tail, r.args, k)
    ensures r.Argv? ==> forall p :: p in Dials(r.args) <==> MayDial(s, m, p)
    ensures ListensOn(s, m) == Internal(m)
  {
    var a := StripOpt(plist, Bootstrap, true);
    BootsCount(s, m, 0);
    HasPortExact(a);
    if !HasPort(a) { return NoPortOption; }
    StripRemoves(plist, Bootstrap, true);
    SetPortKeeps(a, Internal(m));
    var boots := MinorityBoots(s, m);
    if |boots| > MAX_BOOTSTRAPS { return TooManyBootstraps; }
    ghost var k := SetPortExact(a, Internal(m));
    hide Strip, SetPort, HasPort, FirstPort, BootArgs, Dials, SetupOk, BootsFrom;
    var all := WithBoots(SetPort(a, Internal(m)), boots, tail);
    assert ArgvOf(plist, Internal(m), boots, tail, all, k);
    return Argv(all);
  }

  /** `x_isolated_argv`: its own internal port, and its forwarder's ports to the other majority nodes. */
  method XIsolatedArgv(s: Setup, plist: seq<Arg>, tail: seq<Arg>) returns (r: Argv)
    requires SetupOk(s) && Bootstrap !in tail
    ensures r.NoPortOption? <==> forall k :: !FirstPort(Strip(plist, Bootstrap, true), k)
    ensures !r.TooManyBootstraps?
    ensures r.Argv? ==> exists k :: ArgvOf(plist, Internal(s.X), XBootsFrom(s, 0), tail, r.args, k)
    ensures r.Argv? ==> forall p :: p in Dials(r.args) <==> MayDial(s, s.X, p)
    ensures ListensOn(s, s.X) == Internal(s.X)
  {
    var a := StripOpt(plist, Bootstrap, true);
    HasPortExact(a);
    if !HasPort(a) { return NoPortOption; }
    StripRemoves(plist, Bootstrap, true);
    SetPortKeeps(a, Internal(s.X));
    var boots := XBoots(s);
    ghost var k := SetPortExact(a, Internal(s.X));
    forall p { XBootsFromExact(s, 0, p); }
    hide Strip, SetPort, HasPort, FirstPort, BootArgs, Dials, SetupOk, XBootsFrom;
    var all := WithBoots(SetPort(a, Internal(s.X)), boots, tail);
    assert ArgvOf(plist, Internal(s.X), boots, tail, all, k);
    return Argv(all);
  }

  method XBoots(s: Setup) returns (boots: seq<Port>)
    requires SetupOk(s)
    ensures boots == XBootsFrom(s, 0)
  {
    boots := [];
    for j := 0 to |s.p2p|
      invariant boots + XBootsFrom(s, j) == XBootsFrom(s, 0)
    {
      if j != s.X && j !in s.M { boots := boots + [FwdPort(s.X, j)]; }
    }
    assert boots + [] == boots;
  }

  /** The internal port of every other minority node, this node's forwarder for every majority one but X. */
  method MinorityBoots(s: Setup, m: Node) returns (boots: seq<Port>)
    requires SetupOk(s) && m in s.M
    ensures boots == BootsFrom(s, m, 0)
  {
    boots := [];
    BootsStep(s, m, [], 0);
    hide BootsFrom;
    for j := 0 to |s.p2p|
      invariant boots + BootsFrom(s, m, j) == BootsFrom(s, m, 0)
    {
      BootsStep(s, m, boots, j);
      if j != m && j != s.X {
        boots := boots + [if j in s.M then Internal(j) else FwdPort(m, j)];
      }
    }
    BootsStep(s, m, boots, |s.p2p|);
  }

  /** One node moved from the rest to the ports already listed. */
  lemma BootsStep(s: Setup, m: Node, listed: seq<Port>, j: Node)
    requires SetupOk(s) && 0 <= j <= |s.p2p|
    ensures [] + BootsFrom(s, m, j) == BootsFrom(s, m, j)
    ensures j == |s.p2p| ==> listed + BootsFrom(s, m, j) == listed
    ensures j < |s.p2p| ==>
              listed + BootsFrom(s, m, j)
              == (if j == m || j == s.X then listed else listed + [if j in s.M then Internal(j) else FwdPort(m, j)])
                 + BootsFrom(s, m, j + 1)
  {
    hide SetupOk;
    if j < |s.p2p| {
      var rest, p := BootsFrom(s, m, j + 1), if j in s.M then Internal(j) else FwdPort(m, j);
      assert [] + rest == rest && listed + ([p] + rest) == listed + [p] + rest;
    }
  }

  method WithBoots(bare: seq<Arg>, boots: seq<Port>, tail: seq<Arg>) returns (a: seq<Arg>)
    requires Bootstrap !in bare && Bootstrap !in tail
    ensures a == bare + BootArgs(boots) + tail && Dials(a) == set p | p in boots
  {
    hide Dials;
    a := bare;
    for i := 0 to |boots|
      invariant a == bare + BootArgs(boots[..i])
    {
      assert boots[..i + 1][..i] == boots[..i];
      a := a + [Bootstrap, Address(boots[i])];
    }
    assert boots[..|boots|] == boots;
    DialsExact(bare, boots, tail);
    a := a + tail;
  }

  // ----- no uncut path between the sides -----

  /** The port leads to node v through at most n forwarder links, none of them cut by the minority. */
  ghost predicate LeadsTo(s: Setup, p: Port, v: Node, n: nat)
    requires SetupOk(s)
    decreases n
  {
    || (0 <= v < |s.p2p| && p == ListensOn(s, v))
    || (n > 0 && exists owner, m :: Carries(s, owner, m, p) && LeadsTo(s, m.tport, v, n - 1))
  }

  /** The owner's forwarder takes connections on port p by map m and passes them on. */
  predicate Carries(s: Setup, owner: Node, m: Map, p: Port)
    requires SetupOk(s)
  {
    0 <= owner < |s.p2p| && (owner in s.M || owner == s.X) && m in Maps(s, owner) && m.lport == p && !Cut(m, s.M)
  }

  /** Only X's forwarder carries anything once the minority is cut. */
  lemma OnlyXForwards(s: Setup, owner: Node, m: Map, p: Port)
    requires SetupOk(s) && Carries(s, owner, m, p)
    ensures owner == s.X && m.lport == p
    ensures m == Map(s.p2p[s.X], Internal(s.X), s.X, OUTSIDE)
            || (0 <= m.b < |s.p2p| && m.b !in s.M && m == Map(FwdPort(s.X, m.b), s.p2p[m.b], s.X, m.b))
  {
    EveryLinkCut(s, owner, m);
    MapsFromExact(s, owner, 0, m);
  }

  /** A port that is not a minority node's internal one leads to the majority side only. */
  lemma {:induction false} LeadsOutside(s: Setup, p: Port, v: Node, n: nat)
    requires SetupOk(s) && LeadsTo(s, p, v, n)
    requires forall m :: m in s.M ==> p != Internal(m)
    ensures v !in s.M
    decreases n
  {
    hide Carries;
    if !(0 <= v < |s.p2p| && p == ListensOn(s, v)) {
      var owner, m :| Carries(s, owner, m, p) && LeadsTo(s, m.tport, v, n - 1);
      OnlyXForwards(s, owner, m, p);
      LeadsOutside(s, m.tport, v, n - 1);
    }
  }

  /** A minority node's internal port, and a port of its own forwarder, lead to that node or nowhere. */
  lemma LeadsInside(s: Setup, m: Node, k: Node, v: Node, n: nat)
    requires SetupOk(s) && m in s.M && 0 <= k < |s.p2p| && k != s.X
    requires LeadsTo(s, if k in s.M then Internal(k) else FwdPort(m, k), v, n)
    ensures v in s.M
  {
    hide Carries;
    var p := if k in s.M then Internal(k) else FwdPort(m, k);
    if !(0 <= v < |s.p2p| && p == ListensOn(s, v)) {
      var owner, x :| Carries(s, owner, x, p) && LeadsTo(s, x.tport, v, n - 1);
      OnlyXForwards(s, owner, x, p);
    }
  }

  /** With the minority's forwarders cut, whatever a node dials by its arguments stays on its own side. */
  lemma NoPathAcross(s: Setup, u: Node, p: Port, v: Node, n: nat)
    requires SetupOk(s) && 0 <= u < |s.p2p| && MayDial(s, u, p) && LeadsTo(s, p, v, n)
    ensures u in s.M <==> v in s.M
  {
    if u in s.M {
      BootsFromExact(s, u, 0, p);
      var k :| 0 <= k < |s.p2p| && k != u && k != s.X && p == if k in s.M then Internal(k) else FwdPort(u, k);
      LeadsInside(s, u, k, v, n);
    } else {
      LeadsOutside(s, p, v, n);
    }
  }

  /** Each side stays connected: the minority directly, the majority by public ports, X through its forwarder. */
  lemma SidesConnected(s: Setup, u: Node, v: Node)
    requires SetupOk(s) && 0 <= u < |s.p2p| && 0 <= v < |s.p2p| && u != v && (u in s.M <==> v in s.M)
    ensures u in s.M ==> MayDial(s, u, Internal(v)) && LeadsTo(s, Internal(v), v, 0)
    ensures u !in s.M && u != s.X && v != s.X ==> MayDial(s, u, s.p2p[v]) && LeadsTo(s, s.p2p[v], v, 0)
    ensures u == s.X ==> MayDial(s, u, FwdPort(u, v)) && LeadsTo(s, FwdPort(u, v), v, 1)
    ensures u !in s.M && v == s.X ==> MayDial(s, u, s.p2p[v]) && LeadsTo(s, s.p2p[v], v, 1)
  {
    if u in s.M {
      BootsFromExact(s, u, 0, Internal(v));
    } else if u == s.X {
      MapsExact(s, u, Map(FwdPort(u, v), s.p2p[v], u, v));
      assert Carries(s, u, Map(FwdPort(u, v), s.p2p[v], u, v), FwdPort(u, v));
    } else if v == s.X {
      assert Carries(s, v, Map(s.p2p[v], Internal(v), v, OUTSIDE), s.p2p[v]);
      assert LeadsTo(s, Internal(v), v, 0);
    }
  }
}
