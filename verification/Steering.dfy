// ShortestPathRouting.get_path and what its hops do to a packet once they are
// installed as (switch, in_port) -> out_port rules.
module Steering {
  import opened Options
  import opened Sequences
  import opened Graph
  import opened PathTable
  import opened L2Multi

  // A place a machine is attached: a switch and one of its ports.
  datatype Loc = Loc(sw: Switch, port: nat)

  type RuleTable = map<(Switch, nat), nat>

  /** The pathlets from src through every machine in order to dst; None where no path exists. */
  method GetPathlets(net: Network, src: Loc, machines: seq<Loc>, dst: Loc) returns (rv: seq<Option<seq<Hop>>>)
    requires net.Valid()
    requires forall l :: l in [src] + machines + [dst] ==> l.sw in net.switches
    modifies net`pathMap
    ensures net.Valid()
    ensures |rv| == |machines| + 1
    ensures var ms := [src] + machines + [dst];
      forall n :: 0 <= n < |rv| ==>
        PathAnswer(net.adjacency, ms[n].sw, ms[n + 1].sw, ms[n].port, ms[n + 1].port, rv[n])
  {
    var ms := [src] + machines + [dst];
    rv := [];
    for index := 0 to |ms| - 1
      invariant net.Valid()
      invariant |rv| == index
      invariant forall n :: 0 <= n < index ==>
        PathAnswer(net.adjacency, ms[n].sw, ms[n + 1].sw, ms[n].port, ms[n + 1].port, rv[n])
    {
      var p := net.GetPath(ms[index].sw, ms[index + 1].sw, ms[index].port, ms[index + 1].port);
      rv := rv + [p];
    }
  }

  // --- forwarding ---

  ghost predicate LeadsTo(adj: Adjacency, s: Switch, port: nat, b: Switch) {
    (s, b) in adj && adj[(s, b)] == port
  }

  // A port carries at most one link: distinct neighbours hang off distinct ports.
  ghost predicate OneLinkPerPort(adj: Adjacency) {
    forall s, a, b :: (s, a) in adj && (s, b) in adj && adj[(s, a)] == adj[(s, b)] ==> a == b
  }

  ghost predicate HostPort(adj: Adjacency, l: Loc) {
    forall b :: !LeadsTo(adj, l.sw, l.port, b)
  }

  datatype Fate = Arrives(sw: Switch, inPort: nat) | Delivered(at: Loc) | Dropped

  // What happens to a packet that enters switch s on port p. Without a rule it
  // goes nowhere, and a rule never sends it back out of the port it came in on.
  ghost function Forward(adj: Adjacency, rules: RuleTable, s: Switch, p: nat): Fate {
    if (s, p) !in rules || rules[(s, p)] == p then Dropped
    else if b: Switch :| LeadsTo(adj, s, rules[(s, p)], b) then
      if (b, s) in adj then Arrives(b, adj[(b, s)]) else Dropped
    else Delivered(Loc(s, rules[(s, p)]))
  }

  // The machine ports reached in n forwarding steps, each machine bouncing the
  // packet back on its own port.
  ghost function Journey(adj: Adjacency, rules: RuleTable, s: Switch, p: nat, n: nat): seq<Loc>
    decreases n
  {
    if n == 0 then []
    else match Forward(adj, rules, s, p)
         case Arrives(b, q) => Journey(adj, rules, b, q, n - 1)
         case Delivered(l) => [l] + Journey(adj, rules, l.sw, l.port, n - 1)
         case Dropped => []
  }

  // A packet that enters at the first place is delivered at all the others in order.
  ghost predicate Delivers(adj: Adjacency, rules: RuleTable, ms: seq<Loc>)
    requires |ms| > 0
  {
    exists n :: Journey(adj, rules, ms[0].sw, ms[0].port, n) == ms[1..]
  }

  // --- rules made from hops ---

  function Install(hops: seq<Hop>): RuleTable {
    if hops == [] then map[]
    else var h := hops[|hops| - 1]; Install(hops[..|hops| - 1])[(h.sw, h.inPort) := h.outPort]
  }

  function KeyOf(h: Hop): (Switch, nat) {
    (h.sw, h.inPort)
  }

  ghost predicate LastWithKey(hops: seq<Hop>, t: nat)
    requires t < |hops|
  {
    forall u :: t < u < |hops| ==> KeyOf(hops[u]) != KeyOf(hops[t])
  }

  // Under each key the rules hold what the last hop with that key says, and nothing else.
  ghost predicate LastInForce(rules: RuleTable, hops: seq<Hop>) {
    && (forall key :: key in rules ==> exists t :: 0 <= t < |hops| && KeyOf(hops[t]) == key)
    && forall t :: 0 <= t < |hops| && LastWithKey(hops, t) ==>
         KeyOf(hops[t]) in rules && rules[KeyOf(hops[t])] == hops[t].outPort
  }

  lemma {:induction false} LastRule(hops: seq<Hop>, t: nat)
    requires t < |hops| && LastWithKey(hops, t)
    ensures KeyOf(hops[t]) in Install(hops) && Install(hops)[KeyOf(hops[t])] == hops[t].outPort
  {
    var n := |hops| - 1;
    if t < n {
      var before := hops[..n];
      assert before[t] == hops[t] && LastWithKey(before, t);
      LastRule(before, t);
      assert KeyOf(hops[n]) != KeyOf(hops[t]);
    }
  }

  lemma {:induction false} RuleOfHop(hops: seq<Hop>, key: (Switch, nat)) returns (t: nat)
    requires key in Install(hops)
    ensures t < |hops| && KeyOf(hops[t]) == key
  {
    t := |hops| - 1;
    if KeyOf(hops[t]) != key {
      t := RuleOfHop(hops[..t], key);
    }
  }

  /** Of the hops with one key, the one installed last is in force. */
  lemma InstalledInForce(hops: seq<Hop>)
    ensures LastInForce(Install(hops), hops)
  {
    hide Install, KeyOf, LastWithKey;
    forall key | key in Install(hops) ensures exists t :: 0 <= t < |hops| && KeyOf(hops[t]) == key {
      var t := RuleOfHop(hops, key);
    }
    forall t | 0 <= t < |hops| && LastWithKey(hops, t)
      ensures KeyOf(hops[t]) in Install(hops) && Install(hops)[KeyOf(hops[t])] == hops[t].outPort
    {
      LastRule(hops, t);
    }
  }

  function AllHops(pathlets: seq<seq<Hop>>): seq<Hop> {
    if pathlets == [] then [] else pathlets[0] + AllHops(pathlets[1..])
  }

  function SwapPorts(hops: seq<Hop>): (r: seq<Hop>)
    ensures |r| == |hops|
    ensures forall t :: 0 <= t < |r| ==> r[t] == Hop(hops[t].sw, hops[t].outPort, hops[t].inPort)
  {
    seq(|hops|, t requires 0 <= t < |hops| => Hop(hops[t].sw, hops[t].outPort, hops[t].inPort))
  }

  // Hops that share a (switch, in_port) key agree on the way out.
  ghost predicate NoClash(hops: seq<Hop>) {
    forall a, b :: 0 <= a < b < |hops| && hops[a].sw == hops[b].sw && hops[a].inPort == hops[b].inPort ==>
      hops[a].outPort == hops[b].outPort
  }

  ghost predicate Agrees(rules: RuleTable, hops: seq<Hop>) {
    forall h :: h in hops ==> (h.sw, h.inPort) in rules && rules[(h.sw, h.inPort)] == h.outPort
  }

  /** No two hops of one pathlet even share a key. */
  lemma PathletKeysDistinct(hops: seq<Hop>)
    requires NoRepeat(Switches(hops))
    ensures forall a, b :: 0 <= a < b < |hops| ==> (hops[a].sw, hops[a].inPort) != (hops[b].sw, hops[b].inPort)
    ensures NoClash(hops)
  {
  }

  /** Every hop is in force after all of them are installed exactly when no two of them clash. */
  lemma {:induction false} InForceIffNoClash(hops: seq<Hop>)
    ensures Agrees(Install(hops), hops) <==> NoClash(hops)
  {
    if Agrees(Install(hops), hops) {
      forall a, b | 0 <= a < b < |hops| && hops[a].sw == hops[b].sw && hops[a].inPort == hops[b].inPort
        ensures hops[a].outPort == hops[b].outPort
      {
        assert hops[a] in hops && hops[b] in hops;
      }
    }
    if NoClash(hops) && hops != [] {
      var n := |hops| - 1;
      InForceIffNoClash(hops[..n]);
      forall h | h in hops ensures (h.sw, h.inPort) in Install(hops) && Install(hops)[(h.sw, h.inPort)] == h.outPort {
        var a :| 0 <= a < |hops| && hops[a] == h;
        assert a < n ==> h == hops[..n][a];
      }
    }
  }

  // A pathlet from one machine port to the next that no switch would drop.
  ghost predicate Carries(adj: Adjacency, hops: seq<Hop>, a: Loc, b: Loc) {
    && |hops| > 0 && Chained(adj, hops)
    && hops[0].sw == a.sw && hops[0].inPort == a.port
    && hops[|hops| - 1].sw == b.sw && hops[|hops| - 1].outPort == b.port
    && forall t :: 0 <= t < |hops| ==> hops[t].inPort != hops[t].outPort
  }

  /** A pathlet between two different machine ports never turns a packet straight back. */
  lemma AnswerCarries(adj: Adjacency, a: Loc, b: Loc, hops: seq<Hop>)
    requires OneLinkPerPort(adj) && HostPort(adj, a) && HostPort(adj, b) && a != b
    requires PathAnswer(adj, a.sw, b.sw, a.port, b.port, Some(hops))
    ensures Carries(adj, hops, a, b)
  {
    forall t | 0 <= t < |hops| ensures hops[t].inPort != hops[t].outPort {
      if t > 0 {
        assert LinkedHops(adj, hops[t - 1], hops[t]);
      }
      if t < |hops| - 1 {
        assert LinkedHops(adj, hops[t], hops[t + 1]);
      }
      if t == 0 && |hops| > 1 {
        assert !LeadsTo(adj, a.sw, a.port, hops[1].sw);
      } else if t == |hops| - 1 && t > 0 {
        assert !LeadsTo(adj, b.sw, b.port, hops[t - 1].sw);
      } else if t > 0 {
        assert Switches(hops)[t - 1] != Switches(hops)[t + 1];
      }
    }
  }

  /** Following a pathlet's rules from hop t delivers the packet at b after the remaining hops. */
  lemma {:induction false} RunPathlet(adj: Adjacency, rules: RuleTable, hops: seq<Hop>, a: Loc, b: Loc, t: nat, n: nat)
    requires OneLinkPerPort(adj) && HostPort(adj, b) && Carries(adj, hops, a, b) && Agrees(rules, hops)
    requires t < |hops|
    ensures Journey(adj, rules, hops[t].sw, hops[t].inPort, |hops| - t + n)
         == [b] + Journey(adj, rules, b.sw, b.port, n)
    decreases |hops| - t
  {
    assert hops[t] in hops;
    if t < |hops| - 1 {
      assert LinkedHops(adj, hops[t], hops[t + 1]);
      assert LeadsTo(adj, hops[t].sw, hops[t].outPort, hops[t + 1].sw);
      assert Forward(adj, rules, hops[t].sw, hops[t].inPort) == Arrives(hops[t + 1].sw, hops[t + 1].inPort);
      RunPathlet(adj, rules, hops, a, b, t + 1, n);
    } else {
      assert Forward(adj, rules, hops[t].sw, hops[t].inPort) == Delivered(b);
    }
  }

  // Pathlet n carries a packet from machine port n to machine port n + 1.
  ghost predicate Chain(adj: Adjacency, ms: seq<Loc>, pathlets: seq<seq<Hop>>) {
    && |ms| == |pathlets| + 1
    && (forall l :: l in ms ==> HostPort(adj, l))
    && forall n :: 0 <= n < |pathlets| ==> Carries(adj, pathlets[n], ms[n], ms[n + 1])
  }

  /** A chain whose rules are all in force visits its machine ports in order. */
  lemma {:induction false} RunChain(adj: Adjacency, rules: RuleTable, ms: seq<Loc>, pathlets: seq<seq<Hop>>)
    requires OneLinkPerPort(adj) && Chain(adj, ms, pathlets)
    requires forall p :: p in pathlets ==> Agrees(rules, p)
    ensures Journey(adj, rules, ms[0].sw, ms[0].port, |AllHops(pathlets)|) == ms[1..]
  {
    if pathlets != [] {
      var rest := AllHops(pathlets[1..]);
      RunPathlet(adj, rules, pathlets[0], ms[0], ms[1], 0, |rest|);
      forall n | 0 <= n < |pathlets[1..]| ensures Carries(adj, pathlets[1..][n], ms[1..][n], ms[1..][n + 1]) {
        assert Carries(adj, pathlets[n + 1], ms[n + 1], ms[n + 2]);
      }
      RunChain(adj, rules, ms[1..], pathlets[1..]);
      assert ms[1..] == [ms[1]] + ms[1..][1..];
    }
  }

  lemma {:induction false} AgreesPerPathlet(rules: RuleTable, pathlets: seq<seq<Hop>>)
    requires Agrees(rules, AllHops(pathlets))
    ensures forall p :: p in pathlets ==> Agrees(rules, p)
  {
    if pathlets != [] {
      AgreesPerPathlet(rules, pathlets[1..]);
      assert pathlets == [pathlets[0]] + pathlets[1..];
    }
  }

  // get_path found every pathlet, and its machine ports are where machines can be.
  ghost predicate Found(adj: Adjacency, ms: seq<Loc>, pathlets: seq<seq<Hop>>) {
    && |ms| == |pathlets| + 1
    && (forall l :: l in ms ==> HostPort(adj, l))
    && (forall n :: 0 <= n < |pathlets| ==>
          PathAnswer(adj, ms[n].sw, ms[n + 1].sw, ms[n].port, ms[n + 1].port, Some(pathlets[n])))
  }

  // Every pathlet leads to another place than the one it starts at.
  ghost predicate MovesOn(ms: seq<Loc>) {
    forall n :: 0 <= n < |ms| - 1 ==> ms[n] != ms[n + 1]
  }

  lemma FoundIsChain(adj: Adjacency, ms: seq<Loc>, pathlets: seq<seq<Hop>>)
    requires OneLinkPerPort(adj) && Found(adj, ms, pathlets) && MovesOn(ms)
    ensures Chain(adj, ms, pathlets)
  {
    forall n | 0 <= n < |pathlets| ensures Carries(adj, pathlets[n], ms[n], ms[n + 1]) {
      AnswerCarries(adj, ms[n], ms[n + 1], pathlets[n]);
    }
  }

  /** End to end: when no two hops of the pathlets clash, a packet entering at the source visits
      every machine in order and leaves at the destination. */
  lemma SteeringDelivers(adj: Adjacency, ms: seq<Loc>, pathlets: seq<seq<Hop>>)
    requires OneLinkPerPort(adj) && Found(adj, ms, pathlets) && MovesOn(ms) && NoClash(AllHops(pathlets))
    ensures Journey(adj, Install(AllHops(pathlets)), ms[0].sw, ms[0].port, |AllHops(pathlets)|) == ms[1..]
    ensures Delivers(adj, Install(AllHops(pathlets)), ms)
  {
    FoundIsChain(adj, ms, pathlets);
    InForceIffNoClash(AllHops(pathlets));
    AgreesPerPathlet(Install(AllHops(pathlets)), pathlets);
    RunChain(adj, Install(AllHops(pathlets)), ms, pathlets);
  }

  // --- the reverse direction ---

  function Reversed<T>(s: seq<T>): (r: seq<T>)
    ensures |r| == |s| && forall t :: 0 <= t < |s| ==> r[t] == s[|s| - 1 - t]
  {
    seq(|s|, t requires 0 <= t < |s| => s[|s| - 1 - t])
  }

  function ReturnPathlets(pathlets: seq<seq<Hop>>): (r: seq<seq<Hop>>)
    ensures |r| == |pathlets|
    ensures forall t :: 0 <= t < |r| ==> r[t] == Reversed(SwapPorts(pathlets[|r| - 1 - t]))
  {
    seq(|pathlets|, t requires 0 <= t < |pathlets| => Reversed(SwapPorts(pathlets[|pathlets| - 1 - t])))
  }

  lemma CarriesBack(adj: Adjacency, hops: seq<Hop>, a: Loc, b: Loc)
    requires Carries(adj, hops, a, b)
    ensures Carries(adj, Reversed(SwapPorts(hops)), b, a)
  {
  }

  lemma {:induction false} HopOfPathlet(pathlets: seq<seq<Hop>>, n: nat, h: Hop)
    requires n < |pathlets| && h in pathlets[n]
    ensures h in AllHops(pathlets)
  {
    if n > 0 {
      HopOfPathlet(pathlets[1..], n - 1, h);
    }
  }

  lemma {:induction false} AllHopsLength(ps: seq<seq<Hop>>, qs: seq<seq<Hop>>)
    ensures |AllHops(ps + qs)| == |AllHops(ps)| + |AllHops(qs)|
  {
    if ps == [] {
      assert ps + qs == qs;
    } else {
      AllHopsLength(ps[1..], qs);
      assert (ps + qs)[1..] == ps[1..] + qs;
    }
  }

  lemma {:induction false} AllHopsAppend(ps: seq<seq<Hop>>, p: seq<Hop>)
    ensures AllHops(ps + [p]) == AllHops(ps) + p
  {
    if ps == [] {
      assert ps + [p] == [p] && [p][1..] == [];
    } else {
      assert (ps + [p])[1..] == ps[1..] + [p];
      AllHopsAppend(ps[1..], p);
    }
  }

  lemma {:induction false} ReturnHopCount(ps: seq<seq<Hop>>)
    ensures |AllHops(ReturnPathlets(ps))| == |AllHops(ps)|
  {
    if ps != [] {
      ReturnHopCount(ps[1..]);
      var last := [Reversed(SwapPorts(ps[0]))];
      assert ReturnPathlets(ps) == ReturnPathlets(ps[1..]) + last;
      AllHopsLength(ReturnPathlets(ps[1..]), last);
      assert last[1..] == [];
      assert AllHops(last) == last[0] + AllHops(last[1..]);
    }
  }

  lemma HopOfReturn(pathlets: seq<seq<Hop>>, t: nat, u: nat)
    requires t < |pathlets| && u < |ReturnPathlets(pathlets)[t]|
    ensures ReturnPathlets(pathlets)[t][u] in SwapPorts(AllHops(pathlets))
  {
    var all, n := AllHops(pathlets), |pathlets| - 1 - t;
    var g := pathlets[n][|pathlets[n]| - 1 - u];
    HopOfPathlet(pathlets, n, g);
    var v :| 0 <= v < |all| && all[v] == g;
    assert SwapPorts(all)[v] == ReturnPathlets(pathlets)[t][u];
  }

  lemma SwappedRulesAgree(pathlets: seq<seq<Hop>>)
    requires NoClash(SwapPorts(AllHops(pathlets)))
    ensures forall p :: p in ReturnPathlets(pathlets) ==> Agrees(Install(SwapPorts(AllHops(pathlets))), p)
  {
    InForceIffNoClash(SwapPorts(AllHops(pathlets)));
    var back := ReturnPathlets(pathlets);
    forall t, u | 0 <= t < |back| && 0 <= u < |back[t]| ensures back[t][u] in SwapPorts(AllHops(pathlets)) {
      HopOfReturn(pathlets, t, u);
    }
  }

  lemma ReturnIsChain(adj: Adjacency, ms: seq<Loc>, pathlets: seq<seq<Hop>>)
    requires Chain(adj, ms, pathlets)
    ensures Chain(adj, Reversed(ms), ReturnPathlets(pathlets))
  {
    var back, n := ReturnPathlets(pathlets), |pathlets|;
    forall t | 0 <= t < n ensures Carries(adj, back[t], Reversed(ms)[t], Reversed(ms)[t + 1]) {
      CarriesBack(adj, pathlets[n - 1 - t], ms[n - 1 - t], ms[n - t]);
    }
  }

  /** Swapping in and out ports of every hop carries traffic from the destination back to the
      source through the same machines, if the swapped hops do not clash either. */
  lemma ReverseSteeringDelivers(adj: Adjacency, ms: seq<Loc>, pathlets: seq<seq<Hop>>)
    requires OneLinkPerPort(adj) && Found(adj, ms, pathlets) && MovesOn(ms) && NoClash(SwapPorts(AllHops(pathlets)))
    ensures var dst := ms[|ms| - 1];
      Journey(adj, Install(SwapPorts(AllHops(pathlets))), dst.sw, dst.port, |AllHops(pathlets)|) == Reversed(ms)[1..]
    ensures Delivers(adj, Install(SwapPorts(AllHops(pathlets))), Reversed(ms))
  {
    FoundIsChain(adj, ms, pathlets);
    SwappedRulesAgree(pathlets);
    ReturnIsChain(adj, ms, pathlets);
    RunChain(adj, Install(SwapPorts(AllHops(pathlets))), Reversed(ms), ReturnPathlets(pathlets));
    ReturnHopCount(pathlets);
  }

  lemma InstallLast(hops: seq<Hop>, h: Hop)
    ensures Install(hops + [h]) == Install(hops)[(h.sw, h.inPort) := h.outPort]
  {
    assert (hops + [h])[..|hops|] == hops;
  }
}
