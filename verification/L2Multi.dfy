// The switch-level state of l2_multi_slick: known switches, adjacency, the path
// cache, and the handlers and queries that change them.
module L2Multi {
  import opened Options
  import opened Sequences
  import opened Graph
  import opened PathTable

  // A directed discovery link: port1 of dpid1 reaches port2 of dpid2.
  datatype Link = Link(dpid1: Switch, port1: nat, dpid2: Switch, port2: nat)

  function Flip(l: Link): Link {
    Link(l.dpid2, l.port2, l.dpid1, l.port1)
  }

  datatype Hop = Hop(sw: Switch, inPort: nat, outPort: nat)

  ghost predicate Symmetric(adj: Adjacency) {
    forall i, j :: (i, j) in adj ==> (j, i) in adj
  }

  ghost predicate WithinSwitches(adj: Adjacency, sws: set<Switch>) {
    forall i, j :: (i, j) in adj ==> i in sws && j in sws
  }

  // Both ports of a connected pair are the two ends of one link of `links`.
  ghost predicate PortsFrom(adj: Adjacency, links: set<Link>) {
    forall i, j :: (i, j) in adj && (j, i) in adj && i != j ==>
      var l := Link(i, adj[(i, j)], j, adj[(j, i)]); l in links || Flip(l) in links
  }

  // --- what a link event does to adjacency ---

  function Connect(adj: Adjacency, l: Link): Adjacency {
    adj[(l.dpid1, l.dpid2) := l.port1][(l.dpid2, l.dpid1) := l.port2]
  }

  predicate SamePair(a: Link, b: Link) {
    a.dpid1 == b.dpid1 && a.dpid2 == b.dpid2
  }

  // The first discovered link between the same two switches that goes both ways.
  function Replacement(discovered: seq<Link>, all: set<Link>, l: Link): (r: Option<Link>)
    ensures r.Some? ==> r.value in discovered && SamePair(r.value, l) && Flip(r.value) in all
    ensures r.None? ==> forall ll :: ll in discovered && SamePair(ll, l) ==> Flip(ll) !in all
  {
    if discovered == [] then None
    else if SamePair(discovered[0], l) && Flip(discovered[0]) in all then Some(discovered[0])
    else Replacement(discovered[1..], all, l)
  }

  function Elements(discovered: seq<Link>): set<Link> {
    set l | l in discovered
  }

  function AfterLinkEvent(adj: Adjacency, l: Link, removed: bool, discovered: seq<Link>): Adjacency {
    if removed then
      var cut := adj - {(l.dpid1, l.dpid2), (l.dpid2, l.dpid1)};
      match Replacement(discovered, Elements(discovered), l)
      case None => cut
      case Some(ll) => Connect(cut, ll)
    else if (l.dpid1, l.dpid2) !in adj && Flip(l) in discovered then Connect(adj, l)
    else adj
  }

  // The link an event vouches for in both directions, if any.
  function Confirmed(adj: Adjacency, l: Link, removed: bool, discovered: seq<Link>): set<Link> {
    if removed then
      match Replacement(discovered, Elements(discovered), l)
      case None => {}
      case Some(ll) => {ll}
    else if (l.dpid1, l.dpid2) !in adj && Flip(l) in discovered then {l} else {}
  }

  // No link of `discovered` joins the two switches of l in both directions.
  ghost predicate NoTwoWay(discovered: seq<Link>, l: Link) {
    forall ll :: ll in discovered && SamePair(ll, l) ==> Flip(ll) !in discovered
  }

  ghost predicate Joined(adj: Adjacency, l: Link) {
    (l.dpid1, l.dpid2) in adj && (l.dpid2, l.dpid1) in adj
  }

  // The two switches of l are connected through the ports of one discovered two-way link.
  ghost predicate JoinedByDiscovered(adj: Adjacency, l: Link, discovered: seq<Link>) {
    Joined(adj, l)
    && exists ll :: ll in discovered && SamePair(ll, l) && Flip(ll) in discovered && JoinedThrough(adj, ll)
  }

  ghost predicate JoinedThrough(adj: Adjacency, l: Link)
    requires Joined(adj, l)
  {
    adj[(l.dpid2, l.dpid1)] == l.port2 && (l.dpid1 != l.dpid2 ==> adj[(l.dpid1, l.dpid2)] == l.port1)
  }

  // What a link event means for adjacency, which goes from adj to adj'.
  ghost predicate LinkEventEffect(adj: Adjacency, l: Link, removed: bool, discovered: seq<Link>, adj': Adjacency) {
    // Every other pair is left alone.
    && (forall p :: p != (l.dpid1, l.dpid2) && p != (l.dpid2, l.dpid1) ==> Port(adj', p) == Port(adj, p))
    // A removed link leaves no trace, unless discovery knows another one that goes both ways.
    && (removed && NoTwoWay(discovered, l) ==> (l.dpid1, l.dpid2) !in adj' && (l.dpid2, l.dpid1) !in adj')
    && (removed && !NoTwoWay(discovered, l) ==> JoinedByDiscovered(adj', l, discovered))
    // A new link connects a pair that was not connected once both its directions are known.
    && (!removed && (l.dpid1, l.dpid2) in adj ==> adj' == adj)
    && (!removed && (l.dpid1, l.dpid2) !in adj && Flip(l) in discovered ==> Joined(adj', l) && JoinedThrough(adj', l))
    && (!removed && Flip(l) !in discovered ==> adj' == adj)
  }

  function Port(adj: Adjacency, p: (Switch, Switch)): Option<nat> {
    if p in adj then Some(adj[p]) else None
  }

  // The confirmed links after an event: a removed link is confirmed no more.
  function StillConfirmed(links: set<Link>, l: Link, removed: bool): set<Link> {
    if removed then links - {l, Flip(l)} else links
  }

  /** A removal cuts the pair in both directions unless discovery knows a two-way link that
      replaces it, a new link connects the pair when its reverse is known, and nothing else
      changes. */
  lemma LinkEventMeans(adj: Adjacency, l: Link, removed: bool, discovered: seq<Link>)
    ensures LinkEventEffect(adj, l, removed, discovered, AfterLinkEvent(adj, l, removed, discovered))
  {
  }

  /** Any link event keeps adjacency symmetric, inside the known switches, and with
      port pairs that come from one link confirmed in both directions and not removed since. */
  lemma LinkEventKeepsWiring(adj: Adjacency, sws: set<Switch>, links: set<Link>, l: Link, removed: bool,
                             discovered: seq<Link>)
    requires Symmetric(adj) && WithinSwitches(adj, sws) && PortsFrom(adj, links)
    requires l.dpid1 in sws && l.dpid2 in sws
    ensures var adj' := AfterLinkEvent(adj, l, removed, discovered);
      Symmetric(adj') && WithinSwitches(adj', sws)
      && PortsFrom(adj', StillConfirmed(links, l, removed) + Confirmed(adj, l, removed, discovered))
  {
  }

  // --- paths with ports ---

  // Consecutive hops are joined by the two ends of one adjacency: what _check_path tests.
  ghost predicate Chained(adj: Adjacency, hops: seq<Hop>) {
    forall t :: 0 < t < |hops| ==> LinkedHops(adj, hops[t - 1], hops[t])
  }

  predicate LinkedHops(adj: Adjacency, a: Hop, b: Hop) {
    && (a.sw, b.sw) in adj && adj[(a.sw, b.sw)] == a.outPort
    && (b.sw, a.sw) in adj && adj[(b.sw, a.sw)] == b.inPort
  }

  function Switches(hops: seq<Hop>): (w: seq<Switch>)
    ensures |w| == |hops| && forall t :: 0 <= t < |w| ==> w[t] == hops[t].sw
  {
    seq(|hops|, t requires 0 <= t < |hops| => hops[t].sw)
  }

  // What get_path promises for one (src, dst) query.
  ghost predicate PathAnswer(adj: Adjacency, src: Switch, dst: Switch, first: nat, final: nat, r: Option<seq<Hop>>) {
    match r
    case None => src != dst && !Reachable(adj, src, dst)
    case Some(hops) =>
      && |hops| > 0 && hops[0].sw == src && hops[|hops| - 1].sw == dst
      && hops[0].inPort == first && hops[|hops| - 1].outPort == final
      && Chained(adj, hops)
      && IsDistance(adj, src, dst, |hops| - 1)
      && NoRepeat(Switches(hops))
  }

  lemma SelfDistance(adj: Adjacency, s: Switch)
    ensures IsDistance(adj, s, s, 0)
  {
    assert Joins(adj, [s], s, s);
  }

  class Network {
    var switches: set<Switch>
    var adjacency: Adjacency
    var pathMap: PathMap
    // Every link that some event found in both directions and that was not removed since.
    ghost var confirmed: set<Link>

    // Holds between any two events: the cache is empty or exact for the current
    // adjacency, and adjacency is symmetric with real port pairs.
    ghost predicate Valid()
      reads this
    {
      && Symmetric(adjacency) && WithinSwitches(adjacency, switches) && PortsFrom(adjacency, confirmed)
      && (pathMap == map[] || Exact(adjacency, pathMap))
    }

    constructor ()
      ensures Valid() && switches == {} && adjacency == map[] && pathMap == map[] && confirmed == {}
    {
      switches, adjacency, pathMap, confirmed := {}, map[], map[], {};
    }

    // A switch connects. The cache is not cleared.
    method ConnectionUp(dpid: Switch)
      requires Valid()
      modifies this`switches
      ensures Valid() && switches == old(switches) + {dpid}
    {
      if dpid !in switches {
        switches := switches + {dpid};
      }
    }

    // A link event, with discovery's link set in its iteration order. An unknown
    // dpid is a KeyError raised before anything changes.
    method LinkEvent(l: Link, removed: bool, discovered: seq<Link>) returns (ok: bool)
      requires Valid()
      modifies this`adjacency, this`pathMap, this`confirmed
      ensures Valid()
      ensures ok <==> l.dpid1 in switches && l.dpid2 in switches
      ensures ok ==> adjacency == AfterLinkEvent(old(adjacency), l, removed, discovered) && pathMap == map[]
      ensures ok ==> LinkEventEffect(old(adjacency), l, removed, discovered, adjacency)
      ensures ok ==> confirmed == StillConfirmed(old(confirmed), l, removed)
                                  + Confirmed(old(adjacency), l, removed, discovered)
      ensures !ok ==> adjacency == old(adjacency) && pathMap == old(pathMap) && confirmed == old(confirmed)
    {
      if l.dpid1 !in switches || l.dpid2 !in switches {
        return false;
      }
      ok := true;
      LinkEventKeepsWiring(adjacency, switches, confirmed, l, removed, discovered);
      LinkEventMeans(adjacency, l, removed, discovered);
      confirmed := StillConfirmed(confirmed, l, removed) + Confirmed(adjacency, l, removed, discovered);
      pathMap := map[];
      var sw1, sw2 := l.dpid1, l.dpid2;
      if removed {
        if (sw1, sw2) in adjacency {
          adjacency := adjacency - {(sw1, sw2)};
        }
        if (sw2, sw1) in adjacency {
          adjacency := adjacency - {(sw2, sw1)};
        }
        assert adjacency == old(adjacency) - {(sw1, sw2), (sw2, sw1)};
        var n := 0;
        while n < |discovered|
          invariant n <= |discovered|
          invariant adjacency == old(adjacency) - {(sw1, sw2), (sw2, sw1)}
          invariant Replacement(discovered, Elements(discovered), l)
                 == Replacement(discovered[n..], Elements(discovered), l)
        {
          var ll := discovered[n];
          if ll.dpid1 == l.dpid1 && ll.dpid2 == l.dpid2 {
            if Flip(ll) in discovered {
              adjacency := adjacency[(sw1, sw2) := ll.port1];
              adjacency := adjacency[(sw2, sw1) := ll.port2];
              break;
            }
          }
          n := n + 1;
        }
      } else {
        if (sw1, sw2) !in adjacency {
          if Flip(l) in discovered {
            adjacency := adjacency[(sw1, sw2) := l.port1];
            adjacency := adjacency[(sw2, sw1) := l.port2];
          }
        }
      }
    }

    // --- filling the cache ---

    // switches.values(): every known switch once, in the dictionary's own order.
    method SwitchValues() returns (sws: seq<Switch>)
      ensures forall s :: s in sws <==> s in switches
      ensures NoRepeat(sws)
    {
      sws := [];
      var rest := switches;
      while rest != {}
        invariant forall s :: s in sws <==> s in switches && s !in rest
        invariant NoRepeat(sws) && rest <= switches
      {
        var s :| s in rest;
        sws, rest := sws + [s], rest - {s};
      }
    }

    // The rows of path_map for one switch: its links at distance 1, itself at 0.
    method SeedRow(k: Switch)
      requires forall j :: (k, j) !in pathMap
      modifies this`pathMap
      ensures forall i, j :: Lookup(pathMap, i, j) ==
                             (if i == k then InitialCell(adjacency, {k}, k, j) else Lookup(old(pathMap), i, j))
    {
      var rest := set p | p in adjacency.Keys && p.0 == k :: p.1;
      while rest != {}
        invariant forall j :: j in rest ==> (k, j) in adjacency
        invariant forall i, j :: i != k ==> Lookup(pathMap, i, j) == Lookup(old(pathMap), i, j)
        invariant forall j :: Lookup(pathMap, k, j) ==
                              (if (k, j) in adjacency && j !in rest then Some(Entry(1, None)) else None)
      {
        var j :| j in rest;
        pathMap := pathMap[(k, j) := Entry(1, None)];
        rest := rest - {j};
      }
      pathMap := pathMap[(k, k) := Entry(0, None)];
    }

    // One round of the triple loop, cell by cell in place. Row k and column k never
    // change during the round, so the result is the simultaneous relaxation.
    method RelaxRound(sws: seq<Switch>, k: Switch)
      requires NoRepeat(sws)
      requires forall i, j :: (i, j) in pathMap ==> i in sws && j in sws
      requires Lookup(pathMap, k, k) == Some(Entry(0, None))
      modifies this`pathMap
      ensures RelaxedThrough(old(pathMap), k, pathMap)
    {
      ghost var before := pathMap;
      var a := 0;
      while a < |sws|
        invariant a <= |sws|
        invariant forall i, j :: Lookup(pathMap, i, j) ==
                                 (if i in sws[..a] then Relaxed(before, i, k, j) else Lookup(before, i, j))
      {
        var i := sws[a];
        assert i !in sws[..a];
        ghost var mid := pathMap;
        RelaxRow(sws, i, k);
        assert sws[..a + 1] == sws[..a] + [i];
        forall x, j ensures Lookup(pathMap, x, j) ==
                            (if x in sws[..a + 1] then Relaxed(before, x, k, j) else Lookup(before, x, j)) {
          assert Lookup(mid, x, j) == (if x in sws[..a] then Relaxed(before, x, k, j) else Lookup(before, x, j));
          assert Lookup(mid, i, k) == Lookup(before, i, k);
          assert Lookup(mid, k, j) == Lookup(before, k, j);
        }
        a := a + 1;
      }
      assert sws[..a] == sws;
    }

    method RelaxRow(sws: seq<Switch>, i: Switch, k: Switch)
      requires NoRepeat(sws)
      requires Lookup(pathMap, k, k) == Some(Entry(0, None))
      modifies this`pathMap
      ensures forall x, j :: x != i || j !in sws ==> Lookup(pathMap, x, j) == Lookup(old(pathMap), x, j)
      ensures forall j :: j in sws ==> Lookup(pathMap, i, j) == Relaxed(old(pathMap), i, k, j)
    {
      ghost var before := pathMap;
      var b := 0;
      while b < |sws|
        invariant b <= |sws|
        invariant forall x, j :: x != i || j !in sws[..b] ==> Lookup(pathMap, x, j) == Lookup(before, x, j)
        invariant forall j :: j in sws[..b] ==> Lookup(pathMap, i, j) == Relaxed(before, i, k, j)
      {
        var j := sws[b];
        assert j !in sws[..b];
        assert Lookup(pathMap, i, k) == Lookup(before, i, k);
        assert Lookup(pathMap, k, j) == Lookup(before, k, j);
        if (i, k) in pathMap {
          if (k, j) in pathMap {
            var ikjDist := pathMap[(i, k)].dist + pathMap[(k, j)].dist;
            if (i, j) !in pathMap || ikjDist < pathMap[(i, j)].dist {
              pathMap := pathMap[(i, j) := Entry(ikjDist, Some(k))];
            }
          }
        }
        assert sws[..b + 1] == sws[..b] + [j];
        b := b + 1;
      }
      assert sws[..b] == sws;
    }

    // Fill the table for the current adjacency.
    method CalcPaths()
      requires Valid()
      modifies this`pathMap
      ensures Valid() && Exact(adjacency, pathMap)
      ensures switches != {} ==> pathMap != map[]
    {
      var sws := SwitchValues();
      pathMap := map[];
      var n := 0;
      while n < |sws|
        invariant n <= |sws|
        invariant forall i, j :: Lookup(pathMap, i, j) ==
                                 (if i in sws[..n] then InitialCell(adjacency, switches, i, j) else None)
      {
        assert sws[n] !in sws[..n];
        forall j ensures (sws[n], j) !in pathMap {
          assert Lookup(pathMap, sws[n], j) == None;
        }
        SeedRow(sws[n]);
        assert sws[..n + 1] == sws[..n] + [sws[n]];
        n := n + 1;
      }
      assert sws[..n] == sws;
      ghost var done: set<Switch> := {};
      InitialProgress(adjacency, switches, pathMap);
      n := 0;
      while n < |sws|
        invariant n <= |sws|
        invariant done == set s | s in sws[..n]
        invariant ProgressInv(adjacency, switches, pathMap, done)
      {
        ghost var before := pathMap;
        RelaxRound(sws, sws[n]);
        RelaxStep(adjacency, switches, before, done, sws[n], pathMap);
        assert sws[..n + 1] == sws[..n] + [sws[n]];
        done := done + {sws[n]};
        n := n + 1;
      }
      assert sws[..n] == sws;
      assert done == switches;
      FinishedIsExact(adjacency, switches, pathMap);
      if switches != {} {
        var s :| s in switches;
        assert Lookup(pathMap, s, s) == Some(Entry(0, None));
      }
    }

    // The switches strictly between src and dst, filling an empty cache first.
    method GetRawPath(src: Switch, dst: Switch) returns (r: Option<seq<Switch>>)
      requires Valid() && src in switches && dst in switches
      modifies this`pathMap
      ensures Valid() && Exact(adjacency, pathMap) && pathMap != map[]
      ensures old(pathMap) != map[] ==> pathMap == old(pathMap)
      ensures r == RawPath(adjacency, pathMap, src, dst)
    {
      if pathMap == map[] {
        CalcPaths();
      }
      r := RawPath(adjacency, pathMap, src, dst);
    }

    method CheckPath(p: seq<Hop>) returns (ok: bool)
      ensures ok <==> Chained(adjacency, p)
    {
      var t := 1;
      while t < |p|
        invariant forall u :: 0 < u < t && u < |p| ==> LinkedHops(adjacency, p[u - 1], p[u])
      {
        if !LinkedHops(adjacency, p[t - 1], p[t]) {
          return false;
        }
        t := t + 1;
      }
      ok := true;
    }

    // Add the ports: out towards the next switch, in from the previous one.
    method Cooked(path: seq<Switch>, firstPort: nat, finalPort: nat) returns (hops: seq<Hop>)
      requires IsWalk(adjacency, path) && Symmetric(adjacency)
      ensures Switches(hops) == path && Chained(adjacency, hops)
      ensures hops[0].inPort == firstPort && hops[|hops| - 1].outPort == finalPort
    {
      hops := [];
      var inPort := firstPort;
      var n := 0;
      while n < |path| - 1
        invariant 0 <= n <= |path| - 1 && |hops| == n
        invariant forall t :: 0 <= t < n ==> hops[t].sw == path[t]
        invariant forall t :: 0 < t < n ==> LinkedHops(adjacency, hops[t - 1], hops[t])
        invariant if n == 0 then inPort == firstPort
                  else hops[0].inPort == firstPort && LinkedHops(adjacency, hops[n - 1], Hop(path[n], inPort, 0))
      {
        var s1, s2 := path[n], path[n + 1];
        assert (s1, s2) in adjacency;
        var outPort := adjacency[(s1, s2)];
        hops := hops + [Hop(s1, inPort, outPort)];
        inPort := adjacency[(s2, s1)];
        n := n + 1;
      }
      hops := hops + [Hop(path[n], inPort, finalPort)];
      assert Switches(hops) == path;
    }

    // The list of hops from src to dst, or None when no path exists.
    method GetPath(src: Switch, dst: Switch, firstPort: nat, finalPort: nat) returns (r: Option<seq<Hop>>)
      requires Valid() && src in switches && dst in switches
      modifies this`pathMap
      ensures Valid()
      ensures PathAnswer(adjacency, src, dst, firstPort, finalPort, r)
    {
      var path: seq<Switch>;
      if src == dst {
        path := [src];
        SelfDistance(adjacency, src);
      } else {
        var raw := GetRawPath(src, dst);
        if raw.None? {
          return None;
        }
        path := [src] + raw.value + [dst];
        RawPathIsShortest(adjacency, pathMap, src, dst);
      }
      var hops := Cooked(path, firstPort, finalPort);
      var ok := CheckPath(hops);
      assert ok;
      r := Some(hops);
    }
  }
}
