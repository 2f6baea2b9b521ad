// install_path of l2_multi_slick: the pathlets of a chain are installed one after the other,
// in both directions.
module PathInstaller {
  import opened Options
  import opened Sequences
  import opened Graph
  import opened PathTable
  import opened L2Multi
  import opened Steering
  import opened SteeringExact

  // The rules of one pathlet, on top of those of the hops installed before.
  method InstallHops(rules: RuleTable, ghost before: seq<Hop>, p: seq<Hop>) returns (r: RuleTable)
    requires rules == Install(before)
    ensures r == Install(before + p)
  {
    r := rules;
    assert before + p[..0] == before;
    for n := 0 to |p|
      invariant r == Install(before + p[..n])
    {
      r := r[(p[n].sw, p[n].inPort) := p[n].outPort];
      InstallLast(before + p[..n], p[n]);
      assert before + p[..n] + [p[n]] == before + p[..n + 1];
    }
    assert p[..|p|] == p;
  }

  // Every machine is on a port without a link, and a port carries one link at most.
  ghost predicate Attached(adj: Adjacency, ms: seq<Loc>) {
    OneLinkPerPort(adj) && forall l :: l in ms ==> HostPort(adj, l)
  }

  ghost predicate PairConnected(adj: Adjacency, a: Loc, b: Loc) {
    a.sw == b.sw || Reachable(adj, a.sw, b.sw)
  }

  // What the rules installed for the hops of a chain do: they steer its packets exactly if no two
  // hops clash, unless the destination is itself an earlier place; then no clash is enough.
  ghost predicate Steers(adj: Adjacency, rules: RuleTable, ms: seq<Loc>, hops: seq<Hop>)
    requires |ms| > 0
  {
    && (EndsFresh(ms) ==> (Delivers(adj, rules, ms) <==> NoClash(hops)))
    && (MovesOn(ms) && NoClash(hops) ==> Delivers(adj, rules, ms))
  }

  /** install_path: the pathlets are found and their hops installed in both directions, the way
      back under the flipped match, until a pathlet is missing. If none is, traffic visits every
      machine in order, and the answers visit them in reverse, exactly if no two hops clash. */
  method InstallPath(net: Network, src: Loc, machines: seq<Loc>, dst: Loc)
    returns (ok: bool, forth: RuleTable, back: RuleTable, ghost found: seq<seq<Hop>>)
    requires net.Valid()
    requires forall l :: l in [src] + machines + [dst] ==> l.sw in net.switches
    modifies net`pathMap
    ensures net.Valid()
    ensures var ms, adj := [src] + machines + [dst], net.adjacency;
      && (ok <==> forall n :: 0 < n < |ms| ==> PairConnected(adj, ms[n - 1], ms[n]))
      && |found| < |ms| && (ok <==> |found| == |ms| - 1)
      && (!ok ==> !PairConnected(adj, ms[|found|], ms[|found| + 1]))
      && (forall n :: 0 <= n < |found| ==>
            PathAnswer(adj, ms[n].sw, ms[n + 1].sw, ms[n].port, ms[n + 1].port, Some(found[n])))
    ensures forth == Install(AllHops(found)) && back == Install(SwapPorts(AllHops(found)))
    ensures LastInForce(forth, AllHops(found)) && LastInForce(back, SwapPorts(AllHops(found)))
    ensures ok && Attached(net.adjacency, [src] + machines + [dst]) ==>
      var ms, hops := [src] + machines + [dst], AllHops(found);
      && Steers(net.adjacency, forth, ms, hops)
      && Steers(net.adjacency, back, Reversed(ms), SwapPorts(hops))
  {
    ghost var ms := [src] + machines + [dst];
    var pathlets := GetPathlets(net, src, machines, dst);
    ok, forth, back := InstallFound(pathlets);
    found := FoundFirst(pathlets);
    InstalledInForce(AllHops(found));
    InstalledInForce(SwapPorts(AllHops(found)));
    hide Steers, Attached, Reachable;
    if ok {
      InstalledDelivers(net.adjacency, ms, pathlets, found);
    } else {
      MissingPathlet(net.adjacency, ms, |found|);
    }
  }

  // The pathlets before the first missing one.
  function FoundFirst(pathlets: seq<Option<seq<Hop>>>): (r: seq<seq<Hop>>)
    ensures |r| <= |pathlets| && forall n :: 0 <= n < |r| ==> pathlets[n] == Some(r[n])
    ensures |r| < |pathlets| ==> pathlets[|r|].None?
  {
    if pathlets == [] || pathlets[0].None? then [] else [pathlets[0].value] + FoundFirst(pathlets[1..])
  }

  lemma {:induction false} FoundFirstAt(pathlets: seq<Option<seq<Hop>>>, found: seq<seq<Hop>>)
    requires |found| <= |pathlets| && forall n :: 0 <= n < |found| ==> pathlets[n] == Some(found[n])
    requires |found| < |pathlets| ==> pathlets[|found|].None?
    ensures FoundFirst(pathlets) == found
  {
    if found != [] {
      FoundFirstAt(pathlets[1..], found[1..]);
    }
  }

  // The loop over the pathlets.
  method InstallFound(pathlets: seq<Option<seq<Hop>>>) returns (ok: bool, forth: RuleTable, back: RuleTable)
    ensures var hops := AllHops(FoundFirst(pathlets)); forth == Install(hops) && back == Install(SwapPorts(hops))
    ensures ok <==> |FoundFirst(pathlets)| == |pathlets|
  {
    ok, forth, back := true, map[], map[];
    ghost var hops: seq<Hop>, found: seq<seq<Hop>> := [], [];
    for index := 0 to |pathlets|
      invariant |found| == index && hops == AllHops(found)
      invariant forall n :: 0 <= n < index ==> pathlets[n] == Some(found[n])
      invariant forth == Install(hops) && back == Install(SwapPorts(hops))
    {
      if pathlets[index].None? {
        FoundFirstAt(pathlets, found);
        return false, forth, back;
      }
      var p := pathlets[index].value;
      forth := InstallHops(forth, hops, p);
      back := InstallHops(back, SwapPorts(hops), SwapPorts(p));
      assert SwapPorts(hops) + SwapPorts(p) == SwapPorts(hops + p);
      AllHopsAppend(found, p);
      hops, found := hops + p, found + [p];
    }
    FoundFirstAt(pathlets, found);
  }

  lemma MissingPathlet(adj: Adjacency, ms: seq<Loc>, n: nat)
    requires n + 1 < |ms| && PathAnswer(adj, ms[n].sw, ms[n + 1].sw, ms[n].port, ms[n + 1].port, None)
    ensures !PairConnected(adj, ms[n], ms[n + 1])
    ensures exists k :: 0 < k < |ms| && !PairConnected(adj, ms[k - 1], ms[k])
  {
    assert !PairConnected(adj, ms[n + 1 - 1], ms[n + 1]);
  }

  lemma AnswerConnects(adj: Adjacency, a: Loc, b: Loc, hops: seq<Hop>)
    requires PathAnswer(adj, a.sw, b.sw, a.port, b.port, Some(hops))
    ensures PairConnected(adj, a, b)
  {
    var w :| Joins(adj, w, a.sw, b.sw) && |w| == |hops|;
  }

  lemma InstalledDelivers(adj: Adjacency, ms: seq<Loc>, pathlets: seq<Option<seq<Hop>>>, found: seq<seq<Hop>>)
    requires |ms| == |pathlets| + 1 && |found| == |pathlets|
    requires forall n :: 0 <= n < |found| ==> pathlets[n] == Some(found[n])
    requires forall n :: 0 <= n < |pathlets| ==>
      PathAnswer(adj, ms[n].sw, ms[n + 1].sw, ms[n].port, ms[n + 1].port, pathlets[n])
    ensures forall n :: 0 < n < |ms| ==> PairConnected(adj, ms[n - 1], ms[n])
    ensures Attached(adj, ms) ==>
      && Steers(adj, Install(AllHops(found)), ms, AllHops(found))
      && Steers(adj, Install(SwapPorts(AllHops(found))), Reversed(ms), SwapPorts(AllHops(found)))
  {
    forall n | 0 < n < |ms| ensures PairConnected(adj, ms[n - 1], ms[n]) {
      AnswerConnects(adj, ms[n - 1], ms[n], found[n - 1]);
    }
    if Attached(adj, ms) {
      assert Found(adj, ms, found);
      SteersForth(adj, ms, found);
      SteersBack(adj, ms, found);
    }
  }

  lemma SteersForth(adj: Adjacency, ms: seq<Loc>, found: seq<seq<Hop>>)
    requires OneLinkPerPort(adj) && Found(adj, ms, found)
    ensures Steers(adj, Install(AllHops(found)), ms, AllHops(found))
  {
    if EndsFresh(ms) {
      SteeringDeliversIff(adj, ms, found);
    }
    if MovesOn(ms) && NoClash(AllHops(found)) {
      SteeringDelivers(adj, ms, found);
    }
  }

  lemma SteersBack(adj: Adjacency, ms: seq<Loc>, found: seq<seq<Hop>>)
    requires OneLinkPerPort(adj) && Found(adj, ms, found)
    ensures Steers(adj, Install(SwapPorts(AllHops(found))), Reversed(ms), SwapPorts(AllHops(found)))
  {
    if EndsFresh(Reversed(ms)) {
      ReverseSteeringDeliversIff(adj, ms, found);
    }
    if MovesOn(Reversed(ms)) && NoClash(SwapPorts(AllHops(found))) {
      assert MovesOn(ms) by {
        forall n | 0 <= n < |ms| - 1 ensures ms[n] != ms[n + 1] {
          var k := |ms| - 2 - n;
          assert Reversed(ms)[k] == ms[n + 1] && Reversed(ms)[k + 1] == ms[n];
        }
      }
      ReverseSteeringDelivers(adj, ms, found);
    }
  }
}
