// When steering works: the exact conditions under which a chain's packets visit every machine
// in order, on the way out and on the way back.
module SteeringExact {
  import opened Options
  import opened Sequences
  import opened Graph
  import opened PathTable
  import opened L2Multi
  import opened Steering

  // --- where the last rule wins ---

  lemma {:induction false} InstallConcat(a: seq<Hop>, b: seq<Hop>)
    ensures Install(a + b) == Install(a) + Install(b)
  {
    if b == [] {
      assert a + b == a;
    } else {
      var n := |b| - 1;
      InstallConcat(a, b[..n]);
      assert a + b == (a + b[..n]) + [b[n]];
      InstallLast(a + b[..n], b[n]);
    }
  }

  // The rule in force at a key is that of a hop with that key.
  lemma {:induction false} HopWithKey(hops: seq<Hop>, key: (Switch, nat)) returns (t: nat)
    requires key in Install(hops)
    ensures t < |hops| && (hops[t].sw, hops[t].inPort) == key && Install(hops)[key] == hops[t].outPort
  {
    var n := |hops| - 1;
    if (hops[n].sw, hops[n].inPort) == key {
      t := n;
    } else {
      t := HopWithKey(hops[..n], key);
    }
  }

  lemma {:induction false} PathletWithKey(qs: seq<seq<Hop>>, key: (Switch, nat)) returns (i: nat, t: nat)
    requires key in Install(AllHops(qs))
    ensures i < |qs| && t < |qs[i]| && (qs[i][t].sw, qs[i][t].inPort) == key
    ensures Install(AllHops(qs))[key] == qs[i][t].outPort
  {
    InstallConcat(qs[0], AllHops(qs[1..]));
    if key in Install(AllHops(qs[1..])) {
      i, t := PathletWithKey(qs[1..], key);
      i := i + 1;
    } else {
      i := 0;
      t := HopWithKey(qs[0], key);
    }
  }

  ghost predicate RuleFrom(rules: RuleTable, qs: seq<seq<Hop>>, i: nat, t: nat, j: nat, u: nat)
    requires i < |qs| && t < |qs[i]|
  {
    && j < |qs| && u < |qs[j]|
    && (qs[j][u].sw, qs[j][u].inPort) == (qs[i][t].sw, qs[i][t].inPort)
    && (qs[j][u].sw, qs[j][u].inPort) in rules && rules[(qs[j][u].sw, qs[j][u].inPort)] == qs[j][u].outPort
  }

  ghost predicate Overruled(rules: RuleTable, qs: seq<seq<Hop>>, i: nat, t: nat)
    requires i < |qs| && t < |qs[i]|
  {
    exists j: nat, u: nat :: i < j && RuleFrom(rules, qs, i, t, j, u)
  }

  // At every hop's key the rule is its own or that of a later pathlet.
  ghost predicate LastWins(rules: RuleTable, qs: seq<seq<Hop>>) {
    forall i, t {:trigger qs[i][t]} :: 0 <= i < |qs| && 0 <= t < |qs[i]| ==>
      RuleFrom(rules, qs, i, t, i, t) || Overruled(rules, qs, i, t)
  }

  lemma {:induction false} LaterWins(qs: seq<seq<Hop>>, i: nat, t: nat)
    requires i < |qs| && t < |qs[i]| && forall q :: q in qs ==> NoClash(q)
    ensures RuleFrom(Install(AllHops(qs)), qs, i, t, i, t) || Overruled(Install(AllHops(qs)), qs, i, t)
  {
    var rest, key := qs[1..], (qs[i][t].sw, qs[i][t].inPort);
    var rules := Install(AllHops(qs));
    InstallConcat(qs[0], AllHops(rest));
    if i > 0 {
      LaterWins(rest, i - 1, t);
      var later := Install(AllHops(rest));
      if !RuleFrom(later, rest, i - 1, t, i - 1, t) {
        var j: nat, u: nat :| i - 1 < j && RuleFrom(later, rest, i - 1, t, j, u);
        assert RuleFrom(rules, qs, i, t, j + 1, u);
      }
    } else if key in Install(AllHops(rest)) {
      var j, u := PathletWithKey(rest, key);
      assert RuleFrom(rules, qs, i, t, j + 1, u);
    } else {
      InForceIffNoClash(qs[0]);
      assert qs[0][t] in qs[0];
    }
  }

  // Pathlets that each deliver at their own place, under rules of which the last installed wins.
  ghost predicate Routed(adj: Adjacency, rules: RuleTable, qs: seq<seq<Hop>>, from: seq<Loc>, to: seq<Loc>) {
    && OneLinkPerPort(adj) && |qs| == |from| == |to| && LastWins(rules, qs)
    && (forall l :: l in to ==> HostPort(adj, l))
    && forall i :: 0 <= i < |qs| ==> Carries(adj, qs[i], from[i], to[i])
  }

  // What the rule of hop t does: on to the next hop, or out at the pathlet's end.
  lemma ForwardHop(adj: Adjacency, rules: RuleTable, hops: seq<Hop>, a: Loc, b: Loc, t: nat)
    requires OneLinkPerPort(adj) && HostPort(adj, b) && Carries(adj, hops, a, b) && t < |hops|
    requires (hops[t].sw, hops[t].inPort) in rules && rules[(hops[t].sw, hops[t].inPort)] == hops[t].outPort
    ensures Forward(adj, rules, hops[t].sw, hops[t].inPort)
         == if t + 1 < |hops| then Arrives(hops[t + 1].sw, hops[t + 1].inPort) else Delivered(b)
  {
    if t < |hops| - 1 {
      assert LinkedHops(adj, hops[t], hops[t + 1]);
      assert LeadsTo(adj, hops[t].sw, hops[t].outPort, hops[t + 1].sw);
    }
  }

  // From a hop of pathlet i, the first place a packet is delivered at belongs to pathlet i or a later one.
  lemma {:induction false} NeverEarlier(adj: Adjacency, rules: RuleTable, qs: seq<seq<Hop>>, from: seq<Loc>,
                                        to: seq<Loc>, i: nat, t: nat, n: nat) returns (k: nat)
    requires Routed(adj, rules, qs, from, to) && i < |qs| && t < |qs[i]|
    requires Journey(adj, rules, qs[i][t].sw, qs[i][t].inPort, n) != []
    ensures i <= k < |to| && Journey(adj, rules, qs[i][t].sw, qs[i][t].inPort, n)[0] == to[k]
    decreases n
  {
    var j: nat, u: nat := i, t;
    if !RuleFrom(rules, qs, i, t, i, t) {
      assert Overruled(rules, qs, i, t);
      j, u :| i < j && RuleFrom(rules, qs, i, t, j, u);
    }
    ForwardHop(adj, rules, qs[j], from[j], to[j], u);
    if u + 1 < |qs[j]| {
      k := NeverEarlier(adj, rules, qs, from, to, j, u + 1, n - 1);
    } else {
      k := j;
    }
  }

  /** A packet on hop t of pathlet i that is next delivered at the pathlet's own end, which no
      other pathlet ends at, has found the rule of every hop on the way in force. */
  lemma {:induction false} OwnRules(adj: Adjacency, rules: RuleTable, qs: seq<seq<Hop>>, from: seq<Loc>, to: seq<Loc>,
                                    i: nat, t: nat, n: nat) returns (m: nat)
    requires Routed(adj, rules, qs, from, to) && NoRepeat(to) && i < |qs| && t < |qs[i]|
    requires Journey(adj, rules, qs[i][t].sw, qs[i][t].inPort, n) != []
    requires Journey(adj, rules, qs[i][t].sw, qs[i][t].inPort, n)[0] == to[i]
    ensures forall u :: t <= u < |qs[i]| ==> RuleFrom(rules, qs, i, u, i, u)
    ensures Journey(adj, rules, qs[i][t].sw, qs[i][t].inPort, n)
         == [to[i]] + Journey(adj, rules, to[i].sw, to[i].port, m)
    decreases n
  {
    forall k | i < k < |to| ensures to[k] != to[i] {
    }
    if !RuleFrom(rules, qs, i, t, i, t) {
      assert Overruled(rules, qs, i, t);
      var j: nat, u: nat :| i < j && RuleFrom(rules, qs, i, t, j, u);
      var k := NeverEarlier(adj, rules, qs, from, to, j, u, n);
      assert false;
    }
    ForwardHop(adj, rules, qs[i], from[i], to[i], t);
    if t + 1 < |qs[i]| {
      m := OwnRules(adj, rules, qs, from, to, i, t + 1, n - 1);
    } else {
      m := n - 1;
    }
  }

  lemma OwnRulesAgree(rules: RuleTable, qs: seq<seq<Hop>>, i: nat)
    requires i < |qs| && forall u :: 0 <= u < |qs[i]| ==> RuleFrom(rules, qs, i, u, i, u)
    ensures Agrees(rules, qs[i])
  {
    forall h | h in qs[i] ensures (h.sw, h.inPort) in rules && rules[(h.sw, h.inPort)] == h.outPort {
      var u :| 0 <= u < |qs[i]| && qs[i][u] == h;
      assert RuleFrom(rules, qs, i, u, i, u);
    }
  }

  lemma StartsAt(adj: Adjacency, rules: RuleTable, qs: seq<seq<Hop>>, from: seq<Loc>, to: seq<Loc>, i: nat)
    requires Routed(adj, rules, qs, from, to) && i < |qs|
    ensures |from| == |to| == |qs| && |qs[i]| > 0 && (qs[i][0].sw, qs[i][0].inPort) == (from[i].sw, from[i].port)
  {
  }

  // The next delivery after pathlet i's own one starts at the pathlet's end.
  lemma OwnPathlet(adj: Adjacency, rules: RuleTable, qs: seq<seq<Hop>>, from: seq<Loc>, to: seq<Loc>, i: nat, n: nat,
                   rest: seq<Loc>) returns (m: nat)
    requires Routed(adj, rules, qs, from, to) && NoRepeat(to) && i < |qs|
    requires Journey(adj, rules, from[i].sw, from[i].port, n) == [to[i]] + rest
    ensures Agrees(rules, qs[i]) && Journey(adj, rules, to[i].sw, to[i].port, m) == rest
  {
    hide Routed, Journey, RuleFrom, Agrees;
    StartsAt(adj, rules, qs, from, to, i);
    m := OwnRules(adj, rules, qs, from, to, i, 0, n);
    OwnRulesAgree(rules, qs, i);
    var next := Journey(adj, rules, to[i].sw, to[i].port, m);
    assert ([to[i]] + rest)[1..] == rest && ([to[i]] + next)[1..] == next;
  }

  lemma {:induction false} ForthRules(adj: Adjacency, rules: RuleTable, qs: seq<seq<Hop>>, ms: seq<Loc>, i: nat, n: nat)
    requires |ms| == |qs| + 1 && i < |qs|
    requires Routed(adj, rules, qs, ms[..|qs|], ms[1..]) && NoRepeat(ms[1..])
    requires Journey(adj, rules, ms[i].sw, ms[i].port, n) == ms[i + 1..]
    ensures forall j :: i <= j < |qs| ==> Agrees(rules, qs[j])
    decreases |qs| - i
  {
    hide Routed, Journey, Agrees, NoRepeat;
    assert ms[i + 1..] == [ms[i + 1]] + ms[i + 2..];
    var m := OwnPathlet(adj, rules, qs, ms[..|qs|], ms[1..], i, n, ms[i + 2..]);
    if i + 1 < |qs| {
      ForthRules(adj, rules, qs, ms, i + 1, m);
    }
  }

  lemma ReversedStep(ms: seq<Loc>, i: nat)
    requires i < |ms|
    ensures Reversed(ms[..i + 1]) == [ms[i]] + Reversed(ms[..i])
  {
  }

  lemma {:induction false} BackRules(adj: Adjacency, rules: RuleTable, qs: seq<seq<Hop>>, ms: seq<Loc>, i: nat, n: nat)
    requires |ms| == |qs| + 1 && i < |qs|
    requires Routed(adj, rules, qs, ms[1..], ms[..|qs|]) && NoRepeat(ms[..|qs|])
    requires Journey(adj, rules, ms[i + 1].sw, ms[i + 1].port, n) == Reversed(ms[..i + 1])
    ensures forall j :: 0 <= j <= i ==> Agrees(rules, qs[j])
  {
    hide Routed, Journey, Agrees, NoRepeat, Reversed;
    ReversedStep(ms, i);
    var m := OwnPathlet(adj, rules, qs, ms[1..], ms[..|qs|], i, n, Reversed(ms[..i]));
    if i > 0 {
      BackRules(adj, rules, qs, ms, i - 1, m);
    }
  }

  lemma {:induction false} AgreesTogether(rules: RuleTable, qs: seq<seq<Hop>>)
    requires forall i :: 0 <= i < |qs| ==> Agrees(rules, qs[i])
    ensures Agrees(rules, AllHops(qs))
  {
    if qs != [] {
      AgreesTogether(rules, qs[1..]);
    }
  }

  lemma FoundNoClash(adj: Adjacency, ms: seq<Loc>, pathlets: seq<seq<Hop>>)
    requires Found(adj, ms, pathlets)
    ensures forall q :: q in pathlets ==> NoClash(q) && NoClash(SwapPorts(q))
  {
    forall q | q in pathlets ensures NoClash(q) && NoClash(SwapPorts(q)) {
      var n :| 0 <= n < |pathlets| && pathlets[n] == q;
      assert PathAnswer(adj, ms[n].sw, ms[n + 1].sw, ms[n].port, ms[n + 1].port, Some(pathlets[n]));
      assert Switches(SwapPorts(q)) == Switches(q);
      PathletKeysDistinct(q);
      PathletKeysDistinct(SwapPorts(q));
    }
  }

  // A delivered chain without repeated destinations has all its rules in force.
  lemma DeliveredNoClash(adj: Adjacency, ms: seq<Loc>, pathlets: seq<seq<Hop>>)
    requires OneLinkPerPort(adj) && Found(adj, ms, pathlets) && MovesOn(ms) && NoRepeat(ms[1..])
    requires Delivers(adj, Install(AllHops(pathlets)), ms)
    ensures NoClash(AllHops(pathlets))
  {
    var rules, from, to := Install(AllHops(pathlets)), ms[..|pathlets|], ms[1..];
    var n: nat :| Journey(adj, rules, ms[0].sw, ms[0].port, n) == ms[1..];
    FoundIsChain(adj, ms, pathlets);
    FoundNoClash(adj, ms, pathlets);
    forall i, t | 0 <= i < |pathlets| && 0 <= t < |pathlets[i]|
      ensures RuleFrom(rules, pathlets, i, t, i, t) || Overruled(rules, pathlets, i, t)
    {
      LaterWins(pathlets, i, t);
    }
    assert Routed(adj, rules, pathlets, from, to);
    if pathlets != [] {
      ForthRules(adj, rules, pathlets, ms, 0, n);
    }
    AgreesTogether(rules, pathlets);
    InForceIffNoClash(AllHops(pathlets));
  }

  // --- the way back ---

  // The pathlets walked backwards, each in its place.
  function TurnedPathlets(pathlets: seq<seq<Hop>>): (r: seq<seq<Hop>>)
    ensures |r| == |pathlets| && forall i :: 0 <= i < |r| ==> r[i] == Reversed(SwapPorts(pathlets[i]))
  {
    seq(|pathlets|, i requires 0 <= i < |pathlets| => Reversed(SwapPorts(pathlets[i])))
  }

  lemma InstallReversed(hops: seq<Hop>)
    requires NoClash(hops)
    ensures Install(Reversed(hops)) == Install(hops) && NoClash(Reversed(hops))
  {
    var r := Reversed(hops);
    InForceIffNoClash(hops);
    InForceIffNoClash(r);
    forall key | key in Install(r) ensures key in Install(hops) && Install(hops)[key] == Install(r)[key] {
      var t := HopWithKey(r, key);
      assert hops[|hops| - 1 - t] in hops;
    }
    forall key | key in Install(hops) ensures key in Install(r) {
      var t := HopWithKey(hops, key);
      assert r[|hops| - 1 - t] in r;
    }
  }

  lemma {:induction false} TurnedRules(pathlets: seq<seq<Hop>>)
    requires forall q :: q in pathlets ==> NoClash(SwapPorts(q))
    ensures Install(AllHops(TurnedPathlets(pathlets))) == Install(SwapPorts(AllHops(pathlets)))
  {
    if pathlets != [] {
      var p, rest := pathlets[0], pathlets[1..];
      TurnedRules(rest);
      assert TurnedPathlets(pathlets) == [Reversed(SwapPorts(p))] + TurnedPathlets(rest);
      assert SwapPorts(AllHops(pathlets)) == SwapPorts(p) + SwapPorts(AllHops(rest));
      InstallConcat(Reversed(SwapPorts(p)), AllHops(TurnedPathlets(rest)));
      InstallConcat(SwapPorts(p), SwapPorts(AllHops(rest)));
      InstallReversed(SwapPorts(p));
    }
  }

  lemma TurnedRouted(adj: Adjacency, ms: seq<Loc>, pathlets: seq<seq<Hop>>)
    requires OneLinkPerPort(adj) && Found(adj, ms, pathlets) && MovesOn(ms)
    ensures |ms| == |pathlets| + 1
    ensures Routed(adj, Install(SwapPorts(AllHops(pathlets))), TurnedPathlets(pathlets), ms[1..], ms[..|pathlets|])
  {
    var rules, turned := Install(SwapPorts(AllHops(pathlets))), TurnedPathlets(pathlets);
    FoundIsChain(adj, ms, pathlets);
    FoundNoClash(adj, ms, pathlets);
    TurnedRules(pathlets);
    forall q | q in turned ensures NoClash(q) {
      var i :| 0 <= i < |turned| && turned[i] == q;
      InstallReversed(SwapPorts(pathlets[i]));
    }
    forall i, t | 0 <= i < |turned| && 0 <= t < |turned[i]|
      ensures RuleFrom(rules, turned, i, t, i, t) || Overruled(rules, turned, i, t)
    {
      LaterWins(turned, i, t);
    }
    forall i | 0 <= i < |turned| ensures Carries(adj, turned[i], ms[1..][i], ms[..|pathlets|][i]) {
      CarriesBack(adj, pathlets[i], ms[i], ms[i + 1]);
    }
  }

  lemma {:induction false} AgreesTurned(rules: RuleTable, pathlets: seq<seq<Hop>>)
    requires forall i :: 0 <= i < |pathlets| ==> Agrees(rules, Reversed(SwapPorts(pathlets[i])))
    ensures Agrees(rules, SwapPorts(AllHops(pathlets)))
  {
    if pathlets != [] {
      var p := pathlets[0];
      AgreesTurned(rules, pathlets[1..]);
      assert SwapPorts(AllHops(pathlets)) == SwapPorts(p) + SwapPorts(AllHops(pathlets[1..]));
      forall h | h in SwapPorts(p) ensures h in Reversed(SwapPorts(p)) {
        var t :| 0 <= t < |p| && SwapPorts(p)[t] == h;
        assert Reversed(SwapPorts(p))[|p| - 1 - t] == h;
      }
    }
  }

  lemma TurnedInForce(adj: Adjacency, ms: seq<Loc>, pathlets: seq<seq<Hop>>, n: nat)
    requires |ms| == |pathlets| + 1
    requires OneLinkPerPort(adj) && Found(adj, ms, pathlets) && MovesOn(ms) && NoRepeat(ms[..|ms| - 1])
    requires var rules, dst := Install(SwapPorts(AllHops(pathlets))), ms[|ms| - 1];
      Journey(adj, rules, dst.sw, dst.port, n) == Reversed(ms)[1..]
    ensures Agrees(Install(SwapPorts(AllHops(pathlets))), SwapPorts(AllHops(pathlets)))
  {
    hide Found, Install, Agrees, Routed, Journey;
    var rules, turned := Install(SwapPorts(AllHops(pathlets))), TurnedPathlets(pathlets);
    TurnedRouted(adj, ms, pathlets);
    if pathlets != [] {
      assert Reversed(ms[..|pathlets|]) == Reversed(ms)[1..];
      BackRules(adj, rules, turned, ms, |pathlets| - 1, n);
    }
    AgreesTurned(rules, pathlets);
  }

  lemma DeliveredBackNoClash(adj: Adjacency, ms: seq<Loc>, pathlets: seq<seq<Hop>>)
    requires OneLinkPerPort(adj) && Found(adj, ms, pathlets) && MovesOn(ms) && NoRepeat(ms[..|ms| - 1])
    requires Delivers(adj, Install(SwapPorts(AllHops(pathlets))), Reversed(ms))
    ensures NoClash(SwapPorts(AllHops(pathlets)))
  {
    var rules, dst := Install(SwapPorts(AllHops(pathlets))), ms[|ms| - 1];
    assert Reversed(ms)[0] == dst;
    var n: nat :| Journey(adj, rules, dst.sw, dst.port, n) == Reversed(ms)[1..];
    TurnedInForce(adj, ms, pathlets, n);
    InForceIffNoClash(SwapPorts(AllHops(pathlets)));
  }

  // --- what any rules at all can deliver ---

  // After m steps the packet is delivered for the first time, at b.
  ghost predicate FirstAt(adj: Adjacency, rules: RuleTable, s: Switch, p: nat, m: nat, b: Loc) {
    forall k {:trigger Journey(adj, rules, b.sw, b.port, k)} ::
      Journey(adj, rules, s, p, m + k) == [b] + Journey(adj, rules, b.sw, b.port, k)
  }

  lemma {:induction false} FirstDelivery(adj: Adjacency, rules: RuleTable, s: Switch, p: nat, n: nat) returns (m: nat)
    requires Journey(adj, rules, s, p, n) != []
    ensures m <= n && FirstAt(adj, rules, s, p, m, Journey(adj, rules, s, p, n)[0])
    decreases n
  {
    match Forward(adj, rules, s, p)
    case Arrives(b, q) =>
      m := FirstDelivery(adj, rules, b, q, n - 1);
      var l := Journey(adj, rules, b, q, n - 1)[0];
      forall k: nat ensures Journey(adj, rules, s, p, m + 1 + k) == [l] + Journey(adj, rules, l.sw, l.port, k) {
        assert Journey(adj, rules, b, q, m + k) == [l] + Journey(adj, rules, l.sw, l.port, k);
      }
      m := m + 1;
    case Delivered(l) =>
      m := 1;
  }

  lemma FirstThen(adj: Adjacency, rules: RuleTable, a: Loc, m: nat, b: Loc, k: nat)
    requires FirstAt(adj, rules, a.sw, a.port, m, b)
    ensures Journey(adj, rules, a.sw, a.port, m + k) == [b] + Journey(adj, rules, b.sw, b.port, k)
  {
    var rest := Journey(adj, rules, b.sw, b.port, k);
  }

  lemma SamePlace(adj: Adjacency, rules: RuleTable, a: Loc, n: nat, n': nat)
    requires Journey(adj, rules, a.sw, a.port, n) != [] && Journey(adj, rules, a.sw, a.port, n') != []
    ensures Journey(adj, rules, a.sw, a.port, n)[0] == Journey(adj, rules, a.sw, a.port, n')[0]
  {
    var b, b' := Journey(adj, rules, a.sw, a.port, n)[0], Journey(adj, rules, a.sw, a.port, n')[0];
    var m := FirstDelivery(adj, rules, a.sw, a.port, n);
    var m' := FirstDelivery(adj, rules, a.sw, a.port, n');
    FirstThen(adj, rules, a, m, b, m');
    FirstThen(adj, rules, a, m', b', m);
    var whole := Journey(adj, rules, a.sw, a.port, m + m');
    assert m + m' == m' + m && whole[0] == b && whole[0] == b';
  }

  lemma DeliversTail(adj: Adjacency, rules: RuleTable, ms: seq<Loc>) returns (m: nat)
    requires |ms| > 1 && Delivers(adj, rules, ms)
    ensures Delivers(adj, rules, ms[1..]) && FirstAt(adj, rules, ms[0].sw, ms[0].port, m, ms[1])
  {
    var n: nat :| Journey(adj, rules, ms[0].sw, ms[0].port, n) == ms[1..];
    m := FirstDelivery(adj, rules, ms[0].sw, ms[0].port, n);
    FirstThen(adj, rules, ms[0], m, ms[1], n - m);
    var rest := Journey(adj, rules, ms[1].sw, ms[1].port, n - m);
    assert ([ms[1]] + rest)[1..] == rest && ms[1..][1..] == ms[2..];
  }

  lemma {:induction false} DeliversFrom(adj: Adjacency, rules: RuleTable, ms: seq<Loc>, i: nat)
    requires i < |ms| && Delivers(adj, rules, ms)
    ensures Delivers(adj, rules, ms[i..])
  {
    if i == 0 {
      assert ms[0..] == ms;
    } else {
      DeliversFrom(adj, rules, ms, i - 1);
      var m := DeliversTail(adj, rules, ms[i - 1..]);
      assert ms[i - 1..][1..] == ms[i..];
    }
  }

  lemma PairDelivered(adj: Adjacency, rules: RuleTable, a: Loc, b: Loc, m: nat)
    requires FirstAt(adj, rules, a.sw, a.port, m, b)
    ensures Delivers(adj, rules, [a, b])
  {
    var ms := [a, b];
    FirstThen(adj, rules, a, m, b, 0);
    assert Journey(adj, rules, ms[0].sw, ms[0].port, m) == ms[1..];
  }

  /** Whatever the rules, a chain is delivered exactly if each of its legs is. */
  lemma {:induction false} DeliversIffEach(adj: Adjacency, rules: RuleTable, ms: seq<Loc>)
    requires |ms| > 0
    ensures Delivers(adj, rules, ms) <==> forall n :: 0 <= n < |ms| - 1 ==> Delivers(adj, rules, [ms[n], ms[n + 1]])
  {
    if Delivers(adj, rules, ms) {
      forall n | 0 <= n < |ms| - 1 ensures Delivers(adj, rules, [ms[n], ms[n + 1]]) {
        DeliversFrom(adj, rules, ms, n);
        var m := DeliversTail(adj, rules, ms[n..]);
        PairDelivered(adj, rules, ms[n], ms[n + 1], m);
      }
    }
    if forall n :: 0 <= n < |ms| - 1 ==> Delivers(adj, rules, [ms[n], ms[n + 1]]) {
      LegsDeliver(adj, rules, ms);
    }
  }

  lemma {:induction false} LegsDeliver(adj: Adjacency, rules: RuleTable, ms: seq<Loc>)
    requires |ms| > 0 && forall n :: 0 <= n < |ms| - 1 ==> Delivers(adj, rules, [ms[n], ms[n + 1]])
    ensures Delivers(adj, rules, ms)
  {
    if |ms| == 1 {
      assert Journey(adj, rules, ms[0].sw, ms[0].port, 0) == ms[1..];
    } else {
      forall n | 0 <= n < |ms[1..]| - 1 ensures Delivers(adj, rules, [ms[1..][n], ms[1..][n + 1]]) {
        assert Delivers(adj, rules, [ms[n + 1], ms[n + 1 + 1]]);
      }
      LegsDeliver(adj, rules, ms[1..]);
      var k: nat :| Journey(adj, rules, ms[1].sw, ms[1].port, k) == ms[1..][1..];
      assert Delivers(adj, rules, [ms[0], ms[0 + 1]]);
      var m := DeliversTail(adj, rules, [ms[0], ms[1]]);
      FirstThen(adj, rules, ms[0], m, ms[1], k);
      assert Journey(adj, rules, ms[0].sw, ms[0].port, m + k) == ms[1..];
    }
  }

  lemma EqualSuccessors(adj: Adjacency, rules: RuleTable, ms: seq<Loc>, i: nat, j: nat)
    requires i < |ms| - 1 && j < |ms| - 1 && ms[i] == ms[j] && Delivers(adj, rules, ms)
    ensures ms[i + 1] == ms[j + 1]
  {
    DeliversFrom(adj, rules, ms, i);
    DeliversFrom(adj, rules, ms, j);
    var n: nat :| Journey(adj, rules, ms[i].sw, ms[i].port, n) == ms[i..][1..];
    var n': nat :| Journey(adj, rules, ms[j].sw, ms[j].port, n') == ms[j..][1..];
    SamePlace(adj, rules, ms[i], n, n');
  }

  /** A chain that visits one place twice and goes on to different places is never delivered,
      whatever the rules. */
  lemma NeverDelivered(adj: Adjacency, rules: RuleTable, ms: seq<Loc>, i: nat, j: nat)
    requires i < |ms| - 1 && j < |ms| - 1 && ms[i] == ms[j] && ms[i + 1] != ms[j + 1]
    ensures !Delivers(adj, rules, ms)
  {
    if Delivers(adj, rules, ms) {
      EqualSuccessors(adj, rules, ms, i, j);
    }
  }

  // In a delivered chain a repeated place goes on as before, until the destination repeats.
  lemma {:induction false} RepeatReachesEnd(adj: Adjacency, rules: RuleTable, ms: seq<Loc>, i: nat, j: nat)
    requires i < j < |ms| && ms[i] == ms[j] && Delivers(adj, rules, ms)
    ensures ms[i + (|ms| - 1 - j)] == ms[|ms| - 1]
    decreases |ms| - j
  {
    if j < |ms| - 1 {
      EqualSuccessors(adj, rules, ms, i, j);
      RepeatReachesEnd(adj, rules, ms, i + 1, j + 1);
    }
  }

  // The destination is no machine's place, nor the source if there is no machine.
  ghost predicate EndsFresh(ms: seq<Loc>) {
    forall i :: 0 <= i < |ms| - 1 && (0 < i || |ms| == 2) ==> ms[i] != ms[|ms| - 1]
  }

  /** A chain that uses a machine, or its source, twice is never delivered, whatever the rules, unless
      its destination is a machine's place as well. */
  lemma TwiceNeverDelivered(adj: Adjacency, rules: RuleTable, ms: seq<Loc>, i: nat, j: nat)
    requires EndsFresh(ms) && i < j < |ms| - 1 && ms[i] == ms[j]
    ensures !Delivers(adj, rules, ms)
  {
    if Delivers(adj, rules, ms) {
      RepeatReachesEnd(adj, rules, ms, i, j);
    }
  }

  lemma DeliveredFresh(adj: Adjacency, rules: RuleTable, ms: seq<Loc>)
    requires |ms| > 0 && Delivers(adj, rules, ms) && EndsFresh(ms)
    ensures NoRepeat(ms[1..]) && MovesOn(ms)
  {
    forall i, j | 0 < i < j < |ms| ensures ms[i] != ms[j] {
      if ms[i] == ms[j] {
        RepeatReachesEnd(adj, rules, ms, i, j);
      }
    }
    forall n | 0 <= n < |ms| - 1 ensures ms[n] != ms[n + 1] {
      if ms[n] == ms[n + 1] {
        RepeatReachesEnd(adj, rules, ms, n, n + 1);
      }
    }
  }

  // --- a leg that stays where it is ---

  lemma StayHop(adj: Adjacency, a: Loc, hops: seq<Hop>)
    requires PathAnswer(adj, a.sw, a.sw, a.port, a.port, Some(hops))
    ensures hops == [Hop(a.sw, a.port, a.port)]
  {
    assert Joins(adj, [a.sw], a.sw, a.sw);
  }

  // After a stay the chain moves on sooner or later.
  lemma StayEnds(ms: seq<Loc>, n: nat) returns (m: nat)
    requires EndsFresh(ms) && n + 1 < |ms| && ms[n] == ms[n + 1]
    ensures n < m < |ms| - 1 && ms[m] == ms[n] && ms[m] != ms[m + 1]
  {
    m := n + 1;
    assert m < |ms| - 1;
    while ms[m] == ms[m + 1]
      invariant n < m < |ms| - 1 && ms[m] == ms[n]
      decreases |ms| - m
    {
      m := m + 1;
    }
  }

  lemma HopsAgree(hops: seq<Hop>, g: Hop, h: Hop)
    requires NoClash(hops) && g in hops && h in hops && g.sw == h.sw && g.inPort == h.inPort
    ensures g.outPort == h.outPort
  {
    InForceIffNoClash(hops);
  }

  lemma NoClashMovesOn(adj: Adjacency, ms: seq<Loc>, pathlets: seq<seq<Hop>>)
    requires OneLinkPerPort(adj) && Found(adj, ms, pathlets) && EndsFresh(ms) && NoClash(AllHops(pathlets))
    ensures MovesOn(ms)
  {
    forall n | 0 <= n < |ms| - 1 ensures ms[n] != ms[n + 1] {
      if ms[n] == ms[n + 1] {
        var m := StayEnds(ms, n);
        StayHop(adj, ms[n], pathlets[n]);
        AnswerCarries(adj, ms[m], ms[m + 1], pathlets[m]);
        HopOfPathlet(pathlets, n, pathlets[n][0]);
        HopOfPathlet(pathlets, m, pathlets[m][0]);
        HopsAgree(AllHops(pathlets), pathlets[n][0], pathlets[m][0]);
      }
    }
  }

  lemma SwappedHop(pathlets: seq<seq<Hop>>, n: nat, h: Hop)
    requires n < |pathlets| && h in pathlets[n]
    ensures Hop(h.sw, h.outPort, h.inPort) in SwapPorts(AllHops(pathlets))
  {
    HopOfPathlet(pathlets, n, h);
    var t :| 0 <= t < |AllHops(pathlets)| && AllHops(pathlets)[t] == h;
    assert SwapPorts(AllHops(pathlets))[t] == Hop(h.sw, h.outPort, h.inPort);
  }

  lemma SwappedMovesOn(adj: Adjacency, ms: seq<Loc>, pathlets: seq<seq<Hop>>)
    requires OneLinkPerPort(adj) && Found(adj, ms, pathlets) && EndsFresh(Reversed(ms))
    requires NoClash(SwapPorts(AllHops(pathlets)))
    ensures MovesOn(ms)
  {
    forall n | 0 <= n < |ms| - 1 ensures ms[n] != ms[n + 1] {
      if ms[n] == ms[n + 1] {
        var r := StayEnds(Reversed(ms), |ms| - 2 - n);
        var m := |ms| - 2 - r;
        var last := pathlets[m][|pathlets[m]| - 1];
        StayHop(adj, ms[n], pathlets[n]);
        AnswerCarries(adj, ms[m], ms[m + 1], pathlets[m]);
        SwappedHop(pathlets, n, pathlets[n][0]);
        SwappedHop(pathlets, m, last);
        HopsAgree(SwapPorts(AllHops(pathlets)), pathlets[n][0], Hop(last.sw, last.outPort, last.inPort));
      }
    }
  }

  // --- the exact conditions ---

  /** Steering works exactly when no two hops clash, for every chain whose destination is no
      machine's place (nor the source, if there is no machine): a packet then visits every machine
      in order, machines used twice included, and leaves at the destination. */
  lemma SteeringDeliversIff(adj: Adjacency, ms: seq<Loc>, pathlets: seq<seq<Hop>>)
    requires OneLinkPerPort(adj) && Found(adj, ms, pathlets) && EndsFresh(ms)
    ensures Delivers(adj, Install(AllHops(pathlets)), ms) <==> NoClash(AllHops(pathlets))
  {
    if NoClash(AllHops(pathlets)) {
      NoClashMovesOn(adj, ms, pathlets);
      SteeringDelivers(adj, ms, pathlets);
    }
    if Delivers(adj, Install(AllHops(pathlets)), ms) {
      DeliveredFresh(adj, Install(AllHops(pathlets)), ms);
      DeliveredNoClash(adj, ms, pathlets);
    }
  }

  /** The way back likewise, for every chain whose source is no machine's place. */
  lemma ReverseSteeringDeliversIff(adj: Adjacency, ms: seq<Loc>, pathlets: seq<seq<Hop>>)
    requires OneLinkPerPort(adj) && Found(adj, ms, pathlets) && EndsFresh(Reversed(ms))
    ensures Delivers(adj, Install(SwapPorts(AllHops(pathlets))), Reversed(ms))
        <==> NoClash(SwapPorts(AllHops(pathlets)))
  {
    var rules := Install(SwapPorts(AllHops(pathlets)));
    if NoClash(SwapPorts(AllHops(pathlets))) {
      SwappedMovesOn(adj, ms, pathlets);
      ReverseSteeringDelivers(adj, ms, pathlets);
    }
    if Delivers(adj, rules, Reversed(ms)) {
      DeliveredFresh(adj, rules, Reversed(ms));
      ReversedBack(ms);
      DeliveredBackNoClash(adj, ms, pathlets);
    }
  }

  lemma ReversedBack(ms: seq<Loc>)
    requires |ms| > 0 && NoRepeat(Reversed(ms)[1..]) && MovesOn(Reversed(ms))
    ensures NoRepeat(ms[..|ms| - 1]) && MovesOn(ms)
  {
    var r, last := Reversed(ms), |ms| - 1;
    forall i, j | 0 <= i < j < last ensures ms[i] != ms[j] {
      assert r[1..][last - 1 - j] == ms[j] && r[1..][last - 1 - i] == ms[i];
    }
    forall n | 0 <= n < last ensures ms[n] != ms[n + 1] {
      assert r[last - 1 - n] == ms[n + 1] && r[last - 1 - n + 1] == ms[n];
    }
  }
}
