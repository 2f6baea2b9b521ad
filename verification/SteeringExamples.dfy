// Two chains with clashing hops: one that skips its machines, and one, whose destination is a
// machine's place as well, that visits them all the same.
module SteeringExamples {
  import opened Options
  import opened Sequences
  import opened Graph
  import opened PathTable
  import opened L2Multi
  import opened Steering
  import opened SteeringExact

  // Two joined switches, two machines on each, and a chain that goes back and forth.
  function Pair(a: Switch, b: Switch): Adjacency {
    map[(a, b) := 1, (b, a) := 1]
  }

  function BackAndForth(a: Switch, b: Switch): seq<Loc> {
    [Loc(a, 10), Loc(b, 10), Loc(a, 11), Loc(b, 11)]
  }

  function ClashingPathlets(a: Switch, b: Switch): seq<seq<Hop>> {
    [[Hop(a, 10, 1), Hop(b, 1, 10)], [Hop(b, 10, 1), Hop(a, 1, 11)], [Hop(a, 11, 1), Hop(b, 1, 11)]]
  }

  lemma ClashIsFound(a: Switch, b: Switch)
    requires a != b
    ensures OneLinkPerPort(Pair(a, b)) && Found(Pair(a, b), BackAndForth(a, b), ClashingPathlets(a, b))
  {
    var adj, ps := Pair(a, b), ClashingPathlets(a, b);
    assert Joins(adj, [a, b], a, b) && Joins(adj, [b, a], b, a);
    assert IsDistance(adj, a, b, 1) && IsDistance(adj, b, a, 1);
    assert LinkedHops(adj, ps[0][0], ps[0][1]) && LinkedHops(adj, ps[1][0], ps[1][1]);
    assert LinkedHops(adj, ps[2][0], ps[2][1]);
  }

  lemma ClashRules(a: Switch, b: Switch)
    requires a != b
    ensures var rules := Install(AllHops(ClashingPathlets(a, b)));
      (a, 10) in rules && rules[(a, 10)] == 1 && (b, 1) in rules && rules[(b, 1)] == 11
  {
    var ps := ClashingPathlets(a, b);
    var p, q, r := ps[0], ps[1], ps[2];
    var hops := p + q + r;
    assert AllHops(ps) == hops by {
      assert ps[1..] == [q, r] && [q, r][1..] == [r] && [r][1..] == [];
      assert AllHops([r]) == r + AllHops([]);
      assert AllHops([q, r]) == q + AllHops([r]);
    }
    InstallLast([p[0]], p[1]);
    InstallLast(p, q[0]);
    InstallLast(p + [q[0]], q[1]);
    InstallLast(p + q, r[0]);
    InstallLast(p + q + [r[0]], r[1]);
    assert [p[0]] + [p[1]] == p && p + [q[0]] + [q[1]] == p + q && p + q + [r[0]] + [r[1]] == hops;
  }

  /** Without the no-clash condition steering fails: the third pathlet replaces the rule by
      which the first one reached its machine, so the packet skips both machines. */
  lemma ClashSkipsMachines(a: Switch, b: Switch)
    requires a != b
    ensures Found(Pair(a, b), BackAndForth(a, b), ClashingPathlets(a, b))
    ensures Journey(Pair(a, b), Install(AllHops(ClashingPathlets(a, b))), a, 10, 2) == [Loc(b, 11)]
  {
    ClashIsFound(a, b);
    ClashRules(a, b);
    var adj, rules := Pair(a, b), Install(AllHops(ClashingPathlets(a, b)));
    assert LeadsTo(adj, a, 1, b);
    assert Forward(adj, rules, a, 10) == Arrives(b, 1);
    assert Forward(adj, rules, b, 1) == Delivered(Loc(b, 11));
  }

  // A diamond of switches with one machine at either end, visited back and forth over both sides.
  function Diamond(a: Switch, x: Switch, y: Switch, b: Switch): Adjacency {
    map[(a, x) := 1, (x, a) := 1, (a, y) := 2, (y, a) := 1, (x, b) := 2, (b, x) := 1, (y, b) := 2, (b, y) := 2]
  }

  predicate Apart(a: Switch, x: Switch, y: Switch, b: Switch) {
    a != x && a != y && a != b && x != y && x != b && y != b
  }

  function ThereAndBack(a: Switch, b: Switch): seq<Loc> {
    [Loc(a, 10), Loc(b, 10), Loc(a, 10), Loc(b, 10)]
  }

  function BothSides(a: Switch, x: Switch, y: Switch, b: Switch): seq<seq<Hop>> {
    [[Hop(a, 10, 1), Hop(x, 1, 2), Hop(b, 1, 10)], [Hop(b, 10, 1), Hop(x, 2, 1), Hop(a, 1, 10)],
     [Hop(a, 10, 2), Hop(y, 1, 2), Hop(b, 2, 10)]]
  }

  lemma InstallThree(g: Hop, h: Hop, k: Hop)
    ensures Install([g, h, k])
         == map[(g.sw, g.inPort) := g.outPort][(h.sw, h.inPort) := h.outPort][(k.sw, k.inPort) := k.outPort]
  {
    InstallLast([], g);
    InstallLast([g], h);
    InstallLast([g, h], k);
    assert [] + [g] == [g] && [g] + [h] == [g, h] && [g, h] + [k] == [g, h, k];
  }

  lemma AcrossDiamond(a: Switch, x: Switch, y: Switch, b: Switch, c: Switch, d: Switch, via: Switch)
    requires Apart(a, x, y, b) && (c, d) in {(a, b), (b, a)} && via in {x, y}
    ensures IsDistance(Diamond(a, x, y, b), c, d, 2)
  {
    assert Joins(Diamond(a, x, y, b), [c, via, d], c, d);
  }

  lemma BothSidesChained(a: Switch, x: Switch, y: Switch, b: Switch, n: nat)
    requires Apart(a, x, y, b) && n < 3
    ensures Chained(Diamond(a, x, y, b), BothSides(a, x, y, b)[n]) && NoRepeat(Switches(BothSides(a, x, y, b)[n]))
  {
  }

  lemma BothSidesFound(a: Switch, x: Switch, y: Switch, b: Switch)
    requires Apart(a, x, y, b)
    ensures OneLinkPerPort(Diamond(a, x, y, b)) && Found(Diamond(a, x, y, b), ThereAndBack(a, b), BothSides(a, x, y, b))
  {
    hide Chained, IsDistance;
    AcrossDiamond(a, x, y, b, a, b, x);
    AcrossDiamond(a, x, y, b, b, a, x);
    BothSidesChained(a, x, y, b, 0);
    BothSidesChained(a, x, y, b, 1);
    BothSidesChained(a, x, y, b, 2);
  }

  lemma ThreePathlets(p: seq<Hop>, q: seq<Hop>, r: seq<Hop>)
    ensures Install(AllHops([p, q, r])) == Install(p) + Install(q) + Install(r)
  {
    AllHopsAppend([], p);
    AllHopsAppend([p], q);
    AllHopsAppend([p, q], r);
    assert [] + [p] == [p] && [p] + [q] == [p, q] && [p, q] + [r] == [p, q, r] && AllHops([]) + p == p;
    InstallConcat(p, q);
    InstallConcat(p + q, r);
  }

  ghost predicate HasRule(rules: RuleTable, s: Switch, inPort: nat, outPort: nat) {
    (s, inPort) in rules && rules[(s, inPort)] == outPort
  }

  lemma BothSidesRules(a: Switch, x: Switch, y: Switch, b: Switch)
    requires Apart(a, x, y, b)
    ensures var rules := Install(AllHops(BothSides(a, x, y, b)));
      && HasRule(rules, a, 10, 2) && HasRule(rules, y, 1, 2) && HasRule(rules, b, 2, 10)
      && HasRule(rules, b, 10, 1) && HasRule(rules, x, 2, 1) && HasRule(rules, a, 1, 10)
  {
    hide Install;
    ThreePathlets([Hop(a, 10, 1), Hop(x, 1, 2), Hop(b, 1, 10)], [Hop(b, 10, 1), Hop(x, 2, 1), Hop(a, 1, 10)],
                  [Hop(a, 10, 2), Hop(y, 1, 2), Hop(b, 2, 10)]);
    InstallThree(Hop(a, 10, 1), Hop(x, 1, 2), Hop(b, 1, 10));
    InstallThree(Hop(b, 10, 1), Hop(x, 2, 1), Hop(a, 1, 10));
    InstallThree(Hop(a, 10, 2), Hop(y, 1, 2), Hop(b, 2, 10));
  }

  lemma DiamondForwards(a: Switch, x: Switch, y: Switch, b: Switch, rules: RuleTable)
    requires Apart(a, x, y, b)
    requires HasRule(rules, a, 10, 2) && HasRule(rules, y, 1, 2) && HasRule(rules, b, 2, 10)
    requires HasRule(rules, b, 10, 1) && HasRule(rules, x, 2, 1) && HasRule(rules, a, 1, 10)
    ensures Journey(Diamond(a, x, y, b), rules, a, 10, 9) == ThereAndBack(a, b)[1..]
  {
    var adj := Diamond(a, x, y, b);
    assert LeadsTo(adj, a, 2, y) && LeadsTo(adj, y, 2, b) && LeadsTo(adj, b, 1, x) && LeadsTo(adj, x, 1, a);
    assert Forward(adj, rules, a, 10) == Arrives(y, 1);
    assert Forward(adj, rules, y, 1) == Arrives(b, 2);
    assert Forward(adj, rules, b, 2) == Delivered(Loc(b, 10));
    assert Forward(adj, rules, b, 10) == Arrives(x, 2);
    assert Forward(adj, rules, x, 2) == Arrives(a, 1);
    assert Forward(adj, rules, a, 1) == Delivered(Loc(a, 10));
  }

  /** Where the destination is a machine's place as well, clashing hops need not matter: the third
      pathlet takes over the first rule of the first one and leads to the same machine. */
  lemma RevisitStillDelivers(a: Switch, x: Switch, y: Switch, b: Switch)
    requires Apart(a, x, y, b)
    ensures Found(Diamond(a, x, y, b), ThereAndBack(a, b), BothSides(a, x, y, b))
    ensures !NoClash(AllHops(BothSides(a, x, y, b)))
    ensures Journey(Diamond(a, x, y, b), Install(AllHops(BothSides(a, x, y, b))), a, 10, 9) == ThereAndBack(a, b)[1..]
  {
    hide Found, Install, Journey;
    var hops := AllHops(BothSides(a, x, y, b));
    BothSidesFound(a, x, y, b);
    BothSidesRules(a, x, y, b);
    DiamondForwards(a, x, y, b, Install(hops));
    InForceIffNoClash(hops);
    assert Hop(a, 10, 1) in hops by {
      assert BothSides(a, x, y, b)[0][0] in AllHops(BothSides(a, x, y, b));
    }
  }
}
