// create_topology of JellyfishTopo: random links between switches with spare ports, then
// random splices. Both loops are given as functions of the random choices, which the
// methods compute, so that what some choices or no choices can do may be stated.
module JellyfishBuilder {
  import opened LinkGraph
  import opened Sequences
  import opened Jellyfish

  // --- the first loop ---

  // The links so far and the switches that may still get one.
  datatype Growth = Growth(links: seq<Link>, list: seq<Switch>)

  // random.choice
  function Choice<T>(s: seq<T>, pick: nat): (x: T)
    requires s != []
    ensures x in s
  {
    s[pick % |s|]
  }

  lemma ChoiceAt<T>(s: seq<T>, i: nat)
    requires i < |s|
    ensures Choice(s, i) == s[i]
  {
    assert i % |s| == i;
  }

  // A switch that has used up its ports, or is fully connected, leaves the list.
  ghost function WithoutFull(s: Switch, list: seq<Switch>, links: seq<Link>, ports: nat): seq<Switch> {
    if Degree(links, s) == ports || FullyLinked(s, links, list) then Removed(list, s) else list
  }

  // A new link between two listed switches, after which full ones have left the list.
  ghost function WithLink(g: Growth, ports: nat, a: Switch, b: Switch): Growth {
    var links := g.links + [(a, b)];
    Growth(links, WithoutFull(b, WithoutFull(a, g.list, links, ports), links, ports))
  }

  ghost predicate AllJoined(g: Growth) {
    |g.list| <= 1 || forall i, j :: 0 <= i < j < |g.list| ==> Joined(g.links, g.list[i], g.list[j])
  }

  // One turn of the loop with the two random choices pick.
  ghost function Linked(g: Growth, ports: nat, pick: (nat, nat)): Growth
    requires g.list != []
  {
    var a, b := Choice(g.list, pick.0), Choice(g.list, pick.1);
    if a == b || Joined(g.links, a, b) then g
    else WithLink(g, ports, a, b)
  }

  // How the loop ends, or where it stands when the choices run out.
  datatype LinkRun = LinkRun(end: Growth, done: bool)

  ghost function LinkLoop(g: Growth, ports: nat, picks: seq<(nat, nat)>): LinkRun
    decreases |picks|
  {
    if AllJoined(g) then LinkRun(g, true)
    else if picks == [] then LinkRun(g, false)
    else LinkLoop(Linked(g, ports, picks[0]), ports, picks[1..])
  }

  // Two different switches that both have spare ports.
  ghost predicate SparePair(s: Switch, t: Switch, switches: seq<Switch>, links: seq<Link>, ports: nat) {
    s in switches && t in switches && s != t && Degree(links, s) < ports && Degree(links, t) < ports
  }

  ghost predicate SparePairsListed(g: Growth, switches: seq<Switch>, ports: nat) {
    forall s, t {:trigger SparePair(s, t, switches, g.links, ports)} ::
      SparePair(s, t, switches, g.links, ports) ==> s in g.list && t in g.list
  }

  // Switches still on the list are distinct known switches with a spare port.
  ghost predicate Spare(g: Growth, switches: seq<Switch>, ports: nat) {
    NoRepeat(g.list) && forall s :: s in g.list ==> s in switches && Degree(g.links, s) < ports
  }

  // Unless the list is empty, only switches without spare ports have left it.
  ghost predicate UnlistedFull(links: seq<Link>, list: seq<Switch>, switches: seq<Switch>, ports: nat) {
    list != [] ==> forall s :: s in switches && s !in list ==> Degree(links, s) == ports
  }

  // What every turn of the first loop keeps.
  ghost predicate Growing(g: Growth, switches: seq<Switch>, ports: nat) {
    && Sound(g.links, switches, ports) && NoDuplicates(g.links) && Spare(g, switches, ports)
    && UnlistedFull(g.links, g.list, switches, ports)
    && SparePairsListed(g, switches, ports)
    && (g.links != [] || g.list == switches)
  }

  // A new link between two listed switches that are not joined yet.
  lemma NewLinkSound(g: Growth, a: Switch, b: Switch, switches: seq<Switch>, ports: nat)
    requires Growing(g, switches, ports) && a in g.list && b in g.list && a != b && !Joined(g.links, a, b)
    ensures var links := g.links + [(a, b)];
      && Sound(links, switches, ports) && NoDuplicates(links)
      && forall s :: Degree(links, s) == Degree(g.links, s) + if Touches((a, b), s) then 1 else 0
  {
    var links := g.links + [(a, b)];
    forall s ensures Degree(links, s) == Degree(g.links, s) + if Touches((a, b), s) then 1 else 0 {
      DegreeAppend(g.links, [(a, b)], s);
      DegreeOne((a, b), s);
    }
    forall i, j | 0 <= i < j < |links| ensures links[i] != links[j] && links[i] != (links[j].1, links[j].0) {
      assert j == |g.links| ==> links[i] in g.links;
    }
  }

  lemma WithoutFullKeeps(s: Switch, list: seq<Switch>, links: seq<Link>, ports: nat)
    requires NoRepeat(list) && NoDuplicates(links)
    ensures var r := WithoutFull(s, list, links, ports);
      && NoRepeat(r) && (forall t :: t in r ==> t in list) && (forall t :: t in list && t != s ==> t in r)
      && (s in r ==> Degree(links, s) != ports)
      && (s !in r ==> s !in list || Degree(links, s) == ports || (r == [] && forall t :: t in list ==> t == s))
  {
    RemovedOnce(list, s);
    FullyLinkedIffAlone(s, links, list);
    var r := WithoutFull(s, list, links, ports);
    assert r == [] || r[0] in r;
  }

  // Who stays on the list.
  lemma WithLinkList(g: Growth, ports: nat, a: Switch, b: Switch)
    requires NoRepeat(g.list) && NoDuplicates(g.links + [(a, b)]) && a in g.list && b in g.list && a != b
    ensures var h := WithLink(g, ports, a, b);
      && NoRepeat(h.list) && (forall t :: t in h.list ==> t in g.list)
      && (forall t :: t in g.list && t != a && t != b ==> t in h.list)
      && (a in h.list <==> Degree(h.links, a) != ports) && (b in h.list ==> Degree(h.links, b) != ports)
      && (b in h.list || Degree(h.links, b) == ports || h.list == [])
  {
    hide NoDuplicates, WithoutFull;
    var links := g.links + [(a, b)];
    var list := WithoutFull(a, g.list, links, ports);
    WithoutFullKeeps(a, g.list, links, ports);
    WithoutFullKeeps(b, list, links, ports);
    assert b in list;
  }

  // What a new link does to degrees, and who stays on the list.
  ghost predicate Extends(g: Growth, h: Growth, ports: nat, a: Switch, b: Switch) {
    && (forall s :: Degree(h.links, s) == Degree(g.links, s) + if s == a || s == b then 1 else 0)
    && (forall t :: t in h.list ==> t in g.list)
    && (forall t :: t in g.list && t != a && t != b ==> t in h.list)
    && (a in h.list || Degree(h.links, a) == ports)
    && (b in h.list || Degree(h.links, b) == ports || h.list == [])
  }

  lemma ExtendedUnlisted(g: Growth, h: Growth, switches: seq<Switch>, ports: nat, a: Switch, b: Switch)
    requires UnlistedFull(g.links, g.list, switches, ports) && Extends(g, h, ports, a, b) && a in g.list && b in g.list
    ensures UnlistedFull(h.links, h.list, switches, ports)
  {
  }

  lemma ExtendedPairs(g: Growth, h: Growth, switches: seq<Switch>, ports: nat, a: Switch, b: Switch)
    requires SparePairsListed(g, switches, ports) && UnlistedFull(g.links, g.list, switches, ports)
    requires Extends(g, h, ports, a, b) && a in g.list && b in g.list
    ensures SparePairsListed(h, switches, ports)
  {
    forall s, t | SparePair(s, t, switches, h.links, ports) ensures s in h.list && t in h.list {
      assert SparePair(s, t, switches, g.links, ports);
    }
  }

  lemma WithLinkGrows(g: Growth, switches: seq<Switch>, ports: nat, a: Switch, b: Switch)
    requires Growing(g, switches, ports) && a in g.list && b in g.list && a != b && !Joined(g.links, a, b)
    ensures Growing(WithLink(g, ports, a, b), switches, ports)
  {
    NewLinkSound(g, a, b, switches, ports);
    WithLinkList(g, ports, a, b);
    var h := WithLink(g, ports, a, b);
    assert Extends(g, h, ports, a, b) && forall s :: Degree(h.links, s) <= ports;
    ExtendedUnlisted(g, h, switches, ports, a, b);
    ExtendedPairs(g, h, switches, ports, a, b);
    hide WithLink, Sound, NoDuplicates, Joined, Degree, UnlistedFull, SparePairsListed;
    assert Spare(h, switches, ports);
  }

  lemma LinkedGrows(g: Growth, switches: seq<Switch>, ports: nat, pick: (nat, nat))
    requires Growing(g, switches, ports) && g.list != []
    ensures Growing(Linked(g, ports, pick), switches, ports)
  {
    hide Growing, Choice;
    var a, b := Choice(g.list, pick.0), Choice(g.list, pick.1);
    if a != b && !Joined(g.links, a, b) {
      WithLinkGrows(g, switches, ports, a, b);
    }
  }

  lemma {:induction false} LinkLoopGrows(g: Growth, switches: seq<Switch>, ports: nat, picks: seq<(nat, nat)>)
    requires Growing(g, switches, ports)
    ensures Growing(LinkLoop(g, ports, picks).end, switches, ports)
    ensures LinkLoop(g, ports, picks).done <==> AllJoined(LinkLoop(g, ports, picks).end)
    decreases |picks|
  {
    if !AllJoined(g) && picks != [] {
      LinkedGrows(g, switches, ports, picks[0]);
      LinkLoopGrows(Linked(g, ports, picks[0]), switches, ports, picks[1..]);
    }
  }

  lemma StartGrows(switches: seq<Switch>, ports: nat)
    requires NoRepeat(switches) && ports >= 1
    ensures Growing(Growth([], switches), switches, ports)
  {
  }

  // Unused ports, which bound how many links can still be added.
  ghost function Slack(links: seq<Link>, switches: seq<Switch>, ports: nat): nat
    requires NoRepeat(switches) && Sound(links, switches, ports)
  {
    Handshake(switches, links);
    DegreeSumBounded(switches, links, ports);
    |switches| * ports - 2 * |links|
  }

  /** In every state of the first loop some choices end it. */
  lemma {:induction false} LinksCanEnd(g: Growth, switches: seq<Switch>, ports: nat) returns (picks: seq<(nat, nat)>)
    requires NoRepeat(switches) && Growing(g, switches, ports)
    ensures LinkLoop(g, ports, picks).done
    decreases Slack(g.links, switches, ports)
  {
    if AllJoined(g) {
      picks := [];
    } else {
      var i: nat, j: nat :| i < j < |g.list| && !Joined(g.links, g.list[i], g.list[j]);
      ChoiceAt(g.list, i);
      ChoiceAt(g.list, j);
      assert g.list[i] in g.list && g.list[j] in g.list && g.list[i] != g.list[j];
      WithLinkGrows(g, switches, ports, g.list[i], g.list[j]);
      hide Growing, Choice, Joined;
      var rest := LinksCanEnd(WithLink(g, ports, g.list[i], g.list[j]), switches, ports);
      picks := [(i, j)] + rest;
      assert picks[1..] == rest;
      assert Linked(g, ports, picks[0]) == WithLink(g, ports, g.list[i], g.list[j]);
    }
  }

  lemma ListedJoined(g: Growth, s: Switch, t: Switch)
    requires s in g.list && t in g.list && s != t && AllJoined(g)
    ensures Joined(g.links, s, t)
  {
    var i :| 0 <= i < |g.list| && g.list[i] == s;
    var j :| 0 <= j < |g.list| && g.list[j] == t;
    assert if i < j then Joined(g.links, g.list[i], g.list[j]) else Joined(g.links, g.list[j], g.list[i]);
  }

  /** When the first loop ends, the graph is as full as links can make it: two switches that both
      have a spare port are linked. */
  lemma AllJoinedIsFull(g: Growth, switches: seq<Switch>, ports: nat)
    requires Growing(g, switches, ports) && AllJoined(g)
    ensures forall s, t :: SparePair(s, t, switches, g.links, ports) ==> Joined(g.links, s, t)
    ensures |g.list| > 1 ==> g.links != []
  {
    forall s, t | SparePair(s, t, switches, g.links, ports) ensures Joined(g.links, s, t) {
      ListedJoined(g, s, t);
    }
    if |g.list| > 1 {
      assert Joined(g.links, g.list[0], g.list[1]);
    }
  }

  // --- the second loop ---

  // s has at least two spare ports and is not fully connected.
  ghost predicate WantsSplice(links: seq<Link>, list: seq<Switch>, ports: nat, s: Switch) {
    s in list && Degree(links, s) + 1 < ports && !FullyLinked(s, links, list)
  }

  // Some switch wants a splice, but every link such a switch could take the place of touches it.
  ghost predicate Stuck(links: seq<Link>, list: seq<Switch>, ports: nat) {
    && (exists s :: WantsSplice(links, list, ports, s))
    && forall s, l :: WantsSplice(links, list, ports, s) && l in links ==> Touches(l, s)
  }

  // The chosen link is spliced unless it touches s. (Choosing from no links would fail; it never happens.)
  function Spliced(links: seq<Link>, s: Switch, pick: nat): seq<Link> {
    if links == [] then []
    else
      var l := Choice(links, pick);
      if Touches(l, s) then links else Splice(links, s, l)
  }

  // How a pass ends: the links, the choices left, and whether no switch wanted a splice.
  datatype SpliceRun = SpliceRun(links: seq<Link>, rest: seq<nat>, completed: bool)

  // One pass over the switches of todo.
  ghost function Pass(links: seq<Link>, todo: seq<Switch>, list: seq<Switch>, ports: nat, picks: seq<nat>): SpliceRun
    decreases |todo|
  {
    if todo == [] then SpliceRun(links, picks, true)
    else if !WantsSplice(links, list, ports, todo[0]) then Pass(links, todo[1..], list, ports, picks)
    else if picks == [] then SpliceRun(links, [], false)
    else Pass(Spliced(links, todo[0], picks[0]), todo[1..], list, ports, picks[1..]).(completed := false)
  }

  // Passes until one completes, or until the choices run out.
  ghost function SpliceLoop(links: seq<Link>, list: seq<Switch>, ports: nat, picks: seq<nat>): SpliceRun
    decreases |picks|
  {
    var r := Pass(links, list, list, ports, picks);
    if r.completed || |r.rest| >= |picks| then r else SpliceLoop(r.links, list, ports, r.rest)
  }

  // Listed switches are known ones, and the links are sound.
  ghost predicate Splicing(links: seq<Link>, list: seq<Switch>, switches: seq<Switch>, ports: nat) {
    Sound(links, switches, ports) && forall s :: s in list ==> s in switches
  }

  // What the second loop keeps between two of its states.
  ghost predicate Evolves(before: seq<Link>, after: seq<Link>, list: seq<Switch>) {
    && KeepsConnected(before, after) && |after| >= |before|
    && forall s :: s !in list ==> Degree(after, s) == Degree(before, s)
  }

  lemma EvolvesOn(a: seq<Link>, b: seq<Link>, c: seq<Link>, list: seq<Switch>)
    requires Evolves(a, b, list) && Evolves(b, c, list)
    ensures Evolves(a, c, list)
  {
  }

  lemma SplicedEvolves(links: seq<Link>, s: Switch, pick: nat, list: seq<Switch>, switches: seq<Switch>, ports: nat)
    requires Splicing(links, list, switches, ports) && WantsSplice(links, list, ports, s)
    ensures Splicing(Spliced(links, s, pick), list, switches, ports) && Evolves(links, Spliced(links, s, pick), list)
    ensures links != [] && !Touches(Choice(links, pick), s) ==> |Spliced(links, s, pick)| == |links| + 1
  {
    if links != [] && !Touches(Choice(links, pick), s) {
      var l := Choice(links, pick);
      SpliceConnects(links, s, l);
      SpliceSound(links, s, l, switches, ports);
      forall x ensures Degree(Splice(links, s, l), x) == Degree(links, x) + (if x == s then 2 else 0)
               ensures |Splice(links, s, l)| == |links| + 1
      {
        SpliceDegrees(links, s, l, x);
      }
    }
  }

  lemma {:induction false} PassEvolves(links: seq<Link>, todo: seq<Switch>, list: seq<Switch>, switches: seq<Switch>,
                                       ports: nat, picks: seq<nat>)
    requires Splicing(links, list, switches, ports)
    ensures var r := Pass(links, todo, list, ports, picks);
      Splicing(r.links, list, switches, ports) && Evolves(links, r.links, list)
    decreases |todo|
  {
    if todo != [] && !WantsSplice(links, list, ports, todo[0]) {
      PassEvolves(links, todo[1..], list, switches, ports, picks);
    } else if todo != [] && picks != [] {
      var next := Spliced(links, todo[0], picks[0]);
      SplicedEvolves(links, todo[0], picks[0], list, switches, ports);
      PassEvolves(next, todo[1..], list, switches, ports, picks[1..]);
      EvolvesOn(links, next, Pass(next, todo[1..], list, ports, picks[1..]).links, list);
    }
  }

  // A pass completes, changing nothing, exactly when no switch wants a splice; otherwise it uses up
  // at least one choice if there is any. A stuck state stays as it is.
  lemma {:induction false} PassCompletes(links: seq<Link>, todo: seq<Switch>, list: seq<Switch>, ports: nat,
                                         picks: seq<nat>)
    ensures var r := Pass(links, todo, list, ports, picks);
      && (r.completed <==> forall s :: s in todo ==> !WantsSplice(links, list, ports, s))
      && (r.completed ==> r.links == links && r.rest == picks)
      && (!r.completed && picks != [] ==> |r.rest| < |picks|) && |r.rest| <= |picks|
      && (picks == [] || Stuck(links, list, ports) ==> r.links == links)
    decreases |todo|
  {
    if todo != [] {
      assert todo == [todo[0]] + todo[1..];
      if !WantsSplice(links, list, ports, todo[0]) {
        PassCompletes(links, todo[1..], list, ports, picks);
      } else if picks != [] {
        PassCompletes(Spliced(links, todo[0], picks[0]), todo[1..], list, ports, picks[1..]);
        if Stuck(links, list, ports) && links != [] {
          assert Choice(links, picks[0]) in links;
        }
      }
    }
  }

  lemma {:induction false} SpliceLoopEvolves(links: seq<Link>, list: seq<Switch>, switches: seq<Switch>, ports: nat,
                                             picks: seq<nat>)
    requires Splicing(links, list, switches, ports)
    ensures var r := SpliceLoop(links, list, ports, picks);
      && Splicing(r.links, list, switches, ports) && Evolves(links, r.links, list)
      && (r.completed <==> forall s :: !WantsSplice(r.links, list, ports, s)) && (r.completed || r.rest == [])
      && (Stuck(links, list, ports) ==> r.links == links && !r.completed)
    decreases |picks|
  {
    var r := Pass(links, list, list, ports, picks);
    PassEvolves(links, list, list, switches, ports, picks);
    PassCompletes(links, list, list, ports, picks);
    if !r.completed && |r.rest| < |picks| {
      SpliceLoopEvolves(r.links, list, switches, ports, r.rest);
      EvolvesOn(links, r.links, SpliceLoop(r.links, list, ports, r.rest).links, list);
    }
  }

  // --- which builders can end ---

  lemma {:induction false} DegreeAtMostLinks(links: seq<Link>, s: Switch)
    ensures Degree(links, s) <= |links|
    ensures (forall l :: l in links ==> Touches(l, s)) ==> Degree(links, s) == |links|
  {
    if links != [] {
      assert links == [links[0]] + links[1..];
      DegreeAtMostLinks(links[1..], s);
    }
  }

  // If every link touches s, which wants a splice, any two other switches want one as well.
  lemma OthersWant(links: seq<Link>, list: seq<Switch>, switches: seq<Switch>, ports: nat,
                   s: Switch, u: Switch, v: Switch)
    requires WantsSplice(links, list, ports, s) && UnlistedFull(links, list, switches, ports)
    requires forall l :: l in links ==> Touches(l, s)
    requires u in switches && v in switches && s != u && s != v && u != v
    ensures WantsSplice(links, list, ports, u) && WantsSplice(links, list, ports, v)
  {
    DegreeAtMostLinks(links, s);
    DegreeAtMostLinks(links, u);
    DegreeAtMostLinks(links, v);
    assert u in list && v in list;
    assert !Touches((u, v), s);
  }

  lemma Unstick(links: seq<Link>, list: seq<Switch>, ports: nat, s: Switch, l: Link)
    requires WantsSplice(links, list, ports, s) && l in links && !Touches(l, s)
    ensures !Stuck(links, list, ports)
  {
  }

  /** With three switches or more, no state of the second loop is stuck. */
  lemma NeverStuck(links: seq<Link>, list: seq<Switch>, switches: seq<Switch>, ports: nat)
    requires NoRepeat(switches) && |switches| >= 3 && links != [] && UnlistedFull(links, list, switches, ports)
    ensures !Stuck(links, list, ports)
  {
    if s :| WantsSplice(links, list, ports, s) {
      if l :| l in links && !Touches(l, s) {
        Unstick(links, list, ports, s, l);
      } else {
        var u := if switches[0] != s then switches[0] else switches[1];
        var v := if switches[2] != s then switches[2] else switches[1];
        OthersWant(links, list, switches, ports, s, u, v);
        assert links[0] in links && Touches(links[0], s);
        Unstick(links, list, ports, if Touches(links[0], u) then v else u, links[0]);
      }
    }
  }

  lemma EndsOfTwo(links: seq<Link>, switches: seq<Switch>)
    requires |switches| == 2 && NoSelfLinks(links) && Within(links, switches)
    ensures forall i :: 0 <= i < |links| ==> links[i] in {(switches[0], switches[1]), (switches[1], switches[0])}
  {
    forall i | 0 <= i < |links| ensures links[i] in {(switches[0], switches[1]), (switches[1], switches[0])} {
      assert links[i] in links;
    }
  }

  lemma OneLinkOfTwo(links: seq<Link>, switches: seq<Switch>)
    requires |switches| == 2 && NoSelfLinks(links) && NoDuplicates(links) && Within(links, switches)
    ensures |links| <= 1
  {
    if |links| > 1 {
      assert links[0] != links[1] && links[0] != (links[1].1, links[1].0);
      EndsOfTwo(links, switches);
    }
  }

  /** Once two switches with at least three ports each are linked, they are stuck. */
  lemma TwoSwitchesStuck(g: Growth, switches: seq<Switch>, ports: nat)
    requires |switches| == 2 && NoRepeat(switches) && ports >= 3 && Growing(g, switches, ports) && g.links != []
    ensures Stuck(g.links, g.list, ports)
  {
    var a, b := switches[0], switches[1];
    OneLinkOfTwo(g.links, switches);
    assert g.links == [g.links[0]] && g.links[0] in g.links;
    DegreeOne(g.links[0], a);
    DegreeOne(g.links[0], b);
    assert SparePair(a, b, switches, g.links, ports);
    FullyLinkedIffAlone(a, g.links, g.list);
    assert WantsSplice(g.links, g.list, ports, a);
  }

  lemma {:induction false} DegreeOfJoined(links: seq<Link>, s: Switch, l: Link)
    requires l in links && Touches(l, s)
    ensures Degree(links, s) >= 1
  {
    if links[0] != l {
      DegreeOfJoined(links[1..], s, l);
    }
  }

  // Two switches with at most two ports each, or fewer than two switches on the list, want no splice.
  lemma NobodyWants(g: Growth, switches: seq<Switch>, ports: nat)
    requires Growing(g, switches, ports) && AllJoined(g) && (ports <= 2 || |g.list| <= 1)
    ensures forall s :: !WantsSplice(g.links, g.list, ports, s)
  {
    forall s ensures !WantsSplice(g.links, g.list, ports, s) {
      if s in g.list && |g.list| > 1 {
        var t := if g.list[0] != s then g.list[0] else g.list[1];
        ListedJoined(g, s, t);
        DegreeOfJoined(g.links, s, if (s, t) in g.links then (s, t) else (t, s));
      }
    }
  }

  // At least two different switches are on a list of more than one.
  lemma ListedAreKnown(list: seq<Switch>, switches: seq<Switch>)
    requires NoRepeat(list) && |list| > 1 && forall s :: s in list ==> s in switches
    ensures |switches| >= 2
  {
    assert list[0] in switches && list[1] in switches;
  }

  /** Where the first loop ends with switches left on the list, the second one is stuck exactly for
      two switches with three ports or more. */
  lemma StuckIffTwo(g: Growth, switches: seq<Switch>, ports: nat)
    requires NoRepeat(switches) && Growing(g, switches, ports) && AllJoined(g) && |g.list| > 1
    ensures Stuck(g.links, g.list, ports) <==> |switches| == 2 && ports >= 3
  {
    AllJoinedIsFull(g, switches, ports);
    ListedAreKnown(g.list, switches);
    if |switches| >= 3 {
      NeverStuck(g.links, g.list, switches, ports);
    } else if ports >= 3 {
      TwoSwitchesStuck(g, switches, ports);
    } else {
      NobodyWants(g, switches, ports);
    }
  }

  // A choice for s that splices, if there is one.
  ghost function BestPick(links: seq<Link>, s: Switch): (pick: nat)
    ensures (exists l :: l in links && !Touches(l, s)) ==> links != [] && !Touches(Choice(links, pick), s)
  {
    if i: nat :| i < |links| && !Touches(links[i], s) then
      ChoiceAt(links, i);
      i
    else 0
  }

  // A pass uses up exactly picks, whatever follows them, and leaves the links after.
  ghost predicate Takes(links: seq<Link>, todo: seq<Switch>, list: seq<Switch>, ports: nat, picks: seq<nat>,
                        after: seq<Link>) {
    forall more {:trigger picks + more} ::
      var r := Pass(links, todo, list, ports, picks + more); r.links == after && r.rest == more
  }

  ghost predicate CanSplice(links: seq<Link>, todo: seq<Switch>, list: seq<Switch>, ports: nat) {
    exists s, l {:trigger Touches(l, s)} ::
      s in todo && WantsSplice(links, list, ports, s) && l in links && !Touches(l, s)
  }

  lemma TakesNothing(links: seq<Link>, list: seq<Switch>, ports: nat)
    ensures Takes(links, [], list, ports, [], links)
  {
    forall more: seq<nat> ensures [] + more == more {
    }
  }

  lemma TakesSkip(links: seq<Link>, todo: seq<Switch>, list: seq<Switch>, ports: nat, picks: seq<nat>, after: seq<Link>)
    requires todo != [] && !WantsSplice(links, list, ports, todo[0])
    requires Takes(links, todo[1..], list, ports, picks, after)
    ensures Takes(links, todo, list, ports, picks, after)
  {
  }

  lemma TakesOne(links: seq<Link>, todo: seq<Switch>, list: seq<Switch>, ports: nat, pick: nat, picks: seq<nat>,
                 after: seq<Link>)
    requires todo != [] && WantsSplice(links, list, ports, todo[0])
    requires Takes(Spliced(links, todo[0], pick), todo[1..], list, ports, picks, after)
    ensures Takes(links, todo, list, ports, [pick] + picks, after)
  {
    hide WantsSplice, Spliced;
    forall more
      ensures var r := Pass(links, todo, list, ports, [pick] + picks + more); r.links == after && r.rest == more
    {
      var all := [pick] + picks + more;
      assert all[0] == pick && all[1..] == picks + more;
    }
  }

  /** From any state a pass can be given just the choices it needs, whatever follows; it makes a
      splice if some switch can have one. */
  lemma {:induction false} PassCanSplice(links: seq<Link>, todo: seq<Switch>, list: seq<Switch>, switches: seq<Switch>,
                                         ports: nat) returns (picks: seq<nat>, after: seq<Link>)
    requires Splicing(links, list, switches, ports)
    ensures Splicing(after, list, switches, ports) && Evolves(links, after, list)
    ensures Takes(links, todo, list, ports, picks, after)
    ensures CanSplice(links, todo, list, ports) ==> |after| > |links| && picks != []
    decreases |todo|
  {
    hide Takes, Splicing, Spliced;
    if todo == [] {
      picks, after := [], links;
      TakesNothing(links, list, ports);
    } else if !WantsSplice(links, list, ports, todo[0]) {
      picks, after := PassCanSplice(links, todo[1..], list, switches, ports);
      TakesSkip(links, todo, list, ports, picks, after);
      assert todo == [todo[0]] + todo[1..];
    } else {
      var pick := BestPick(links, todo[0]);
      var next := Spliced(links, todo[0], pick);
      SplicedEvolves(links, todo[0], pick, list, switches, ports);
      var rest;
      rest, after := PassCanSplice(next, todo[1..], list, switches, ports);
      EvolvesOn(links, next, after, list);
      TakesOne(links, todo, list, ports, pick, rest, after);
      picks := [pick] + rest;
      LaterSplice(links, next, todo, list, ports, pick);
    }
  }

  // The first switch that can have a splice gets one, or the links stay for the next ones.
  lemma LaterSplice(links: seq<Link>, next: seq<Link>, todo: seq<Switch>, list: seq<Switch>, ports: nat, pick: nat)
    requires todo != [] && pick == BestPick(links, todo[0]) && next == Spliced(links, todo[0], pick)
    requires links != [] && !Touches(Choice(links, pick), todo[0]) ==> |next| == |links| + 1
    ensures CanSplice(links, todo, list, ports) ==> |next| > |links| || CanSplice(next, todo[1..], list, ports)
  {
    hide Choice, WantsSplice, Splice;
    if CanSplice(links, todo, list, ports) {
      var s, l :| s in todo && WantsSplice(links, list, ports, s) && l in links && !Touches(l, s);
      if !exists k :: k in links && !Touches(k, todo[0]) {
        assert Touches(Choice(links, pick), todo[0]);
        assert s in todo[1..];
      }
    }
  }

  /** With three switches or more, some choices end the second loop from every state it can reach. */
  lemma {:induction false} SplicesCanEnd(links: seq<Link>, list: seq<Switch>, switches: seq<Switch>, ports: nat)
    returns (picks: seq<nat>)
    requires NoRepeat(switches) && |switches| >= 3 && Splicing(links, list, switches, ports)
    requires links != [] && UnlistedFull(links, list, switches, ports)
    ensures SpliceLoop(links, list, ports, picks).completed
    decreases Slack(links, switches, ports)
  {
    PassCompletes(links, list, list, ports, []);
    if forall s :: s in list ==> !WantsSplice(links, list, ports, s) {
      picks := [];
    } else {
      NeverStuck(links, list, switches, ports);
      var first, after := PassCanSplice(links, list, list, switches, ports);
      var s, l :| WantsSplice(links, list, ports, s) && l in links && !Touches(l, s);
      assert CanSplice(links, list, list, ports);
      assert UnlistedFull(after, list, switches, ports);
      var rest := SplicesCanEnd(after, list, switches, ports);
      picks := first + rest;
    }
  }

  // --- the whole builder ---

  // The links and whether both loops ended.
  ghost function Build(switches: seq<Switch>, ports: nat, picks1: seq<(nat, nat)>, picks2: seq<nat>): (seq<Link>, bool)
  {
    var first := LinkLoop(Growth([], switches), ports, picks1);
    if !first.done then (first.end.links, false)
    else
      var second := SpliceLoop(first.end.links, first.end.list, ports, picks2);
      (second.links, second.completed)
  }

  lemma EndsAfterLinks(switches: seq<Switch>, ports: nat, picks1: seq<(nat, nat)>) returns (picks2: seq<nat>)
    requires NoRepeat(switches) && ports >= 1 && !(|switches| == 2 && ports >= 3)
    requires LinkLoop(Growth([], switches), ports, picks1).done
    ensures Build(switches, ports, picks1, picks2).1
  {
    var g := LinkLoop(Growth([], switches), ports, picks1).end;
    StartGrows(switches, ports);
    LinkLoopGrows(Growth([], switches), switches, ports, picks1);
    if ports <= 2 || |g.list| <= 1 {
      NobodyWants(g, switches, ports);
      PassCompletes(g.links, g.list, g.list, ports, []);
      picks2 := [];
    } else {
      AllJoinedIsFull(g, switches, ports);
      ListedAreKnown(g.list, switches);
      picks2 := SplicesCanEnd(g.links, g.list, switches, ports);
    }
  }

  /** Some random choices end the builder exactly when it is not given two switches with three
      ports or more each. */
  lemma BuilderCanEndIff(switches: seq<Switch>, ports: nat)
    requires NoRepeat(switches) && ports >= 1
    ensures (exists picks1, picks2 :: Build(switches, ports, picks1, picks2).1) <==> !(|switches| == 2 && ports >= 3)
  {
    StartGrows(switches, ports);
    if |switches| == 2 && ports >= 3 {
      forall picks1, picks2 ensures !Build(switches, ports, picks1, picks2).1 {
        NeverEnds(switches, ports, picks1, picks2);
      }
    } else {
      var picks1 := LinksCanEnd(Growth([], switches), switches, ports);
      var picks2 := EndsAfterLinks(switches, ports, picks1);
    }
  }

  lemma NeverEnds(switches: seq<Switch>, ports: nat, picks1: seq<(nat, nat)>, picks2: seq<nat>)
    requires NoRepeat(switches) && |switches| == 2 && ports >= 3
    ensures !Build(switches, ports, picks1, picks2).1
  {
    var g := LinkLoop(Growth([], switches), ports, picks1).end;
    StartGrows(switches, ports);
    LinkLoopGrows(Growth([], switches), switches, ports, picks1);
    if AllJoined(g) {
      LinkedTwo(g, switches, ports);
      TwoSwitchesStuck(g, switches, ports);
      SpliceLoopEvolves(g.links, g.list, switches, ports, picks2);
    }
  }

  lemma LinkedTwo(g: Growth, switches: seq<Switch>, ports: nat)
    requires NoRepeat(switches) && |switches| == 2 && ports >= 3 && Growing(g, switches, ports) && AllJoined(g)
    ensures g.links != []
  {
    AllJoinedIsFull(g, switches, ports);
    var a, b := switches[0], switches[1];
    assert g.links == [] ==> SparePair(a, b, switches, g.links, ports);
  }

  // --- duplicate links ---

  /** The first splice of the second loop duplicates a link whenever an end of the spliced link is
      still on the list: the first loop ends only when listed switches are joined to one another. */
  lemma FirstSpliceDuplicates(g: Growth, switches: seq<Switch>, ports: nat, s: Switch, l: Link)
    requires Growing(g, switches, ports) && AllJoined(g) && s in g.list && l in g.links && !Touches(l, s)
    requires l.0 in g.list || l.1 in g.list
    ensures !NoDuplicates(Splice(g.links, s, l))
  {
    ListedJoined(g, s, if l.0 in g.list then l.0 else l.1);
    SpliceDuplicatesIff(g.links, s, l);
  }

  // A triangle of switches with four ports each, all still on the list.
  function Triangle(): seq<Link> {
    [(0, 1), (0, 2), (1, 2)]
  }

  lemma StaysListed(links: seq<Link>, list: seq<Switch>, ports: nat, s: Switch, t: Switch)
    requires NoDuplicates(links) && |links| < ports && t in list && s != t
    ensures WithoutFull(s, list, links, ports) == list
  {
    DegreeAtMostLinks(links, s);
    FullyLinkedIffAlone(s, links, list);
  }

  lemma LinkOnce(links: seq<Link>, a: nat, b: nat, rest: seq<(nat, nat)>)
    requires a < b < 3 && !Joined(links, a, b) && |links| <= 2 && NoDuplicates(links + [(a, b)])
    ensures LinkLoop(Growth(links, [0, 1, 2]), 4, [(a, b)] + rest)
         == LinkLoop(Growth(links + [(a, b)], [0, 1, 2]), 4, rest)
  {
    var g := Growth(links, [0, 1, 2]);
    assert g.list[a] == a && g.list[b] == b;
    ChoiceAt(g.list, a);
    ChoiceAt(g.list, b);
    StaysListed(links + [(a, b)], g.list, 4, a, b);
    StaysListed(links + [(a, b)], g.list, 4, b, a);
    assert !AllJoined(g) && ([(a, b)] + rest)[0] == (a, b) && ([(a, b)] + rest)[1..] == rest;
  }

  lemma TriangleJoined(picks: seq<(nat, nat)>)
    ensures LinkLoop(Growth(Triangle(), [0, 1, 2]), 4, picks) == LinkRun(Growth(Triangle(), [0, 1, 2]), true)
  {
    assert AllJoined(Growth(Triangle(), [0, 1, 2]));
  }

  lemma TriangleLinked()
    ensures LinkLoop(Growth([], [0, 1, 2]), 4, Triangle()) == LinkRun(Growth(Triangle(), [0, 1, 2]), true)
  {
    hide LinkLoop;
    var p, q, r: (nat, nat) := (0, 1), (0, 2), (1, 2);
    LinkOnce([], 0, 1, [q, r]);
    LinkOnce([p], 0, 2, [r]);
    LinkOnce([p, q], 1, 2, []);
    TriangleJoined([]);
    assert [p] + [q, r] == Triangle() == [p, q] + [r] && [q] + [r] == [q, r] && [r] + [] == [r];
    assert [] + [p] == [p] && [p] + [q] == [p, q];
  }

  lemma TriangleWants()
    ensures WantsSplice(Triangle(), [0, 1, 2], 4, 0)
  {
    var p, q, r: (nat, nat) := (0, 1), (0, 2), (1, 2);
    DegreeAppend([p, q], [r], 0);
    DegreeAppend([p], [q], 0);
    DegreeOne(p, 0);
    DegreeOne(q, 0);
    DegreeOne(r, 0);
    assert [p] + [q] == [p, q] && [p, q] + [r] == Triangle();
    FullyLinkedIffAlone(0, Triangle(), [0, 1, 2]);
    assert 1 in [0, 1, 2];
  }

  // Switch 0 takes the place of the link between the others.
  lemma TriangleSplice()
    ensures Spliced(Triangle(), 0, 2) == [(0, 1), (0, 2), (0, 1), (0, 2)]
  {
    ChoiceAt(Triangle(), 2);
    assert Triangle()[1..] == [(0, 2), (1, 2)] && Triangle()[1..][1..] == [(1, 2)];
  }

  lemma TriangleSpliced()
    ensures SpliceLoop(Triangle(), [0, 1, 2], 4, [2]).links == [(0, 1), (0, 2), (0, 1), (0, 2)]
  {
    hide WantsSplice, Spliced;
    var list: seq<Switch>, after := [0, 1, 2], Spliced(Triangle(), 0, 2);
    TriangleWants();
    TriangleSplice();
    PassCompletes(after, list[1..], list, 4, []);
    PassCompletes(after, list, list, 4, []);
    assert [2][1..] == [];
  }

  /** Some choices make the builder link two switches twice: three switches with four ports each. */
  lemma BuilderMayDuplicate()
    ensures Build([0, 1, 2], 4, Triangle(), [2]).0 == [(0, 1), (0, 2), (0, 1), (0, 2)]
    ensures !NoDuplicates(Build([0, 1, 2], 4, Triangle(), [2]).0)
  {
    TriangleLinked();
    TriangleSpliced();
    var links := Build([0, 1, 2], 4, Triangle(), [2]).0;
    assert links[0] == links[2];
  }

  // --- the loops as they run ---

  method DropIfFull(s: Switch, list: seq<Switch>, links: seq<Link>, ports: nat) returns (r: seq<Switch>)
    ensures r == WithoutFull(s, list, links, ports)
  {
    var count := CountLinksWithSwitch(s, links);
    var full := SwitchIsFullyConnected(s, links, list);
    r := if count == ports || full then Removed(list, s) else list;
  }

  /** The first loop, for any sequence of random choices: no self-links, no duplicates in either
      direction, no port limit exceeded; if the choices suffice, two switches that both have a spare
      port are linked. */
  method LinkSwitches(switches: seq<Switch>, ports: nat, picks: seq<(nat, nat)>)
    returns (links: seq<Link>, list: seq<Switch>, done: bool)
    requires NoRepeat(switches) && ports >= 1
    ensures LinkRun(Growth(links, list), done) == LinkLoop(Growth([], switches), ports, picks)
    ensures Growing(Growth(links, list), switches, ports)
    ensures done ==> forall s, t :: SparePair(s, t, switches, links, ports) ==> Joined(links, s, t)
    ensures done && |list| > 1 ==> links != []
  {
    links, list := [], switches;
    var used := 0;
    var missing := NotFullyConnected(list, links);
    while |list| > 1 && missing && used < |picks|
      invariant used <= |picks| && (missing <==> exists i, j :: 0 <= i < j < |list| && !Joined(links, list[i], list[j]))
      invariant LinkLoop(Growth(links, list), ports, picks[used..]) == LinkLoop(Growth([], switches), ports, picks)
      decreases |picks| - used
    {
      ghost var before := Growth(links, list);
      var a, b := Choice(list, picks[used].0), Choice(list, picks[used].1);
      assert !AllJoined(before) && picks[used..][1..] == picks[used + 1..];
      used := used + 1;
      if a == b || (a, b) in links || (b, a) in links {
        continue;
      }
      links := links + [(a, b)];
      list := DropIfFull(a, list, links, ports);
      list := DropIfFull(b, list, links, ports);
      assert Growth(links, list) == WithLink(before, ports, a, b);
      missing := NotFullyConnected(list, links);
    }
    done := |list| <= 1 || !missing;
    StartGrows(switches, ports);
    LinkLoopGrows(Growth([], switches), switches, ports, picks);
    if done {
      AllJoinedIsFull(Growth(links, list), switches, ports);
    }
  }

  // One pass of the second loop.
  method SplicePass(links0: seq<Link>, list: seq<Switch>, ports: nat, picks: seq<nat>, used0: nat)
    returns (links: seq<Link>, used: nat, completed: bool)
    requires ports >= 1 && used0 <= |picks| && (|list| <= 1 || links0 != [])
    ensures used0 <= used <= |picks| && (links0 != [] ==> links != [])
    ensures SpliceRun(links, picks[used..], completed) == Pass(links0, list, list, ports, picks[used0..])
  {
    links, used, completed := links0, used0, true;
    ghost var whole := Pass(links0, list, list, ports, picks[used0..]);
    for n := 0 to |list|
      invariant used0 <= used <= |picks| && (links0 != [] ==> links != [])
      invariant var r := Pass(links, list[n..], list, ports, picks[used..]);
        whole == r.(completed := completed && r.completed)
    {
      var s := list[n];
      assert list[n..] == [s] + list[n + 1..];
      var full := SwitchIsFullyConnected(s, links, list);
      if full {
        continue;
      }
      var count := CountLinksWithSwitch(s, links);
      if count < ports - 1 {
        assert WantsSplice(links, list, ports, s);
        completed := false;
        if used == |picks| {
          return;
        }
        // Another switch on the list is not linked to s, so there are links to choose from.
        assert |list| > 1;
        var l := Choice(links, picks[used]);
        assert picks[used..] == [picks[used]] + picks[used + 1..];
        used := used + 1;
        if s == l.0 || s == l.1 {
          continue;
        }
        links := Splice(links, s, l);
      }
    }
  }

  /** The second loop, for any sequence of random choices. However long it runs, it makes at most half
      as many splices as there are unused ports, keeps switches connected and degrees within the
      limit. It stops short of the end only for want of choices, and leaves a stuck state alone. */
  method SpliceSwitches(links0: seq<Link>, list: seq<Switch>, ghost switches: seq<Switch>, ports: nat, picks: seq<nat>)
    returns (links: seq<Link>, done: bool)
    requires NoRepeat(switches) && ports >= 1 && Splicing(links0, list, switches, ports)
    requires |list| <= 1 || links0 != []
    ensures var r := SpliceLoop(links0, list, ports, picks); links == r.links && done == r.completed
    ensures Sound(links, switches, ports) && Evolves(links0, links, list)
    ensures 2 * (|links| - |links0|) <= |switches| * ports - DegreeSum(switches, links0)
    ensures done <==> forall s :: !WantsSplice(links, list, ports, s)
    ensures Stuck(links0, list, ports) ==> links == links0 && !done
  {
    links, done := links0, false;
    var used := 0;
    var progress := true;
    while !done && progress
      invariant used <= |picks| && (links0 != [] ==> links != [])
      invariant if !done && progress
        then SpliceLoop(links, list, ports, picks[used..]) == SpliceLoop(links0, list, ports, picks)
        else SpliceRun(links, picks[used..], done) == SpliceLoop(links0, list, ports, picks)
      decreases |picks| - used, !done && progress
    {
      var start := used;
      links, used, done := SplicePass(links, list, ports, picks, used);
      progress := used > start;
    }
    SpliceLoopEvolves(links0, list, switches, ports, picks);
    Handshake(switches, links);
    Handshake(switches, links0);
    DegreeSumBounded(switches, links, ports);
  }

  /** create_topology after the hosts: the links of the finished graph, and whether the choices sufficed. */
  method CreateTopology(switches: seq<Switch>, ports: nat, picks1: seq<(nat, nat)>, picks2: seq<nat>)
    returns (links: seq<Link>, done: bool)
    requires NoRepeat(switches) && ports >= 1
    ensures (links, done) == Build(switches, ports, picks1, picks2)
    ensures Sound(links, switches, ports)
    ensures DegreeSum(switches, links) == 2 * |links|
  {
    var list;
    links, list, done := LinkSwitches(switches, ports, picks1);
    if done {
      links, done := SpliceSwitches(links, list, switches, ports, picks2);
    }
    Handshake(switches, links);
  }
}
