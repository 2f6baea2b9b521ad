// The random graph of JellyfishTopo.create_topology: links between random switches
// with spare ports, then splices of further switches into existing links.
module Jellyfish {
  import opened Arithmetic
  import opened LinkGraph
  import opened Sequences

  type Switch = nat
  type Link = (Switch, Switch)

  predicate Touches(l: Link, s: Switch) {
    l.0 == s || l.1 == s
  }

  // The number of links a switch is in.
  function Degree(links: seq<Link>, s: Switch): nat {
    if links == [] then 0 else (if Touches(links[0], s) then 1 else 0) + Degree(links[1..], s)
  }

  ghost predicate NoSelfLinks(links: seq<Link>) {
    forall l :: l in links ==> l.0 != l.1
  }

  // No pair of switches is linked twice, in either direction.
  ghost predicate NoDuplicates(links: seq<Link>) {
    forall i, j :: 0 <= i < j < |links| ==> links[i] != links[j] && links[i] != (links[j].1, links[j].0)
  }

  ghost predicate Within(links: seq<Link>, switches: seq<Switch>) {
    forall l :: l in links ==> l.0 in switches && l.1 in switches
  }

  ghost predicate PortsRespected(links: seq<Link>, ports: nat) {
    forall s :: Degree(links, s) <= ports
  }

  // What both loops keep.
  ghost predicate Sound(links: seq<Link>, switches: seq<Switch>, ports: nat) {
    NoSelfLinks(links) && Within(links, switches) && PortsRespected(links, ports)
  }

  lemma {:induction false} DegreeAppend(a: seq<Link>, b: seq<Link>, s: Switch)
    ensures Degree(a + b, s) == Degree(a, s) + Degree(b, s)
  {
    if a == [] {
      assert a + b == b;
    } else {
      assert (a + b)[1..] == a[1..] + b;
      DegreeAppend(a[1..], b, s);
    }
  }

  lemma DegreeOne(l: Link, s: Switch)
    ensures Degree([l], s) == if Touches(l, s) then 1 else 0
  {
    assert [l][1..] == [];
  }

  // --- degrees sum to twice the links ---

  function DegreeSum(switches: seq<Switch>, links: seq<Link>): nat {
    if switches == [] then 0 else Degree(links, switches[0]) + DegreeSum(switches[1..], links)
  }

  lemma {:induction false} LinkEnds(switches: seq<Switch>, l: Link, rest: seq<Link>)
    requires NoRepeat(switches) && l.0 != l.1
    ensures DegreeSum(switches, [l] + rest) == DegreeSum(switches, rest)
      + (if l.0 in switches then 1 else 0) + (if l.1 in switches then 1 else 0)
  {
    if switches != [] {
      LinkEnds(switches[1..], l, rest);
      assert ([l] + rest)[1..] == rest;
    }
  }

  lemma {:induction false} NoLinksNoDegrees(switches: seq<Switch>)
    ensures DegreeSum(switches, []) == 0
  {
    if switches != [] {
      NoLinksNoDegrees(switches[1..]);
    }
  }

  /** The degrees of all switches sum to twice the number of links. */
  lemma {:induction false} Handshake(switches: seq<Switch>, links: seq<Link>)
    requires NoRepeat(switches) && NoSelfLinks(links) && Within(links, switches)
    ensures DegreeSum(switches, links) == 2 * |links|
  {
    if links == [] {
      NoLinksNoDegrees(switches);
    } else {
      Handshake(switches, links[1..]);
      LinkEnds(switches, links[0], links[1..]);
      assert links == [links[0]] + links[1..];
    }
  }

  lemma {:induction false} DegreeSumBounded(switches: seq<Switch>, links: seq<Link>, ports: nat)
    requires PortsRespected(links, ports)
    ensures DegreeSum(switches, links) <= |switches| * ports
  {
    if switches != [] {
      DegreeSumBounded(switches[1..], links, ports);
      assert Degree(links, switches[0]) <= ports;
      OneMore(|switches[1..]|, ports);
    }
  }

  // --- connectivity ---

  // Links added to one another, and every joined pair stays connected.
  ghost predicate KeepsConnected(before: seq<Link>, after: seq<Link>) {
    forall a, b :: Connected(before, a, b) ==> Connected(after, a, b)
  }

  // --- one splice ---

  // Switch s takes the place of a link: it is joined to both of its ends instead.
  function Splice(links: seq<Link>, s: Switch, l: Link): seq<Link> {
    Removed(links, l) + [(s, l.0), (s, l.1)]
  }

  /** A splice adds one link, gives the spliced switch two more, and leaves the degree of
      every other switch as it was. */
  lemma SpliceDegrees(links: seq<Link>, s: Switch, l: Link, x: Switch)
    requires l in links && l.0 != l.1 && !Touches(l, s)
    ensures |Splice(links, s, l)| == |links| + 1
    ensures Degree(Splice(links, s, l), x) == Degree(links, x) + (if x == s then 2 else 0)
  {
    var a, b := RemovedSplit(links, l);
    DegreeAppend(a, b, x);
    DegreeAppend(a + [l], b, x);
    DegreeAppend(a, [l], x);
    DegreeAppend(a + b, [(s, l.0), (s, l.1)], x);
    DegreeAppend([(s, l.0)], [(s, l.1)], x);
    assert [(s, l.0)] + [(s, l.1)] == [(s, l.0), (s, l.1)];
    DegreeOne(l, x);
    DegreeOne((s, l.0), x);
    DegreeOne((s, l.1), x);
  }

  /** A splice never disconnects connected switches. */
  lemma SpliceConnects(links: seq<Link>, s: Switch, l: Link)
    requires l in links
    ensures KeepsConnected(links, Splice(links, s, l))
  {
    var after := Splice(links, s, l);
    var a, b := RemovedSplit(links, l);
    forall x, y | Joined(links, x, y) ensures Connected(after, x, y) {
      if Joined([l], x, y) {
        assert after[|after| - 2] == (s, l.0) && after[|after| - 1] == (s, l.1);
        assert IsPath(after, [x, s, y]);
      } else {
        JoinedConnected(after, x, y);
      }
    }
    ConnectedKept(links, after);
  }

  lemma DistinctPart(a: seq<Link>, l: Link, b: seq<Link>, i: nat, j: nat)
    requires NoDuplicates(a + [l] + b) && i < j < |a + b|
    ensures (a + b)[i] != (a + b)[j] && (a + b)[i] != ((a + b)[j].1, (a + b)[j].0)
  {
    var i', j' := if i < |a| then i else i + 1, if j < |a| then j else j + 1;
    var all := a + [l] + b;
    assert all[i'] == (a + b)[i] && all[j'] == (a + b)[j];
  }

  lemma SpliceStaysSimple(links: seq<Link>, s: Switch, l: Link)
    requires NoDuplicates(links) && l in links && l.0 != l.1 && !Touches(l, s)
    requires !Joined(links, s, l.0) && !Joined(links, s, l.1)
    ensures NoDuplicates(Splice(links, s, l))
  {
    var a, b := RemovedSplit(links, l);
    var r, n := Splice(links, s, l), |a + b|;
    forall i, j | 0 <= i < j < |r| ensures r[i] != r[j] && r[i] != (r[j].1, r[j].0) {
      if j < n {
        DistinctPart(a, l, b, i, j);
      } else if i < n {
        assert r[i] == (a + b)[i] && r[i] in links;
      }
    }
  }

  // A link other than the removed one is still there, before the two new ones.
  lemma StillThere(links: seq<Link>, s: Switch, l: Link, k: Link) returns (i: nat)
    requires l in links && k in links && k != l
    ensures i + 2 < |Splice(links, s, l)| && Splice(links, s, l)[i] == k
  {
    var a, b := RemovedSplit(links, l);
    var j :| 0 <= j < |links| && links[j] == k;
    i := if j < |a| then j else j - 1;
  }

  /** Only the first loop avoids duplicates: a splice keeps the links free of them exactly when
      the spliced switch was joined to neither end of the link it replaces. */
  lemma SpliceDuplicatesIff(links: seq<Link>, s: Switch, l: Link)
    requires NoDuplicates(links) && NoSelfLinks(links) && l in links && !Touches(l, s)
    ensures NoDuplicates(Splice(links, s, l)) <==> !Joined(links, s, l.0) && !Joined(links, s, l.1)
  {
    var r := Splice(links, s, l);
    if !Joined(links, s, l.0) && !Joined(links, s, l.1) {
      SpliceStaysSimple(links, s, l);
    } else {
      var end := if Joined(links, s, l.0) then l.0 else l.1;
      var k := if (s, end) in links then (s, end) else (end, s);
      var i := StillThere(links, s, l, k);
      assert r[|r| - 2] == (s, l.0) && r[|r| - 1] == (s, l.1);
    }
  }

  lemma SpliceSound(links: seq<Link>, s: Switch, l: Link, switches: seq<Switch>, ports: nat)
    requires Sound(links, switches, ports) && l in links && !Touches(l, s) && s in switches
    requires Degree(links, s) + 2 <= ports
    ensures Sound(Splice(links, s, l), switches, ports)
  {
    var a, b := RemovedSplit(links, l);
    forall x ensures Degree(Splice(links, s, l), x) <= ports {
      SpliceDegrees(links, s, l, x);
    }
    assert forall k :: k in Splice(links, s, l) ==> k in links || k == (s, l.0) || k == (s, l.1);
  }

  // --- the queries of the class ---

  method CountLinksWithSwitch(s: Switch, links: seq<Link>) returns (count: nat)
    ensures count == Degree(links, s)
  {
    count := 0;
    for n := 0 to |links|
      invariant count + Degree(links[n..], s) == Degree(links, s)
    {
      if Touches(links[n], s) {
        count := count + 1;
      }
    }
  }

  method NotFullyConnected(switches: seq<Switch>, links: seq<Link>) returns (missing: bool)
    ensures missing <==> exists i, j :: 0 <= i < j < |switches| && !Joined(links, switches[i], switches[j])
  {
    for i := 0 to |switches|
      invariant forall a, b :: 0 <= a < i && a < b < |switches| ==> Joined(links, switches[a], switches[b])
    {
      for j := i + 1 to |switches|
        invariant forall b :: i < b < j ==> Joined(links, switches[i], switches[b])
      {
        if (switches[i], switches[j]) !in links && (switches[j], switches[i]) !in links {
          return true;
        }
      }
    }
    missing := false;
  }

  // Linked to every other listed switch, in both directions.
  ghost predicate FullyLinked(s: Switch, links: seq<Link>, list: seq<Switch>) {
    forall t :: t in list && t != s ==> (s, t) in links && (t, s) in links
  }

  method SwitchIsFullyConnected(s: Switch, links: seq<Link>, switches: seq<Switch>) returns (full: bool)
    ensures full <==> FullyLinked(s, links, switches)
  {
    for n := 0 to |switches|
      invariant forall k :: 0 <= k < n && switches[k] != s ==> (s, switches[k]) in links && (switches[k], s) in links
    {
      if switches[n] == s {
        continue;
      }
      if (s, switches[n]) !in links || (switches[n], s) !in links {
        return false;
      }
    }
    full := true;
  }

  /** Links are made in one direction only, so while none is duplicated a switch counts as fully
      connected exactly when no other switch is listed. */
  lemma FullyLinkedIffAlone(s: Switch, links: seq<Link>, list: seq<Switch>)
    requires NoDuplicates(links)
    ensures FullyLinked(s, links, list) <==> forall t :: t in list ==> t == s
  {
  }
}
