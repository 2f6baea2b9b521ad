// TreeTopo of topolib.py: a switch tree of a given depth and fanout with hosts at the
// leaves, and one further host on every switch.
module TreeTopo {
  import opened Arithmetic
  import opened LinkGraph

  // Node names: s1, s2, ... and h1, h2, ...
  datatype Node = S(num: nat) | H(num: nat)

  type Edge = (Node, Node)

  function Pow(b: nat, e: nat): nat {
    if e == 0 then 1 else b * Pow(b, e - 1)
  }

  // The switches of a tree without its further hosts.
  function SwitchCount(depth: nat, fanout: nat): nat {
    if depth == 0 then 0 else 1 + fanout * SwitchCount(depth - 1, fanout)
  }

  lemma ClosedStep(f: nat, s: nat, p: nat)
    requires f >= 1 && (f - 1) * s == p - 1
    ensures (f - 1) * (1 + f * s) == f * p - 1
  {
    calc {
      (f - 1) * (1 + f * s);
      (f - 1) + f * ((f - 1) * s);
      (f - 1) + f * (p - 1);
      f * p - 1;
    }
  }

  /** Closed form: (fanout - 1) * switches = fanout ^ depth - 1. */
  lemma {:induction false} SwitchCountClosed(depth: nat, fanout: nat)
    requires fanout >= 1
    ensures (fanout - 1) * SwitchCount(depth, fanout) == Pow(fanout, depth) - 1
  {
    if depth > 0 {
      SwitchCountClosed(depth - 1, fanout);
      ClosedStep(fanout, SwitchCount(depth - 1, fanout), Pow(fanout, depth - 1));
    }
  }

  // --- connectedness ---

  lemma ConnectedWithin(before: seq<Edge>, links: seq<Edge>, after: seq<Edge>, a: Node, b: Node)
    requires Connected(links, a, b)
    ensures Connected(before + links + after, a, b)
  {
  }

  // --- trees over a range of names ---

  // Nodes first named while the two counters went from (s0, h0) to (s1, h1).
  ghost predicate Named(n: Node, s0: nat, h0: nat, s1: nat, h1: nat) {
    match n
    case S(k) => s0 <= k < s1
    case H(k) => h0 <= k < h1
  }

  ghost predicate Reaches(links: seq<Edge>, root: Node, s0: nat, h0: nat, s1: nat, h1: nat) {
    forall n :: Named(n, s0, h0, s1, h1) ==> Connected(links, root, n)
  }

  ghost predicate EndsNamed(links: seq<Edge>, s0: nat, h0: nat, s1: nat, h1: nat) {
    forall e :: e in links ==> Named(e.0, s0, h0, s1, h1) && Named(e.1, s0, h0, s1, h1)
  }

  // The named nodes are connected, by one link fewer than there are nodes.
  ghost predicate IsTree(links: seq<Edge>, root: Node, s0: nat, h0: nat, s1: nat, h1: nat) {
    && s0 <= s1 && h0 <= h1
    && Named(root, s0, h0, s1, h1)
    && Reaches(links, root, s0, h0, s1, h1)
    && EndsNamed(links, s0, h0, s1, h1)
    && |links| + 1 == (s1 - s0) + (h1 - h0)
  }

  lemma SwitchIsTree(s: nat, h: nat)
    ensures IsTree([], S(s), s, h, s + 1, h)
  {
    assert IsPath([], [S(s)]);
  }

  lemma HostIsTree(s: nat, h: nat)
    ensures IsTree([], H(h), s, h, s, h + 1)
  {
    assert IsPath([], [H(h)]);
  }

  /** Hanging a finished tree below a node of another one gives a tree of both. */
  lemma Grafted(root: Node, node: Node, child: Node, s0: nat, h0: nat, s1: nat, h1: nat, s2: nat, h2: nat,
                before: seq<Edge>, sub: seq<Edge>)
    requires IsTree(before, root, s0, h0, s1, h1) && Named(node, s0, h0, s1, h1)
    requires IsTree(sub, child, s1, h1, s2, h2)
    ensures IsTree(before + sub + [(node, child)], root, s0, h0, s2, h2)
  {
    var link := [(node, child)];
    var all := before + sub + link;
    assert [] + before + (sub + link) == all;
    forall n | Named(n, s0, h0, s2, h2) ensures Connected(all, root, n) {
      if Named(n, s0, h0, s1, h1) {
        ConnectedWithin([], before, sub + link, root, n);
      } else {
        assert Named(n, s1, h1, s2, h2);
        ConnectedWithin([], before, sub + link, root, node);
        ConnectedWithin(before, sub, link, child, n);
        assert all[|all| - 1] == (node, child);
        JoinedConnected(all, node, child);
        ConnectedTrans(all, root, node, child);
        ConnectedTrans(all, root, child, n);
      }
    }
  }

  // --- the shape: every switch has fanout children, every leaf is depth links below the root ---

  // What a tree of this depth is rooted at, its counters starting from (s, h).
  function RootName(depth: nat, s: nat, h: nat): Node {
    if depth > 0 then S(s) else H(h)
  }

  // The first count branches of S(s) are links to full trees one level less deep.
  ghost predicate Branches(links: seq<Edge>, depth: nat, fanout: nat, s: nat, h: nat, count: nat)
    requires depth > 0
    decreases depth, 1
  {
    forall j :: 0 <= j < count ==> Branch(links, depth, fanout, s, h, j)
  }

  ghost predicate Branch(links: seq<Edge>, depth: nat, fanout: nat, s: nat, h: nat, j: nat)
    requires depth > 0
    decreases depth, 0
  {
    var s', h' := s + 1 + j * SwitchCount(depth - 1, fanout), h + j * Pow(fanout, depth - 1);
    && (S(s), RootName(depth - 1, s', h')) in links
    && FullTree(links, depth - 1, fanout, s', h')
  }

  ghost predicate FullTree(links: seq<Edge>, depth: nat, fanout: nat, s: nat, h: nat)
    decreases depth, 2
  {
    depth > 0 ==> Branches(links, depth, fanout, s, h, fanout)
  }

  lemma {:induction false} BranchKept(links: seq<Edge>, links': seq<Edge>, depth: nat, fanout: nat, s: nat, h: nat,
                                      j: nat)
    requires depth > 0 && Branch(links, depth, fanout, s, h, j) && links <= links'
    ensures Branch(links', depth, fanout, s, h, j)
    decreases depth, 0
  {
    var s', h' := s + 1 + j * SwitchCount(depth - 1, fanout), h + j * Pow(fanout, depth - 1);
    assert FullTree(links, depth - 1, fanout, s', h');
    if depth > 1 {
      BranchesKept(links, links', depth - 1, fanout, s', h', fanout);
    }
  }

  lemma {:induction false} BranchesKept(links: seq<Edge>, links': seq<Edge>, depth: nat, fanout: nat, s: nat, h: nat,
                                        count: nat)
    requires depth > 0 && Branches(links, depth, fanout, s, h, count) && links <= links'
    ensures Branches(links', depth, fanout, s, h, count)
    decreases depth, 1
  {
    forall j | 0 <= j < count ensures Branch(links', depth, fanout, s, h, j) {
      BranchKept(links, links', depth, fanout, s, h, j);
    }
  }

  lemma NoBranches(links: seq<Edge>, depth: nat, fanout: nat, s: nat, h: nat)
    requires depth > 0
    ensures Branches(links, depth, fanout, s, h, 0)
  {
  }

  lemma BranchAdded(links: seq<Edge>, links': seq<Edge>, depth: nat, fanout: nat, s: nat, h: nat, c: nat)
    requires depth > 0 && Branches(links, depth, fanout, s, h, c) && links <= links'
    requires Branch(links', depth, fanout, s, h, c)
    ensures Branches(links', depth, fanout, s, h, c + 1)
  {
    BranchesKept(links, links', depth, fanout, s, h, c);
  }

  lemma GraftIsBranch(links: seq<Edge>, depth: nat, fanout: nat, s: nat, h: nat, c: nat, s': nat, h': nat)
    requires depth > 0
    requires s' == s + 1 + c * SwitchCount(depth - 1, fanout) && h' == h + c * Pow(fanout, depth - 1)
    requires FullTree(links, depth - 1, fanout, s', h')
    ensures Branch(links + [(S(s), RootName(depth - 1, s', h'))], depth, fanout, s, h, c)
  {
    var links' := links + [(S(s), RootName(depth - 1, s', h'))];
    assert links'[|links|] == (S(s), RootName(depth - 1, s', h'));
    if depth > 1 {
      BranchesKept(links, links', depth - 1, fanout, s', h', fanout);
    }
  }

  class Topology {
    var hostNum: nat
    var switchNum: nat
    var switches: seq<Node>
    var hosts: seq<Node>
    var links: seq<Edge>

    // s1, s2, ... and h1, h2, ... have been added, each once, in order.
    ghost predicate Valid()
      reads this
    {
      && switchNum == |switches| + 1 && hostNum == |hosts| + 1
      && (forall i :: 0 <= i < |switches| ==> switches[i] == S(i + 1))
      && (forall i :: 0 <= i < |hosts| ==> hosts[i] == H(i + 1))
    }

    // __init__: the counters, the tree, and then the further hosts
    constructor (depth: nat, fanout: nat)
      ensures Valid()
      ensures |switches| == SwitchCount(depth, fanout)
      ensures |hosts| == Pow(fanout, depth) + SwitchCount(depth, fanout)
      ensures IsTree(links, RootName(depth, 1, 1), 1, 1, switchNum, hostNum)
      ensures FullTree(links, depth, fanout, 1, 1)
      ensures Hosted(switches, hosts, links)
    {
      hostNum, switchNum, switches, hosts, links := 1, 1, [], [], [];
      new;
      var root := AddTree(depth, fanout);
      assert links[0..] == links;
      ghost var tree := links;
      AddHosts(root);
      if depth > 0 {
        BranchesKept(tree, links, depth, fanout, 1, 1, fanout);
      }
    }

    method AddSwitch() returns (n: Node)
      requires Valid()
      modifies this`switches, this`switchNum
      ensures Valid() && n == S(old(switchNum)) && switches == old(switches) + [n]
    {
      n := S(switchNum);
      switches := switches + [n];
      switchNum := switchNum + 1;
    }

    method AddHost() returns (n: Node)
      requires Valid()
      modifies this`hosts, this`hostNum
      ensures Valid() && n == H(old(hostNum)) && hosts == old(hosts) + [n]
    {
      n := H(hostNum);
      hosts := hosts + [n];
      hostNum := hostNum + 1;
    }

    /** One subtree: SwitchCount switches, fanout ^ depth leaf hosts, and the links of a tree. */
    method AddTree(depth: nat, fanout: nat) returns (node: Node)
      requires Valid()
      modifies this
      ensures Valid() && old(switches) <= switches && old(hosts) <= hosts && old(links) <= links
      ensures node == RootName(depth, old(switchNum), old(hostNum))
      ensures switchNum == old(switchNum) + SwitchCount(depth, fanout)
      ensures hostNum == old(hostNum) + Pow(fanout, depth)
      ensures IsTree(links[|old(links)|..], node, old(switchNum), old(hostNum), switchNum, hostNum)
      ensures FullTree(links, depth, fanout, old(switchNum), old(hostNum))
      decreases depth
    {
      hide IsTree, Branches, Branch;
      ghost var s0, h0, links0 := switchNum, hostNum, links;
      if depth > 0 {
        ghost var sc, hc := SwitchCount(depth - 1, fanout), Pow(fanout, depth - 1);
        node := AddSwitch();
        SwitchIsTree(s0, h0);
        assert links[|links0|..] == [];
        NoBranches(links, depth, fanout, s0, h0);
        for c := 0 to fanout
          invariant Valid() && old(switches) <= switches && old(hosts) <= hosts && links0 <= links
          invariant s0 < switchNum
          invariant switchNum == s0 + 1 + c * sc && hostNum == h0 + c * hc
          invariant IsTree(links[|links0|..], node, s0, h0, switchNum, hostNum)
          invariant Branches(links, depth, fanout, s0, h0, c)
        {
          ghost var s1, h1, links1 := switchNum, hostNum, links;
          var child := AddTree(depth - 1, fanout);
          ghost var linksSub := links;
          ghost var before, sub := links1[|links0|..], links[|links1|..];
          links := links + [(node, child)];
          Grafted(node, node, child, s0, h0, s1, h1, switchNum, hostNum, before, sub);
          assert links[|links0|..] == before + sub + [(node, child)];
          GraftIsBranch(linksSub, depth, fanout, s0, h0, c, s1, h1);
          BranchAdded(links1, links, depth, fanout, s0, h0, c);
          OneMore(c, sc);
          OneMore(c, hc);
        }
      } else {
        node := AddHost();
        HostIsTree(s0, h0);
        assert links[|links0|..] == [];
      }
    }

    // The loop body of addHosts: a further host on one switch.
    method HangHost(switch: Node, ghost root: Node) returns (host: Node)
      requires Valid() && switch in switches
      requires IsTree(links, root, 1, 1, switchNum, hostNum)
      modifies this`hosts, this`hostNum, this`links
      ensures Valid() && hosts == old(hosts) + [host] && links == old(links) + [(switch, host)]
      ensures IsTree(links, root, 1, 1, switchNum, hostNum)
    {
      host := AddHost();
      links := links + [(switch, host)];
      HostIsTree(switchNum, old(hostNum));
      Grafted(root, switch, host, 1, 1, switchNum, old(hostNum), switchNum, hostNum, old(links), []);
      assert old(links) + [] == old(links);
    }

    /** One further host on every switch; a tree stays a tree. */
    method AddHosts(ghost root: Node)
      requires Valid()
      requires IsTree(links, root, 1, 1, switchNum, hostNum)
      modifies this`hosts, this`hostNum, this`links
      ensures Valid() && |hosts| == old(|hosts|) + |switches|
      ensures IsTree(links, root, 1, 1, switchNum, hostNum)
      ensures Hosted(switches, hosts, links) && old(links) <= links
    {
      hide IsTree, Hosted;
      HostedNone(hosts, links);
      assert switches[..0] == [];
      for i := 0 to |switches|
        invariant Valid() && |hosts| == old(|hosts|) + i && old(links) <= links
        invariant IsTree(links, root, 1, 1, switchNum, hostNum)
        invariant Hosted(switches[..i], hosts, links)
      {
        ghost var hosts1, links1 := hosts, links;
        var host := HangHost(switches[i], root);
        HostedMore(switches[..i], switches[i], hosts1, host, links1);
        assert switches[..i + 1] == switches[..i] + [switches[i]];
      }
      assert switches[..|switches|] == switches;
    }
  }

  // Every one of these switches has a host of its own.
  ghost predicate Hosted(switches: seq<Node>, hosts: seq<Node>, links: seq<Edge>) {
    forall s :: s in switches ==> exists h :: h in hosts && (s, h) in links
  }

  lemma HostedNone(hosts: seq<Node>, links: seq<Edge>)
    ensures Hosted([], hosts, links)
  {
  }

  lemma HostedMore(switches: seq<Node>, s: Node, hosts: seq<Node>, h: Node, links: seq<Edge>)
    requires Hosted(switches, hosts, links)
    ensures Hosted(switches + [s], hosts + [h], links + [(s, h)])
  {
  }
}
