// FatTreeTopo of dctopo.py: node identifiers, stateless port numbers, and the loops that
// build the three switch layers and the hosts.
module FatTree {
  import opened Arithmetic
  import opened Options
  import opened Sequences

  datatype Layer = Core | Agg | Edge | Host

  // A node name pod_sw_host.
  datatype Id = Id(pod: nat, sw: nat, host: nat)

  type Link = (Id, Id)

  function Half(k: nat): nat { k / 2 }

  // --- dpids ---

  function Dpid(id: Id): nat {
    id.pod * 0x10000 + id.sw * 0x100 + id.host
  }

  // The three masks and shifts of FatTreeNodeID.__init__
  function OfDpid(dpid: nat): Id {
    Id(dpid / 0x10000 % 0x100, dpid / 0x100 % 0x100, dpid % 0x100)
  }

  /** Decoding undoes encoding exactly when every field fits a byte. */
  lemma DpidRoundTripIff(id: Id)
    ensures OfDpid(Dpid(id)) == id <==> id.pod < 0x100 && id.sw < 0x100 && id.host < 0x100
  {
    var d := Dpid(id);
    if id.pod < 0x100 && id.sw < 0x100 && id.host < 0x100 {
      assert d % 0x100 == id.host;
      assert d / 0x100 == id.pod * 0x100 + id.sw;
      assert d / 0x10000 == id.pod;
    }
  }

  // --- what belongs to the topology ---

  // The layer of a node of the tree of switch degree k.
  function LayerOf(k: nat, id: Id): Option<Layer> {
    var h := Half(k);
    if id.pod == k && 1 <= id.sw <= k - h && 1 <= id.host <= h then Some(Core)
    else if id.pod < k && h <= id.sw < k && id.host == 1 && h > 0 then Some(Agg)
    else if id.pod < k && id.sw < h && id.host == 1 then Some(Edge)
    else if id.pod < k && id.sw < h && 2 <= id.host < h + 2 then Some(Host)
    else None
  }

  // The links made for edge switch e of pod p: to its hosts and to the pod's aggregation switches.
  predicate EdgeLink(k: nat, p: nat, e: nat, l: Link) {
    HostLink(k, p, e, l) || AggLink(k, p, e, l)
  }

  predicate HostLink(k: nat, p: nat, e: nat, l: Link) {
    l.1 == Id(p, e, 1) && l.0.pod == p && l.0.sw == e && 2 <= l.0.host < Half(k) + 2
  }

  predicate AggLink(k: nat, p: nat, e: nat, l: Link) {
    l.0 == Id(p, e, 1) && l.1.pod == p && Half(k) <= l.1.sw < k && l.1.host == 1
  }

  // The links made for aggregation switch a of pod p: to a row of core switches.
  predicate UpLink(k: nat, p: nat, a: nat, l: Link) {
    l.1 == Id(p, a, 1) && l.0.pod == k && l.0.sw == a - Half(k) + 1 && 1 <= l.0.host <= Half(k)
  }

  predicate IsLink(k: nat, l: Link) {
    var p := l.1.pod;
    && p < k
    && ((l.0.sw < Half(k) && EdgeLink(k, p, l.0.sw, l)) || (Half(k) <= l.1.sw < k && UpLink(k, p, l.1.sw, l)))
  }

  predicate Neighbours(k: nat, a: Id, b: Id) {
    IsLink(k, (a, b)) || IsLink(k, (b, a))
  }

  /** Links join nodes of adjoining layers, and no link is made in both directions. */
  lemma LinkLayers(k: nat, l: Link)
    requires IsLink(k, l)
    ensures !IsLink(k, (l.1, l.0))
    ensures (LayerOf(k, l.0), LayerOf(k, l.1)) in {
      (Some(Host), Some(Edge)), (Some(Edge), Some(Agg)), (Some(Core), Some(Agg)) }
  {
  }

  // --- ports ---

  // port: the port numbers at both ends, or None where the source raises
  function Port(k: nat, src: Id, srcLayer: Layer, dst: Id, dstLayer: Layer): Option<(int, int)> {
    var raw :=
      match (srcLayer, dstLayer)
      case (Host, Edge) => Some((0, (src.host - 2) * 2 + 1))
      case (Edge, Core) => Some(((dst.sw - 2) * 2, src.pod))
      case (Edge, Agg) => Some(((dst.sw - Half(k)) * 2, src.sw * 2 + 1))
      case (Agg, Core) => Some(((dst.host - 1) * 2, src.pod))
      case (Core, Agg) => Some((dst.pod, (src.host - 1) * 2))
      case (Agg, Edge) => Some((dst.sw * 2 + 1, (src.sw - Half(k)) * 2))
      case (Core, Edge) => Some((dst.pod, (src.sw - 2) * 2))
      case (Edge, Host) => Some(((dst.host - 2) * 2 + 1, 0))
      case _ => None;
    if raw.None? then None
    else
      Some((if srcLayer != Host then raw.value.0 + 1 else raw.value.0,
            if dstLayer != Host then raw.value.1 + 1 else raw.value.1))
  }

  // The first component for two nodes of the topology.
  function PortTo(k: nat, a: Id, b: Id): int
    requires Neighbours(k, a, b)
  {
    LinkLayers(k, if IsLink(k, (a, b)) then (a, b) else (b, a));
    Port(k, a, LayerOf(k, a).value, b, LayerOf(k, b).value).value.0
  }

  predicate IsPortUp(port: int) {
    port % 2 == 1
  }

  /** Exchanging the ends exchanges the port numbers, for any two nodes and layers at all. */
  lemma PortMirrors(k: nat, a: Id, la: Layer, b: Id, lb: Layer)
    ensures var there, back := Port(k, a, la, b, lb), Port(k, b, lb, a, la);
      && there.None? == back.None?
      && (there.Some? ==> there.value.0 == back.value.1 && there.value.1 == back.value.0)
  {
  }

  // The node behind port q of a switch: the inverse of PortTo.
  function Behind(k: nat, s: Id, q: nat): Id
    requires q >= 1
  {
    match LayerOf(k, s)
    case Some(Core) => Id(q - 1, s.sw + Half(k) - 1, 1)
    case Some(Agg) => if q % 2 == 1 then Id(k, s.sw - Half(k) + 1, (q - 1) / 2 + 1) else Id(s.pod, (q - 2) / 2, 1)
    case Some(Edge) => if q % 2 == 1 then Id(s.pod, (q - 1) / 2 + Half(k), 1) else Id(s.pod, s.sw, (q - 2) / 2 + 2)
    case _ => Id(s.pod, s.sw, 1)
  }

  // How many ports of a switch are in use.
  function Degree(k: nat, s: Id): nat {
    match LayerOf(k, s)
    case Some(Agg) => 2 * Half(k)
    case Some(Host) => 1
    case None => 0
    case _ => k
  }

  predicate IsSwitch(k: nat, s: Id) {
    LayerOf(k, s) in { Some(Core), Some(Agg), Some(Edge) }
  }

  lemma PortHasNode(k: nat, s: Id, q: nat)
    requires IsSwitch(k, s) && 1 <= q <= Degree(k, s)
    ensures Neighbours(k, s, Behind(k, s, q)) && PortTo(k, s, Behind(k, s, q)) == q
  {
  }

  lemma NodeHasPort(k: nat, s: Id, n: Id)
    requires IsSwitch(k, s) && Neighbours(k, s, n)
    ensures 1 <= PortTo(k, s, n) <= Degree(k, s) && Behind(k, s, PortTo(k, s, n)) == n
  {
  }

  /** At every switch, PortTo and Behind are inverse to each other between its neighbours and 1 .. Degree. */
  lemma PortsAreBijective(k: nat, s: Id)
    requires IsSwitch(k, s)
    ensures forall q: nat :: 1 <= q <= Degree(k, s) ==>
      Neighbours(k, s, Behind(k, s, q)) && PortTo(k, s, Behind(k, s, q)) == q
    ensures forall n :: Neighbours(k, s, n) ==>
      1 <= PortTo(k, s, n) <= Degree(k, s) && Behind(k, s, PortTo(k, s, n)) == n
  {
    forall q: nat | 1 <= q <= Degree(k, s)
      ensures Neighbours(k, s, Behind(k, s, q)) && PortTo(k, s, Behind(k, s, q)) == q
    {
      PortHasNode(k, s, q);
    }
    forall n | Neighbours(k, s, n)
      ensures 1 <= PortTo(k, s, n) <= Degree(k, s) && Behind(k, s, PortTo(k, s, n)) == n
    {
      NodeHasPort(k, s, n);
    }
  }

  function BehindFirst(k: nat, s: Id, j: nat): set<Id> {
    set q: nat | 1 <= q <= j :: Behind(k, s, q)
  }

  lemma {:induction false} BehindFirstSize(k: nat, s: Id, j: nat)
    requires IsSwitch(k, s) && j <= Degree(k, s)
    ensures |BehindFirst(k, s, j)| == j
  {
    hide Behind, IsSwitch, Degree, Neighbours, PortTo;
    if j > 0 {
      BehindFirstSize(k, s, j - 1);
      assert BehindFirst(k, s, j) == BehindFirst(k, s, j - 1) + {Behind(k, s, j)};
      forall q: nat | 1 <= q < j ensures Behind(k, s, q) != Behind(k, s, j) {
        PortHasNode(k, s, q);
        PortHasNode(k, s, j);
      }
    }
  }

  /** A switch has exactly Degree neighbours. */
  lemma DegreeCounts(k: nat, s: Id, ns: set<Id>)
    requires IsSwitch(k, s) && forall n :: n in ns <==> Neighbours(k, s, n)
    ensures |ns| == Degree(k, s)
  {
    hide Behind, IsSwitch, Degree, Neighbours, PortTo;
    PortsAreBijective(k, s);
    BehindFirstSize(k, s, Degree(k, s));
    forall n | n in ns ensures n in BehindFirst(k, s, Degree(k, s)) {
      var q: nat := PortTo(k, s, n);
      assert 1 <= q <= Degree(k, s) && Behind(k, s, q) == n;
    }
    assert ns == BehindFirst(k, s, Degree(k, s));
  }

  /** Every switch uses all of its ports 1 .. k exactly when k is even. */
  lemma PortsFilledIffEven(k: nat)
    requires k >= 2
    ensures (forall s :: IsSwitch(k, s) ==> Degree(k, s) == k) <==> k % 2 == 0
  {
    var agg := Id(0, Half(k), 1);
    assert LayerOf(k, agg) == Some(Agg);
    assert IsSwitch(k, agg);
  }

  /** At edge and aggregation switches the odd ports are those that lead one layer up. */
  lemma PortUpIffHigher(k: nat, s: Id, n: Id)
    requires LayerOf(k, s) in { Some(Agg), Some(Edge) } && Neighbours(k, s, n)
    ensures IsPortUp(PortTo(k, s, n)) <==>
      LayerOf(k, n) == if LayerOf(k, s) == Some(Edge) then Some(Agg) else Some(Core)
  {
  }

  // --- the builder ---

  // Nodes named in the pass over edge switch e of pod p: the switch, its hosts, the pod's aggregation switches.
  predicate EdgeNode(k: nat, p: nat, e: nat, n: Id) {
    n.pod == p && ((n.sw == e && 1 <= n.host < Half(k) + 2) || (Half(k) <= n.sw < k && n.host == 1))
  }

  // Nodes named in the pass over aggregation switch a: its row of core switches.
  predicate UpNode(k: nat, a: nat, n: Id) {
    n.pod == k && n.sw == a - Half(k) + 1 && 1 <= n.host <= Half(k)
  }

  class Topo {
    const k: nat
    var nodes: map<Id, Layer>
    var links: seq<Link>

    // No node is filed under two layers and no link is made twice.
    ghost predicate Valid()
      reads this
    {
      && (forall n :: n in nodes ==> LayerOf(k, n) == Some(nodes[n]))
      && (forall l :: l in links ==> IsLink(k, l))
      && NoRepeat(links)
    }

    // addSwitch and addHost; naming a known node again changes nothing
    method AddNode(n: Id, layer: Layer)
      requires Valid() && LayerOf(k, n) == Some(layer)
      modifies this`nodes
      ensures Valid() && nodes.Keys == old(nodes.Keys) + {n}
    {
      nodes := nodes[n := layer];
    }

    method AddLink(a: Id, b: Id)
      requires Valid() && IsLink(k, (a, b)) && (a, b) !in links
      modifies this`links
      ensures Valid() && links == old(links) + [(a, b)]
    {
      links := links + [(a, b)];
    }

    // The pass over edge switch e of pod p.
    method AddEdge(p: nat, e: nat)
      requires Valid() && p < k && e < Half(k)
      requires forall l :: l in links ==> !EdgeLink(k, p, e, l)
      modifies this
      ensures Valid() && |links| == old(|links|) + k
      ensures forall n :: n in nodes <==> n in old(nodes) || EdgeNode(k, p, e, n)
      ensures forall l :: l in links <==> l in old(links) || EdgeLink(k, p, e, l)
    {
      AddNode(Id(p, e, 1), Edge);
      AddHosts(p, e);
      AddAggs(p, e);
    }

    method AddHosts(p: nat, e: nat)
      requires Valid() && p < k && e < Half(k)
      requires forall l :: l in links ==> !HostLink(k, p, e, l)
      modifies this
      ensures Valid() && |links| == old(|links|) + Half(k)
      ensures forall n :: n in nodes <==>
        n in old(nodes) || (n.pod == p && n.sw == e && 2 <= n.host < Half(k) + 2)
      ensures forall l :: l in links <==> l in old(links) || HostLink(k, p, e, l)
    {
      for h := 2 to Half(k) + 2
        invariant Valid() && |links| == old(|links|) + h - 2
        invariant forall n :: n in nodes <==> n in old(nodes) || (n.pod == p && n.sw == e && 2 <= n.host < h)
        invariant forall l :: l in links <==> l in old(links) || (HostLink(k, p, e, l) && l.0.host < h)
      {
        AddNode(Id(p, e, h), Host);
        AddLink(Id(p, e, h), Id(p, e, 1));
      }
    }

    method AddAggs(p: nat, e: nat)
      requires Valid() && p < k && e < Half(k)
      requires forall l :: l in links ==> !AggLink(k, p, e, l)
      modifies this
      ensures Valid() && |links| == old(|links|) + k - Half(k)
      ensures forall n :: n in nodes <==> n in old(nodes) || (n.pod == p && Half(k) <= n.sw < k && n.host == 1)
      ensures forall l :: l in links <==> l in old(links) || AggLink(k, p, e, l)
    {
      for a := Half(k) to k
        invariant Valid() && |links| == old(|links|) + a - Half(k)
        invariant forall n :: n in nodes <==> n in old(nodes) || (n.pod == p && Half(k) <= n.sw < a && n.host == 1)
        invariant forall l :: l in links <==> l in old(links) || (AggLink(k, p, e, l) && l.1.sw < a)
      {
        AddNode(Id(p, a, 1), Agg);
        AddLink(Id(p, e, 1), Id(p, a, 1));
      }
    }

    // The pass over aggregation switch a of pod p.
    method AddUplinks(p: nat, a: nat)
      requires Valid() && p < k && Half(k) <= a < k
      requires forall l :: l in links ==> !UpLink(k, p, a, l)
      modifies this
      ensures Valid() && |links| == old(|links|) + Half(k)
      ensures forall n :: n in nodes <==> n in old(nodes) || UpNode(k, a, n)
      ensures forall l :: l in links <==> l in old(links) || UpLink(k, p, a, l)
    {
      for c := 1 to Half(k) + 1
        invariant Valid() && |links| == old(|links|) + c - 1
        invariant forall n :: n in nodes <==> n in old(nodes) || (UpNode(k, a, n) && n.host < c)
        invariant forall l :: l in links <==> l in old(links) || (UpLink(k, p, a, l) && l.0.host < c)
      {
        AddNode(Id(k, a - Half(k) + 1, c), Core);
        AddLink(Id(k, a - Half(k) + 1, c), Id(p, a, 1));
      }
    }

    // The body of the loop over pods.
    method AddPod(p: nat)
      requires Valid() && p < k
      requires forall l :: l in links ==> l.1.pod < p
      modifies this
      ensures Valid() && |links| == old(|links|) + PodLinks(k)
      ensures forall n :: n in nodes <==> n in old(nodes) || PodNode(k, p, n)
      ensures forall l :: l in links <==> l in old(links) || (l.1.pod == p && IsLink(k, l))
    {
      AddEdges(p);
      AddAllUplinks(p);
    }

    method AddEdges(p: nat)
      requires Valid() && p < k
      requires forall l :: l in links ==> l.1.pod < p
      modifies this
      ensures Valid() && |links| == old(|links|) + Half(k) * k
      ensures forall n :: n in nodes <==> n in old(nodes) || (n.pod == p && LayerOf(k, n).Some?)
      ensures forall l :: l in links <==> l in old(links) || (l.0.sw < Half(k) && EdgeLink(k, p, l.0.sw, l))
    {
      for e := 0 to Half(k)
        invariant Valid() && |links| == old(|links|) + e * k
        invariant forall n :: n in nodes <==>
          n in old(nodes) || (n.pod == p && LayerOf(k, n).Some? && (n.sw < e || (n.sw >= Half(k) && e > 0)))
        invariant forall l :: l in links <==> l in old(links) || (l.0.sw < e && EdgeLink(k, p, l.0.sw, l))
      {
        OneMore(e, k);
        AddEdge(p, e);
      }
    }

    method AddAllUplinks(p: nat)
      requires Valid() && p < k
      requires forall l :: l in links ==> l.1.pod <= p && (l.1.pod == p ==> l.0.pod == p)
      modifies this
      ensures Valid() && |links| == old(|links|) + (k - Half(k)) * Half(k)
      ensures forall n :: n in nodes <==> n in old(nodes) || LayerOf(k, n) == Some(Core)
      ensures forall l :: l in links <==> l in old(links) || (Half(k) <= l.1.sw < k && UpLink(k, p, l.1.sw, l))
    {
      for a := Half(k) to k
        invariant Valid() && |links| == old(|links|) + (a - Half(k)) * Half(k)
        invariant forall n :: n in nodes <==> n in old(nodes) || (LayerOf(k, n) == Some(Core) && n.sw < a - Half(k) + 1)
        invariant forall l :: l in links <==> l in old(links) || (Half(k) <= l.1.sw < a && UpLink(k, p, l.1.sw, l))
      {
        OneMore(a - Half(k), Half(k));
        AddUplinks(p, a);
      }
    }

    /** __init__: exactly the nodes and links of the tree, each link once. */
    constructor (k: nat)
      ensures this.k == k && Valid()
      ensures forall n :: n in nodes <==> LayerOf(k, n).Some?
      ensures forall l :: l in links <==> IsLink(k, l)
      ensures |links| == k * PodLinks(k)
    {
      this.k, nodes, links := k, map[], [];
      new;
      for p := 0 to k
        invariant Valid() && |links| == p * PodLinks(k)
        invariant forall n :: n in nodes <==> LayerOf(k, n).Some? && (n.pod < p || (n.pod == k && p > 0))
        invariant forall l :: l in links <==> l.1.pod < p && IsLink(k, l)
      {
        OneMore(p, PodLinks(k));
        AddPod(p);
      }
    }
  }

  function PodLinks(k: nat): nat {
    Half(k) * k + (k - Half(k)) * Half(k)
  }

  predicate PodNode(k: nat, p: nat, n: Id) {
    LayerOf(k, n).Some? && (n.pod == p || n.pod == k)
  }

  // --- how many of each ---

  function Row(pod: nat, sw: nat, lo: nat, hi: nat): set<Id>
    requires lo <= hi
  {
    set h | lo <= h < hi :: Id(pod, sw, h)
  }

  function Plane(pod: nat, s0: nat, s1: nat, lo: nat, hi: nat): set<Id>
    requires s0 <= s1 && lo <= hi
  {
    set s, h | s0 <= s < s1 && lo <= h < hi :: Id(pod, s, h)
  }

  function Box(pods: nat, s0: nat, s1: nat, lo: nat, hi: nat): set<Id>
    requires s0 <= s1 && lo <= hi
  {
    set p, s, h | 0 <= p < pods && s0 <= s < s1 && lo <= h < hi :: Id(p, s, h)
  }

  lemma {:induction false} RowSize(pod: nat, sw: nat, lo: nat, hi: nat)
    requires lo <= hi
    ensures |Row(pod, sw, lo, hi)| == hi - lo
  {
    if lo < hi {
      RowSize(pod, sw, lo, hi - 1);
      assert Row(pod, sw, lo, hi) == Row(pod, sw, lo, hi - 1) + {Id(pod, sw, hi - 1)};
    }
  }

  lemma {:induction false} PlaneSize(pod: nat, s0: nat, s1: nat, lo: nat, hi: nat)
    requires s0 <= s1 && lo <= hi
    ensures |Plane(pod, s0, s1, lo, hi)| == (s1 - s0) * (hi - lo)
  {
    if s0 < s1 {
      PlaneSize(pod, s0, s1 - 1, lo, hi);
      RowSize(pod, s1 - 1, lo, hi);
      OneMore(s1 - 1 - s0, hi - lo);
      assert Plane(pod, s0, s1, lo, hi) == Plane(pod, s0, s1 - 1, lo, hi) + Row(pod, s1 - 1, lo, hi);
      assert Plane(pod, s0, s1 - 1, lo, hi) !! Row(pod, s1 - 1, lo, hi);
    }
  }

  lemma {:induction false} BoxSize(pods: nat, s0: nat, s1: nat, lo: nat, hi: nat)
    requires s0 <= s1 && lo <= hi
    ensures |Box(pods, s0, s1, lo, hi)| == pods * ((s1 - s0) * (hi - lo))
  {
    if pods > 0 {
      BoxSize(pods - 1, s0, s1, lo, hi);
      PlaneSize(pods - 1, s0, s1, lo, hi);
      OneMore(pods - 1, (s1 - s0) * (hi - lo));
      assert Box(pods, s0, s1, lo, hi) == Box(pods - 1, s0, s1, lo, hi) + Plane(pods - 1, s0, s1, lo, hi);
      assert Box(pods - 1, s0, s1, lo, hi) !! Plane(pods - 1, s0, s1, lo, hi);
    }
  }

  function Layered(nodes: map<Id, Layer>, layer: Layer): set<Id> {
    set n | n in nodes && nodes[n] == layer
  }

  ghost predicate Complete(k: nat, nodes: map<Id, Layer>) {
    && (forall n :: n in nodes <==> LayerOf(k, n).Some?)
    && (forall n :: n in nodes ==> LayerOf(k, n) == Some(nodes[n]))
  }

  /** For even k: k^3 / 4 hosts, k^2 edge and aggregation switches, (k / 2)^2 cores. */
  lemma TreeSizes(k: nat, nodes: map<Id, Layer>)
    requires k % 2 == 0 && Complete(k, nodes)
    ensures 4 * |Layered(nodes, Host)| == k * k * k
    ensures |Layered(nodes, Edge)| + |Layered(nodes, Agg)| == k * k
    ensures 4 * |Layered(nodes, Core)| == k * k
  {
    LayerSizes(k, Half(k), nodes);
    Cubed(k, Half(k));
  }

  lemma Cubed(k: nat, h: nat)
    requires k == 2 * h
    ensures k * k == 4 * (h * h) == k * h + k * h
    ensures k * k * k == 4 * (k * (h * h))
  {
  }

  /** For even k: 3 k^3 / 4 links. */
  lemma LinkTotal(k: nat)
    requires k % 2 == 0
    ensures 4 * (k * PodLinks(k)) == 3 * (k * k * k)
  {
  }

  lemma LayerSizes(k: nat, h: nat, nodes: map<Id, Layer>)
    requires k == 2 * h && Complete(k, nodes)
    ensures |Layered(nodes, Host)| == k * (h * h)
    ensures |Layered(nodes, Edge)| == k * h && |Layered(nodes, Agg)| == k * h
    ensures |Layered(nodes, Core)| == h * h
  {
    BoxSize(k, 0, h, 2, h + 2);
    assert Layered(nodes, Host) == Box(k, 0, h, 2, h + 2);
    BoxSize(k, 0, h, 1, 2);
    assert Layered(nodes, Edge) == Box(k, 0, h, 1, 2);
    BoxSize(k, h, k, 1, 2);
    assert Layered(nodes, Agg) == Box(k, h, k, 1, 2);
    PlaneSize(k, 1, h + 1, 1, h + 1);
    assert Layered(nodes, Core) == Plane(k, 1, h + 1, 1, h + 1);
  }

  /** For k of at least 2: every node decodes from its dpid exactly when k is at most 255. */
  lemma TreeDecodesIff(k: nat)
    requires k >= 2
    ensures (forall n :: LayerOf(k, n).Some? ==> OfDpid(Dpid(n)) == n) <==> k <= 255
  {
    forall n | LayerOf(k, n).Some?
      ensures OfDpid(Dpid(n)) == n <==> n.pod < 0x100 && n.sw < 0x100 && n.host < 0x100
    {
      DpidRoundTripIff(n);
    }
    var core := Id(k, 1, 1);
    assert LayerOf(k, core) == Some(Core);
  }

  /** Up to k = 255 no dpid is 0, which FatTreeNodeID would take for absent, and no two nodes share one. */
  lemma DpidsDistinct(k: nat, a: Id, b: Id)
    requires k <= 255 && LayerOf(k, a).Some? && LayerOf(k, b).Some?
    ensures Dpid(a) != 0
    ensures Dpid(a) == Dpid(b) ==> a == b
  {
  }
}
