// The path engine of l2_multi_slick: walks over the adjacency table, the
// all-pairs table kept in path_map, and the recursive reconstruction of paths.

/** Walks over the inter-switch adjacency table. */
module Graph {
  import opened Sequences

  // One Switch object exists per datapath id.
  datatype Switch = Switch(dpid: nat)

  // adjacency[a][b] is the port of a that leads to b; absent stands for the
  // default value None, which every reader treats alike.
  type Adjacency = map<(Switch, Switch), nat>

  ghost predicate IsWalk(adj: Adjacency, w: seq<Switch>) {
    && |w| > 0
    && forall t :: 0 < t < |w| ==> (w[t - 1], w[t]) in adj
  }

  ghost predicate Joins(adj: Adjacency, w: seq<Switch>, i: Switch, j: Switch) {
    IsWalk(adj, w) && w[0] == i && w[|w| - 1] == j
  }

  // Every node strictly between the endpoints lies in K.
  ghost predicate InteriorIn(w: seq<Switch>, K: set<Switch>) {
    forall t :: 0 < t < |w| - 1 ==> w[t] in K
  }

  // d is the number of links on a shortest walk from i to j.
  ghost predicate IsDistance(adj: Adjacency, i: Switch, j: Switch, d: nat) {
    && (exists w :: Joins(adj, w, i, j) && |w| == d + 1)
    && (forall w :: Joins(adj, w, i, j) ==> |w| >= d + 1)
  }

  ghost predicate Reachable(adj: Adjacency, i: Switch, j: Switch) {
    exists w :: Joins(adj, w, i, j)
  }

  lemma ConcatWalks(adj: Adjacency, u: seq<Switch>, v: seq<Switch>)
    requires IsWalk(adj, u) && IsWalk(adj, v) && u[|u| - 1] == v[0]
    ensures Joins(adj, u + v[1..], u[0], v[|v| - 1])
    ensures |u + v[1..]| == |u| + |v| - 1
  {
  }

  lemma WalkStaysInside(adj: Adjacency, sws: set<Switch>, w: seq<Switch>)
    requires forall i, j :: (i, j) in adj ==> i in sws && j in sws
    requires IsWalk(adj, w) && |w| > 1
    ensures forall t :: 0 <= t < |w| ==> w[t] in sws
  {
    forall t | 0 <= t < |w| ensures w[t] in sws {
      var u := if t == 0 then 1 else t;
      var a, b := w[u - 1], w[u];
      assert (a, b) in adj;
    }
  }

  /** A walk whose length is the distance between its ends visits no switch twice. */
  lemma ShortestIsSimple(adj: Adjacency, w: seq<Switch>)
    requires IsWalk(adj, w) && IsDistance(adj, w[0], w[|w| - 1], |w| - 1)
    ensures NoRepeat(w)
  {
    forall s, t | 0 <= s < t < |w| ensures w[s] != w[t] {
      if w[s] == w[t] {
        var u, v := w[..s + 1], w[t..];
        assert IsWalk(adj, u) && IsWalk(adj, v);
        ConcatWalks(adj, u, v);
        assert false;
      }
    }
  }

  /** Where a walk with interior in K + {k} first meets k, and where it last meets it. */
  lemma FirstAndLastMeeting(w: seq<Switch>, K: set<Switch>, k: Switch) returns (a: nat, b: nat)
    requires InteriorIn(w, K + {k}) && !InteriorIn(w, K)
    ensures 0 < a <= b < |w| - 1 && w[a] == k == w[b]
    ensures InteriorIn(w[..a + 1], K) && InteriorIn(w[b..], K)
  {
    var x :| 0 < x < |w| - 1 && w[x] !in K;
    a := 1;
    while w[a] != k
      invariant 0 < a <= x
      decreases x - a
      invariant forall t :: 0 < t < a ==> w[t] in K
    {
      a := a + 1;
    }
    b := |w| - 2;
    while w[b] != k
      invariant x <= b < |w| - 1
      decreases b
      invariant forall t :: b < t < |w| - 1 ==> w[t] in K
    {
      b := b - 1;
    }
  }
}

/** path_map, the in-place relaxation that fills it, and what the entries mean. */
module PathTable {
  import opened Options
  import opened Sequences
  import opened Graph

  datatype Entry = Entry(dist: nat, via: Option<Switch>)

  // path_map[a][b]; absent stands for the default (None, None).
  type PathMap = map<(Switch, Switch), Entry>

  function Lookup(pm: PathMap, i: Switch, j: Switch): Option<Entry> {
    if (i, j) in pm then Some(pm[(i, j)]) else None
  }

  // The cell (i, j) after trying the detour i -> k -> j once.
  function Relaxed(pm: PathMap, i: Switch, k: Switch, j: Switch): Option<Entry> {
    if (i, k) in pm && (k, j) in pm then
      var ikj := pm[(i, k)].dist + pm[(k, j)].dist;
      if (i, j) !in pm || ikj < pm[(i, j)].dist then Some(Entry(ikj, Some(k))) else Lookup(pm, i, j)
    else Lookup(pm, i, j)
  }

  // What the first loop of _calc_paths leaves: links cost 1, every switch is at
  // distance 0 from itself (a link from a switch to itself is overwritten).
  function InitialCell(adj: Adjacency, sws: set<Switch>, i: Switch, j: Switch): Option<Entry> {
    if i == j && i in sws then Some(Entry(0, None)) else if (i, j) in adj then Some(Entry(1, None)) else None
  }

  // Every cell of `after` is the cell of `before` relaxed through k, all at once.
  ghost predicate RelaxedThrough(before: PathMap, k: Switch, after: PathMap) {
    forall i, j :: Lookup(after, i, j) == Relaxed(before, i, k, j)
  }

  ghost predicate KeysWithin(pm: PathMap, sws: set<Switch>) {
    forall i, j :: (i, j) in pm ==> i in sws && j in sws
  }

  ghost predicate Diagonal(pm: PathMap, sws: set<Switch>) {
    forall k :: k in sws ==> Lookup(pm, k, k) == Some(Entry(0, None))
  }

  // Each recorded distance is the length of an existing walk.
  ghost predicate Realised(adj: Adjacency, pm: PathMap) {
    forall i, j {:trigger Witnessed(adj, i, j, pm[(i, j)].dist)} ::
      (i, j) in pm ==> Witnessed(adj, i, j, pm[(i, j)].dist)
  }

  ghost predicate AtMost(pm: PathMap, i: Switch, j: Switch, links: int) {
    (i, j) in pm && pm[(i, j)].dist <= links
  }

  // No walk through K alone beats the table.
  ghost predicate BoundedBy(adj: Adjacency, pm: PathMap, sws: set<Switch>, K: set<Switch>) {
    forall w, i, j :: Joins(adj, w, i, j) && i in sws && j in sws && InteriorIn(w, K) ==> AtMost(pm, i, j, |w| - 1)
  }

  ghost predicate Witnessed(adj: Adjacency, i: Switch, j: Switch, d: nat) {
    exists w :: Joins(adj, w, i, j) && |w| == d + 1
  }

  // What an entry (i, j) with its intermediate may claim while the table is being filled.
  ghost predicate ViaSound(adj: Adjacency, pm: PathMap, i: Switch, j: Switch)
    requires (i, j) in pm
  {
    match pm[(i, j)].via
    case None => (i == j && pm[(i, j)].dist == 0) || ((i, j) in adj && pm[(i, j)].dist == 1)
    case Some(k) =>
      && i != j && k != i && k != j && (i, k) in pm && (k, j) in pm
      && pm[(i, j)].dist >= pm[(i, k)].dist + pm[(k, j)].dist
  }

  ghost predicate AllViaSound(adj: Adjacency, pm: PathMap) {
    forall i, j {:trigger ViaSound(adj, pm, i, j)} :: (i, j) in pm ==> ViaSound(adj, pm, i, j)
  }

  ghost predicate ProgressInv(adj: Adjacency, sws: set<Switch>, pm: PathMap, K: set<Switch>) {
    && KeysWithin(pm, sws) && Diagonal(pm, sws)
    && Realised(adj, pm) && BoundedBy(adj, pm, sws, K) && AllViaSound(adj, pm)
  }

  // An entry is the length of a shortest walk, and a recorded intermediate
  // splits it into two shorter entries.
  ghost predicate EntryExact(adj: Adjacency, pm: PathMap, i: Switch, j: Switch)
    requires (i, j) in pm
  {
    && IsDistance(adj, i, j, pm[(i, j)].dist)
    && match pm[(i, j)].via
       case None => (i, j) in adj && pm[(i, j)].dist == 1
       case Some(k) =>
         && k != i && k != j && (i, k) in pm && (k, j) in pm
         && 0 < pm[(i, k)].dist && 0 < pm[(k, j)].dist
         && pm[(i, j)].dist == pm[(i, k)].dist + pm[(k, j)].dist
  }

  // The meaning of a filled path_map: an entry for exactly the connected pairs
  // of distinct switches, each of them exact.
  ghost predicate Exact(adj: Adjacency, pm: PathMap) {
    && (forall i, j {:trigger EntryExact(adj, pm, i, j)} :: (i, j) in pm && i != j ==> EntryExact(adj, pm, i, j))
    && (forall i, j {:trigger Reachable(adj, i, j)} :: i != j && Reachable(adj, i, j) ==> (i, j) in pm)
  }

  lemma InitialProgress(adj: Adjacency, sws: set<Switch>, pm: PathMap)
    requires forall i, j :: (i, j) in adj ==> i in sws && j in sws
    requires forall i, j :: Lookup(pm, i, j) == InitialCell(adj, sws, i, j)
    ensures ProgressInv(adj, sws, pm, {})
  {
    forall i, j | (i, j) in pm
      ensures i in sws && j in sws && ViaSound(adj, pm, i, j) && Witnessed(adj, i, j, pm[(i, j)].dist)
    {
      assert Lookup(pm, i, j).Some?;
      assert Joins(adj, if i == j then [i] else [i, j], i, j);
    }
    forall w, i, j | Joins(adj, w, i, j) && i in sws && InteriorIn(w, {}) ensures AtMost(pm, i, j, |w| - 1) {
      if |w| > 1 {
        var a, b := w[0], w[1];
        assert (a, b) in adj;
        assert |w| == 2;
      }
      assert Lookup(pm, i, j).Some?;
    }
  }

  /** Relaxing every cell through k admits k as an interior node. */
  lemma RelaxStep(adj: Adjacency, sws: set<Switch>, pm: PathMap, K: set<Switch>, k: Switch, pm': PathMap)
    requires ProgressInv(adj, sws, pm, K) && k in sws && RelaxedThrough(pm, k, pm')
    ensures ProgressInv(adj, sws, pm', K + {k})
  {
    RelaxKeepsShape(adj, sws, pm, k, pm');
    RelaxRealised(adj, pm, k, pm');
    forall w, i, j | Joins(adj, w, i, j) && i in sws && j in sws && InteriorIn(w, K + {k})
      ensures AtMost(pm', i, j, |w| - 1)
    {
      RelaxBounds(adj, sws, pm, K, k, pm', w);
    }
  }

  lemma RelaxBounds(adj: Adjacency, sws: set<Switch>, pm: PathMap, K: set<Switch>, k: Switch, pm': PathMap,
                    w: seq<Switch>)
    requires BoundedBy(adj, pm, sws, K) && k in sws && RelaxedThrough(pm, k, pm')
    requires IsWalk(adj, w) && w[0] in sws && w[|w| - 1] in sws && InteriorIn(w, K + {k})
    ensures AtMost(pm', w[0], w[|w| - 1], |w| - 1)
  {
    var i, j := w[0], w[|w| - 1];
    assert Lookup(pm', i, j) == Relaxed(pm, i, k, j);
    if InteriorIn(w, K) {
      assert Joins(adj, w, i, j);
    } else {
      var a, b := FirstAndLastMeeting(w, K, k);
      assert Joins(adj, w[..a + 1], i, k);
      assert Joins(adj, w[b..], k, j);
      assert AtMost(pm, i, k, a) && AtMost(pm, k, j, |w| - 1 - b);
    }
  }

  lemma RelaxKeepsShape(adj: Adjacency, sws: set<Switch>, pm: PathMap, k: Switch, pm': PathMap)
    requires KeysWithin(pm, sws) && Diagonal(pm, sws) && AllViaSound(adj, pm) && k in sws
    requires RelaxedThrough(pm, k, pm')
    ensures KeysWithin(pm', sws) && Diagonal(pm', sws) && AllViaSound(adj, pm')
  {
    forall i, j | (i, j) in pm' ensures i in sws && j in sws {
      assert Lookup(pm', i, j) == Relaxed(pm, i, k, j);
    }
    forall i | i in sws ensures Lookup(pm', i, i) == Some(Entry(0, None)) {
      assert Lookup(pm', i, i) == Relaxed(pm, i, k, i);
      assert Lookup(pm, i, i) == Some(Entry(0, None));
    }
    forall i, j | (i, j) in pm' ensures ViaSound(adj, pm', i, j) {
      RelaxKeepsVia(adj, sws, pm, k, pm', i, j);
    }
  }

  lemma RelaxKeepsVia(adj: Adjacency, sws: set<Switch>, pm: PathMap, k: Switch, pm': PathMap, i: Switch, j: Switch)
    requires KeysWithin(pm, sws) && Diagonal(pm, sws) && AllViaSound(adj, pm) && k in sws
    requires RelaxedThrough(pm, k, pm') && (i, j) in pm'
    ensures ViaSound(adj, pm', i, j)
  {
    assert Lookup(pm, k, k) == Some(Entry(0, None));
    assert i in sws ==> Lookup(pm, i, i) == Some(Entry(0, None));
    assert Lookup(pm', i, j) == Relaxed(pm, i, k, j);
    assert Lookup(pm', i, k) == Relaxed(pm, i, k, k);
    assert Lookup(pm', k, j) == Relaxed(pm, k, k, j);
    if Lookup(pm', i, j) == Lookup(pm, i, j) {
      assert ViaSound(adj, pm, i, j);
      if pm[(i, j)].via.Some? {
        var m := pm[(i, j)].via.value;
        assert Lookup(pm', i, m) == Relaxed(pm, i, k, m);
        assert Lookup(pm', m, j) == Relaxed(pm, m, k, j);
      }
    }
  }

  lemma RelaxRealised(adj: Adjacency, pm: PathMap, k: Switch, pm': PathMap)
    requires Realised(adj, pm) && RelaxedThrough(pm, k, pm')
    ensures Realised(adj, pm')
  {
    forall i, j | (i, j) in pm' ensures Witnessed(adj, i, j, pm'[(i, j)].dist) {
      assert Lookup(pm', i, j) == Relaxed(pm, i, k, j);
      if Lookup(pm', i, j) == Lookup(pm, i, j) {
        assert Witnessed(adj, i, j, pm[(i, j)].dist);
      } else {
        DetourWitnessed(adj, pm, i, k, j);
      }
    }
  }

  // The walks behind two entries that meet in k give a walk for their sum.
  lemma DetourWitnessed(adj: Adjacency, pm: PathMap, i: Switch, k: Switch, j: Switch)
    requires Realised(adj, pm) && (i, k) in pm && (k, j) in pm
    ensures Witnessed(adj, i, j, pm[(i, k)].dist + pm[(k, j)].dist)
    ensures i != k ==> pm[(i, k)].dist > 0
  {
    assert Witnessed(adj, i, k, pm[(i, k)].dist) && Witnessed(adj, k, j, pm[(k, j)].dist);
    var u :| Joins(adj, u, i, k) && |u| == pm[(i, k)].dist + 1;
    var v :| Joins(adj, v, k, j) && |v| == pm[(k, j)].dist + 1;
    ConcatWalks(adj, u, v);
    assert Joins(adj, u + v[1..], i, j);
  }

  lemma FinishedEntry(adj: Adjacency, sws: set<Switch>, pm: PathMap, i: Switch, j: Switch)
    requires ProgressInv(adj, sws, pm, sws) && (i, j) in pm && i != j
    requires forall w :: Joins(adj, w, i, j) ==> AtMost(pm, i, j, |w| - 1)
    ensures EntryExact(adj, pm, i, j)
  {
    assert Witnessed(adj, i, j, pm[(i, j)].dist) && ViaSound(adj, pm, i, j);
    if pm[(i, j)].via.Some? {
      var k := pm[(i, j)].via.value;
      assert j in sws && Lookup(pm, j, j) == Some(Entry(0, None));
      DetourWitnessed(adj, pm, i, k, j);
      DetourWitnessed(adj, pm, k, j, j);
    }
  }

  /** Once every switch has served as intermediate, the table is exact. */
  lemma FinishedIsExact(adj: Adjacency, sws: set<Switch>, pm: PathMap)
    requires forall i, j :: (i, j) in adj ==> i in sws && j in sws
    requires ProgressInv(adj, sws, pm, sws)
    ensures Exact(adj, pm)
  {
    forall w, i, j | Joins(adj, w, i, j) && i != j ensures AtMost(pm, i, j, |w| - 1) {
      WalkStaysInside(adj, sws, w);
    }
    forall i, j | (i, j) in pm && i != j ensures EntryExact(adj, pm, i, j) {
      FinishedEntry(adj, sws, pm, i, j);
    }
    forall i, j | i != j && Reachable(adj, i, j) ensures (i, j) in pm {
      var w :| Joins(adj, w, i, j);
      assert AtMost(pm, i, j, |w| - 1);
    }
  }

  /** The switches strictly between i and j on the recorded path, or None if there is no path.
      The recursion descends to two strictly shorter recorded distances. */
  function RawPath(adj: Adjacency, pm: PathMap, i: Switch, j: Switch): (r: Option<seq<Switch>>)
    requires Exact(adj, pm)
    ensures r.None? <==> i != j && !Reachable(adj, i, j)
    ensures r.Some? && i != j ==> (i, j) in pm && |r.value| + 1 == pm[(i, j)].dist
    decreases if (i, j) in pm then pm[(i, j)].dist else 0
  {
    if i == j then Some([])
    else if (i, j) !in pm then None
    else
      assert EntryExact(adj, pm, i, j);
      match pm[(i, j)].via
      case None => Some([])
      case Some(k) =>
        Some(RawPath(adj, pm, i, k).value + [k] + RawPath(adj, pm, k, j).value)
  }

  lemma JoinAt(adj: Adjacency, i: Switch, x: seq<Switch>, k: Switch, y: seq<Switch>, j: Switch)
    requires Joins(adj, [i] + x + [k], i, k) && Joins(adj, [k] + y + [j], k, j)
    ensures Joins(adj, [i] + (x + [k] + y) + [j], i, j)
  {
    ConcatWalks(adj, [i] + x + [k], [k] + y + [j]);
    assert [i] + (x + [k] + y) + [j] == [i] + x + [k] + ([k] + y + [j])[1..];
  }

  lemma {:induction false} RawPathJoins(adj: Adjacency, pm: PathMap, i: Switch, j: Switch)
    requires Exact(adj, pm) && i != j && (i, j) in pm
    ensures RawPath(adj, pm, i, j).Some?
    ensures Joins(adj, [i] + RawPath(adj, pm, i, j).value + [j], i, j)
    decreases pm[(i, j)].dist
  {
    assert EntryExact(adj, pm, i, j);
    if pm[(i, j)].via.Some? {
      var k := pm[(i, j)].via.value;
      RawPathJoins(adj, pm, i, k);
      RawPathJoins(adj, pm, k, j);
      var x, y := RawPath(adj, pm, i, k).value, RawPath(adj, pm, k, j).value;
      JoinAt(adj, i, x, k, y, j);
      assert RawPath(adj, pm, i, j).value == x + [k] + y;
    }
  }

  /** The rebuilt path is a shortest walk, so it repeats no switch. */
  lemma RawPathIsShortest(adj: Adjacency, pm: PathMap, i: Switch, j: Switch)
    requires Exact(adj, pm) && i != j && RawPath(adj, pm, i, j).Some?
    ensures var w := [i] + RawPath(adj, pm, i, j).value + [j];
      Joins(adj, w, i, j) && IsDistance(adj, i, j, |w| - 1) && NoRepeat(w)
  {
    RawPathJoins(adj, pm, i, j);
    assert EntryExact(adj, pm, i, j);
    ShortestIsSimple(adj, [i] + RawPath(adj, pm, i, j).value + [j]);
  }
}
