// The per-flow traffic matrix of l2_multi_slick (_update_tm): which inter-switch
// links the counted packets of each flow crossed.
module TrafficMatrix {
  import opened Options
  import opened Sequences
  import opened Graph
  import opened PathTable
  import opened L2Multi

  // A generic flow description, compared only for equality.
  type Flow = nat

  // [sw1][sw2] -> packets; absent stands for the default None and counts as 0.
  type Counts = map<(Switch, Switch), nat>

  datatype FlowMatrix = FlowMatrix(flow: Flow, tm: Counts)

  // One counted packet: its flow and the switches on its path when it was counted.
  datatype Counted = Counted(flow: Flow, path: seq<Switch>)

  function Value(tm: Counts, a: Switch, b: Switch): nat {
    if (a, b) in tm then tm[(a, b)] else 0
  }

  ghost predicate Crosses(w: seq<Switch>, a: Switch, b: Switch) {
    exists t :: 0 < t < |w| && w[t - 1] == a && w[t] == b
  }

  // The number of counted packets of flow f whose path crossed a -> b.
  ghost function CrossCount(log: seq<Counted>, f: Flow, a: Switch, b: Switch): nat {
    if log == [] then 0
    else
      var c := log[|log| - 1];
      CrossCount(log[..|log| - 1], f, a, b) + Indicator(c.flow == f && Crosses(c.path, a, b))
  }

  ghost predicate WellFormedLog(log: seq<Counted>) {
    forall c :: c in log ==> |c.path| > 0 && NoRepeat(c.path)
  }

  function Indicator(b: bool): nat {
    if b then 1 else 0
  }

  lemma NoCrossing(w: seq<Switch>)
    requires |w| <= 1
    ensures forall a, b :: !Crosses(w, a, b)
  {
  }

  /** One more node on a path adds one crossing. */
  lemma CrossesNext(path: seq<Switch>, n: nat)
    requires 0 < n < |path| && NoRepeat(path)
    ensures forall a, b ::
      Crosses(path[..n + 1], a, b) <==> Crosses(path[..n], a, b) || (a == path[n - 1] && b == path[n])
    ensures !Crosses(path[..n], path[n - 1], path[n])
  {
    var done, next := path[..n], path[..n + 1];
    forall a, b | Crosses(done, a, b) ensures Crosses(next, a, b) {
      var t :| 0 < t < |done| && done[t - 1] == a && done[t] == b;
      assert next[t - 1] == a && next[t] == b;
    }
    assert next[n - 1] == path[n - 1] && next[n] == path[n];
  }

  // Adding one to every link of a path, link by link.
  method Bump(tm: Counts, path: seq<Switch>) returns (r: Counts)
    requires NoRepeat(path) && |path| > 0
    ensures forall a, b :: Value(r, a, b) == Value(tm, a, b) + Indicator(Crosses(path, a, b))
  {
    r := tm;
    var index := 0;
    ghost var done := path[..1];
    NoCrossing(done);
    while index < |path| - 1
      invariant index < |path| && done == path[..index + 1]
      invariant forall a, b :: Value(r, a, b) == Value(tm, a, b) + Indicator(Crosses(done, a, b))
    {
      var sw1, sw2 := path[index], path[index + 1];
      CrossesNext(path, index + 1);
      if (sw1, sw2) in r && r[(sw1, sw2)] != 0 {
        r := r[(sw1, sw2) := r[(sw1, sw2)] + 1];
      } else {
        r := r[(sw1, sw2) := 1];
      }
      index := index + 1;
      done := path[..index + 1];
    }
    assert path[..|path|] == path;
  }

  // A new matrix: every link of the path is set to one.
  method Seed(path: seq<Switch>) returns (r: Counts)
    requires NoRepeat(path) && |path| > 0
    ensures forall a, b :: Value(r, a, b) == Indicator(Crosses(path, a, b))
  {
    r := map[];
    var index := 0;
    ghost var done := path[..1];
    NoCrossing(done);
    while index < |path| - 1
      invariant index < |path| && done == path[..index + 1]
      invariant forall a, b :: Value(r, a, b) == Indicator(Crosses(done, a, b))
    {
      var sw1, sw2 := path[index], path[index + 1];
      CrossesNext(path, index + 1);
      ghost var before := r;
      r := r[(sw1, sw2) := 1];
      assert forall a, b :: Value(r, a, b) == if a == sw1 && b == sw2 then 1 else Value(before, a, b);
      index := index + 1;
      done := path[..index + 1];
    }
    assert path[..|path|] == path;
  }

  // The matrix of a flow holds its crossings.
  ghost predicate Tallies(m: FlowMatrix, log: seq<Counted>) {
    forall a, b :: Value(m.tm, a, b) == CrossCount(log, m.flow, a, b)
  }

  class Recorder {
    var matrices: seq<FlowMatrix>
    ghost var log: seq<Counted>

    // Every matrix holds its flow's crossings, and a flow without one has none.
    ghost predicate Valid()
      reads this
    {
      && WellFormedLog(log)
      && (forall i, j :: 0 <= i < j < |matrices| ==> matrices[i].flow != matrices[j].flow)
      && (forall m :: m in matrices ==> Tallies(m, log))
      && (forall c :: c in log ==> exists m :: m in matrices && m.flow == c.flow)
    }

    constructor ()
      ensures Valid() && matrices == [] && log == []
    {
      matrices, log := [], [];
    }

    // _update_tm. Packets without a flow, without a path, or between switches that
    // are equal or directly connected are not counted.
    method UpdateTm(net: Network, flow: Option<Flow>, src: Switch, dst: Switch)
      requires Valid() && net.Valid() && src in net.switches && dst in net.switches
      modifies this, net`pathMap
      ensures Valid() && net.Valid() && Exact(net.adjacency, net.pathMap)
      ensures var raw := RawPath(net.adjacency, net.pathMap, src, dst);
        log == if flow.Some? && raw.Some? && raw.value != []
               then old(log) + [Counted(flow.value, [src] + raw.value + [dst])] else old(log)
    {
      var raw := net.GetRawPath(src, dst);
      if raw.None? || raw.value == [] {
        return;
      }
      RawPathIsShortest(net.adjacency, net.pathMap, src, dst);
      CountPath(flow, [src] + raw.value + [dst]);
    }

    method CountPath(flow: Option<Flow>, path: seq<Switch>)
      requires Valid() && |path| > 0 && NoRepeat(path)
      modifies this
      ensures Valid()
      ensures log == if flow.Some? then old(log) + [Counted(flow.value, path)] else old(log)
    {
      for n := 0 to |matrices|
        invariant Valid() && matrices == old(matrices) && log == old(log)
        invariant forall m :: 0 <= m < n ==> flow != Some(matrices[m].flow)
      {
        if flow == Some(matrices[n].flow) {
          ghost var entry := Counted(flow.value, path);
          var tm := Bump(matrices[n].tm, path);
          assert Tallies(matrices[n], log);
          matrices := matrices[n := FlowMatrix(matrices[n].flow, tm)];
          log := log + [entry];
          LogGrows(old(log), entry);
          forall i | 0 <= i < |matrices| ensures Tallies(matrices[i], log) {
            assert Tallies(old(matrices)[i], old(log));
          }
          forall c | c in log ensures exists m :: m in matrices && m.flow == c.flow {
            KeepsFlows(old(matrices), matrices, n, c, old(log), entry);
          }
          return;
        }
      }
      if flow.Some? {
        ghost var entry := Counted(flow.value, path);
        var tm := Seed(path);
        matrices := matrices + [FlowMatrix(flow.value, tm)];
        log := log + [entry];
        LogGrows(old(log), entry);
        forall a, b ensures CrossCount(old(log), flow.value, a, b) == 0 {
          NoneCounted(old(log), flow.value, a, b);
        }
        forall i | 0 <= i < |matrices| ensures Tallies(matrices[i], log) {
          assert i < |old(matrices)| ==> Tallies(old(matrices)[i], old(log));
        }
        forall c | c in log ensures exists m :: m in matrices && m.flow == c.flow {
          if c in old(log) {
            var m :| m in old(matrices) && m.flow == c.flow;
            assert m in matrices;
          } else {
            assert matrices[|old(matrices)|] in matrices;
          }
        }
      }
    }
  }

  // Replacing matrix n by one of the same flow loses no flow.
  lemma KeepsFlows(before: seq<FlowMatrix>, after: seq<FlowMatrix>, n: nat, c: Counted, log: seq<Counted>,
                   entry: Counted)
    requires n < |before| && |after| == |before| && forall i :: 0 <= i < |after| ==> after[i].flow == before[i].flow
    requires forall d :: d in log ==> exists m :: m in before && m.flow == d.flow
    requires c in log + [entry] && entry.flow == before[n].flow
    ensures exists m :: m in after && m.flow == c.flow
  {
  }

  lemma LogGrows(log: seq<Counted>, c: Counted)
    ensures forall f, a, b ::
      CrossCount(log + [c], f, a, b) == CrossCount(log, f, a, b) + Indicator(c.flow == f && Crosses(c.path, a, b))
  {
    assert (log + [c])[..|log|] == log;
  }

  lemma NoneCounted(log: seq<Counted>, f: Flow, a: Switch, b: Switch)
    requires forall c :: c in log ==> c.flow != f
    ensures CrossCount(log, f, a, b) == 0
  {
  }

  // --- conservation ---

  // Packets of flow f counted from, or to, switch s.
  ghost function Started(log: seq<Counted>, f: Flow, s: Switch): nat
    requires WellFormedLog(log)
  {
    if log == [] then 0
    else
      var c := log[|log| - 1];
      Started(log[..|log| - 1], f, s) + (if c.flow == f && c.path[0] == s then 1 else 0)
  }

  ghost function Ended(log: seq<Counted>, f: Flow, s: Switch): nat
    requires WellFormedLog(log)
  {
    if log == [] then 0
    else
      var c := log[|log| - 1];
      Ended(log[..|log| - 1], f, s) + (if c.flow == f && c.path[|c.path| - 1] == s then 1 else 0)
  }

  // Sums of the matrix over the switches of nodes, row s and column s.
  function Outgoing(tm: Counts, s: Switch, nodes: seq<Switch>): nat {
    if nodes == [] then 0 else Value(tm, s, nodes[0]) + Outgoing(tm, s, nodes[1..])
  }

  function Incoming(tm: Counts, s: Switch, nodes: seq<Switch>): nat {
    if nodes == [] then 0 else Value(tm, nodes[0], s) + Incoming(tm, s, nodes[1..])
  }

  // The same sums counted on the log.
  ghost function LeavingCount(log: seq<Counted>, f: Flow, s: Switch, nodes: seq<Switch>): nat {
    if nodes == [] then 0 else CrossCount(log, f, s, nodes[0]) + LeavingCount(log, f, s, nodes[1..])
  }

  ghost function EnteringCount(log: seq<Counted>, f: Flow, s: Switch, nodes: seq<Switch>): nat {
    if nodes == [] then 0 else CrossCount(log, f, nodes[0], s) + EnteringCount(log, f, s, nodes[1..])
  }

  // Links of one path out of s, and into s, with the far end in nodes.
  ghost function PathOut(w: seq<Switch>, s: Switch, nodes: seq<Switch>): nat {
    if nodes == [] then 0 else (if Crosses(w, s, nodes[0]) then 1 else 0) + PathOut(w, s, nodes[1..])
  }

  ghost function PathIn(w: seq<Switch>, s: Switch, nodes: seq<Switch>): nat {
    if nodes == [] then 0 else (if Crosses(w, nodes[0], s) then 1 else 0) + PathIn(w, s, nodes[1..])
  }

  lemma {:induction false} PathOutIsNext(w: seq<Switch>, t: nat, nodes: seq<Switch>)
    requires NoRepeat(w) && NoRepeat(nodes) && t < |w|
    ensures PathOut(w, w[t], nodes) == if t + 1 < |w| && w[t + 1] in nodes then 1 else 0
  {
    if nodes != [] {
      PathOutIsNext(w, t, nodes[1..]);
      assert Crosses(w, w[t], nodes[0]) <==> t + 1 < |w| && w[t + 1] == nodes[0] by {
        if t + 1 < |w| {
          assert w[t + 1 - 1] == w[t];
        }
      }
    }
  }

  lemma {:induction false} PathInIsPrevious(w: seq<Switch>, t: nat, nodes: seq<Switch>)
    requires NoRepeat(w) && NoRepeat(nodes) && t < |w|
    ensures PathIn(w, w[t], nodes) == if 0 < t && w[t - 1] in nodes then 1 else 0
  {
    if nodes != [] {
      PathInIsPrevious(w, t, nodes[1..]);
      assert Crosses(w, nodes[0], w[t]) <==> 0 < t && w[t - 1] == nodes[0];
    }
  }

  lemma {:induction false} OffPath(w: seq<Switch>, s: Switch, nodes: seq<Switch>)
    requires s !in w
    ensures PathOut(w, s, nodes) == 0 == PathIn(w, s, nodes)
  {
    if nodes != [] {
      OffPath(w, s, nodes[1..]);
      assert !Crosses(w, s, nodes[0]) && !Crosses(w, nodes[0], s);
    }
  }

  lemma PathBalance(w: seq<Switch>, s: Switch, nodes: seq<Switch>)
    requires |w| > 0 && NoRepeat(w) && NoRepeat(nodes) && forall x :: x in w ==> x in nodes
    ensures PathOut(w, s, nodes) + (if w[|w| - 1] == s then 1 else 0)
         == PathIn(w, s, nodes) + (if w[0] == s then 1 else 0)
  {
    if s in w {
      var t :| 0 <= t < |w| && w[t] == s;
      PathOutIsNext(w, t, nodes);
      PathInIsPrevious(w, t, nodes);
    } else {
      OffPath(w, s, nodes);
    }
  }

  lemma {:induction false} CountsGrow(log: seq<Counted>, c: Counted, f: Flow, s: Switch, nodes: seq<Switch>)
    ensures LeavingCount(log + [c], f, s, nodes)
         == LeavingCount(log, f, s, nodes) + (if c.flow == f then PathOut(c.path, s, nodes) else 0)
    ensures EnteringCount(log + [c], f, s, nodes)
         == EnteringCount(log, f, s, nodes) + (if c.flow == f then PathIn(c.path, s, nodes) else 0)
  {
    if nodes != [] {
      LogGrows(log, c);
      CountsGrow(log, c, f, s, nodes[1..]);
    }
  }

  lemma {:induction false} NoLogNoCounts(f: Flow, s: Switch, nodes: seq<Switch>)
    ensures LeavingCount([], f, s, nodes) == 0 == EnteringCount([], f, s, nodes)
  {
    if nodes != [] {
      NoLogNoCounts(f, s, nodes[1..]);
    }
  }

  lemma {:induction false} LogBalance(log: seq<Counted>, f: Flow, s: Switch, nodes: seq<Switch>)
    requires WellFormedLog(log) && NoRepeat(nodes)
    requires forall c, x :: c in log && x in c.path ==> x in nodes
    ensures LeavingCount(log, f, s, nodes) + Ended(log, f, s) == EnteringCount(log, f, s, nodes) + Started(log, f, s)
  {
    if log == [] {
      NoLogNoCounts(f, s, nodes);
    } else {
      var rest, c := log[..|log| - 1], log[|log| - 1];
      assert log == rest + [c];
      LogBalance(rest, f, s, nodes);
      CountsGrow(rest, c, f, s, nodes);
      PathBalance(c.path, s, nodes);
    }
  }

  lemma {:induction false} SumsMatchLog(m: FlowMatrix, log: seq<Counted>, s: Switch, nodes: seq<Switch>)
    requires Tallies(m, log)
    ensures Outgoing(m.tm, s, nodes) == LeavingCount(log, m.flow, s, nodes)
    ensures Incoming(m.tm, s, nodes) == EnteringCount(log, m.flow, s, nodes)
  {
    if nodes != [] {
      SumsMatchLog(m, log, s, nodes[1..]);
    }
  }

  /** At every switch, a flow's outgoing minus incoming counts are the packets started there
      minus the packets ended there. */
  lemma Conservation(r: Recorder, m: FlowMatrix, s: Switch, nodes: seq<Switch>)
    requires r.Valid() && m in r.matrices && NoRepeat(nodes)
    requires forall c, x :: c in r.log && x in c.path ==> x in nodes
    ensures Outgoing(m.tm, s, nodes) - Incoming(m.tm, s, nodes)
         == Started(r.log, m.flow, s) - Ended(r.log, m.flow, s)
  {
    SumsMatchLog(m, r.log, s, nodes);
    LogBalance(r.log, m.flow, s, nodes);
  }
}
