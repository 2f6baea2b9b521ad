// networkmaps.FlowToElementsMapping: which element instances serve which flowspace,
// and the replica sets handed to steering.
module FlowTable {
  import opened Options
  import opened Sequences

  datatype FlowTuple = FlowTuple(
    in_port: Option<nat>, dl_src: Option<nat>, dl_dst: Option<nat>, dl_vlan: Option<nat>,
    dl_vlan_pcp: Option<nat>, dl_type: Option<nat>, nw_src: Option<nat>, nw_dst: Option<nat>,
    nw_proto: Option<nat>, tp_src: Option<nat>, tp_dst: Option<nat>)

  predicate FieldMatches(a: Option<nat>, b: Option<nat>) {
    a == None || a == b
  }

  // _flowtuple_equals: a missing field of the first tuple is a wildcard.
  predicate Matches(a: FlowTuple, b: FlowTuple) {
    && FieldMatches(a.in_port, b.in_port) && FieldMatches(a.dl_src, b.dl_src) && FieldMatches(a.dl_dst, b.dl_dst)
    && FieldMatches(a.dl_vlan, b.dl_vlan) && FieldMatches(a.dl_vlan_pcp, b.dl_vlan_pcp)
    && FieldMatches(a.dl_type, b.dl_type) && FieldMatches(a.nw_src, b.nw_src) && FieldMatches(a.nw_dst, b.nw_dst)
    && FieldMatches(a.nw_proto, b.nw_proto) && FieldMatches(a.tp_src, b.tp_src) && FieldMatches(a.tp_dst, b.tp_dst)
  }

  datatype Field =
    | InPort | DlSrc | DlDst | DlVlan | DlVlanPcp | DlType | NwSrc | NwDst | NwProto | TpSrc | TpDst

  function At(ft: FlowTuple, x: Field): Option<nat> {
    match x
    case InPort => ft.in_port
    case DlSrc => ft.dl_src
    case DlDst => ft.dl_dst
    case DlVlan => ft.dl_vlan
    case DlVlanPcp => ft.dl_vlan_pcp
    case DlType => ft.dl_type
    case NwSrc => ft.nw_src
    case NwDst => ft.nw_dst
    case NwProto => ft.nw_proto
    case TpSrc => ft.tp_src
    case TpDst => ft.tp_dst
  }

  lemma SameFields(a: FlowTuple, b: FlowTuple)
    requires forall x :: At(a, x) == At(b, x)
    ensures a == b
  {
    assert At(a, InPort) == At(b, InPort) && At(a, DlSrc) == At(b, DlSrc) && At(a, DlDst) == At(b, DlDst);
    assert At(a, DlVlan) == At(b, DlVlan) && At(a, DlVlanPcp) == At(b, DlVlanPcp) && At(a, DlType) == At(b, DlType);
    assert At(a, NwSrc) == At(b, NwSrc) && At(a, NwDst) == At(b, NwDst) && At(a, NwProto) == At(b, NwProto);
    assert At(a, TpSrc) == At(b, TpSrc) && At(a, TpDst) == At(b, TpDst);
  }

  /** A flowspace matches a flow exactly when the flow has the value of every field it fixes, so
      each flowspace matches itself. */
  lemma MatchesIff(a: FlowTuple, b: FlowTuple)
    ensures Matches(a, b) <==> forall x :: At(a, x).Some? ==> At(b, x) == At(a, x)
    ensures Matches(a, a)
  {
    if forall x :: At(a, x).Some? ==> At(b, x) == At(a, x) {
      forall x ensures FieldMatches(At(a, x), At(b, x)) {
      }
      assert FieldMatches(At(a, InPort), At(b, InPort)) && FieldMatches(At(a, DlSrc), At(b, DlSrc));
      assert FieldMatches(At(a, DlDst), At(b, DlDst)) && FieldMatches(At(a, DlVlan), At(b, DlVlan));
      assert FieldMatches(At(a, DlVlanPcp), At(b, DlVlanPcp)) && FieldMatches(At(a, DlType), At(b, DlType));
      assert FieldMatches(At(a, NwSrc), At(b, NwSrc)) && FieldMatches(At(a, NwDst), At(b, NwDst));
      assert FieldMatches(At(a, NwProto), At(b, NwProto)) && FieldMatches(At(a, TpSrc), At(b, TpSrc));
      assert FieldMatches(At(a, TpDst), At(b, TpDst));
    }
  }

  ghost predicate Overlap(a: FlowTuple, b: FlowTuple) {
    exists ft :: Matches(a, ft) && Matches(b, ft)
  }

  predicate FieldsClash(a: Option<nat>, b: Option<nat>) {
    a.Some? && b.Some? && a != b
  }

  function Either(a: Option<nat>, b: Option<nat>): Option<nat> {
    if a.Some? then a else b
  }

  /** Two flowspaces overlap exactly when no field is fixed to different values. */
  lemma OverlapIff(a: FlowTuple, b: FlowTuple)
    ensures Overlap(a, b) <==>
      !FieldsClash(a.in_port, b.in_port) && !FieldsClash(a.dl_src, b.dl_src) && !FieldsClash(a.dl_dst, b.dl_dst)
      && !FieldsClash(a.dl_vlan, b.dl_vlan) && !FieldsClash(a.dl_vlan_pcp, b.dl_vlan_pcp)
      && !FieldsClash(a.dl_type, b.dl_type) && !FieldsClash(a.nw_src, b.nw_src) && !FieldsClash(a.nw_dst, b.nw_dst)
      && !FieldsClash(a.nw_proto, b.nw_proto) && !FieldsClash(a.tp_src, b.tp_src) && !FieldsClash(a.tp_dst, b.tp_dst)
  {
    var ft := FlowTuple(Either(a.in_port, b.in_port), Either(a.dl_src, b.dl_src), Either(a.dl_dst, b.dl_dst),
                        Either(a.dl_vlan, b.dl_vlan), Either(a.dl_vlan_pcp, b.dl_vlan_pcp),
                        Either(a.dl_type, b.dl_type), Either(a.nw_src, b.nw_src), Either(a.nw_dst, b.nw_dst),
                        Either(a.nw_proto, b.nw_proto), Either(a.tp_src, b.tp_src), Either(a.tp_dst, b.tp_dst));
    assert Matches(a, ft);
  }

  ghost predicate Apart(flows: set<FlowTuple>) {
    forall f, g :: f in flows && g in flows && f != g ==> !Overlap(f, g)
  }

  lemma OneMatch(a: FlowTuple, b: FlowTuple, ft: FlowTuple)
    requires Matches(a, ft) && Matches(b, ft)
    ensures Overlap(a, b)
  {
  }

  type ElemName = string

  datatype Instance = Instance(name: ElemName, appDesc: nat, desc: nat, location: nat, flowspace: nat)

  ghost predicate DistinctDescs(s: seq<Instance>) {
    forall i, j :: 0 <= i < j < |s| ==> s[i].desc != s[j].desc
  }

  // Element names in the order of their first installation.
  function FirstNames(log: seq<ElemName>): seq<ElemName> {
    if log == [] then []
    else
      var r, n := FirstNames(log[..|log| - 1]), log[|log| - 1];
      if n in r then r else r + [n]
  }

  lemma OnceMore(r: seq<ElemName>, n: ElemName)
    requires NoRepeat(r) && n !in r
    ensures NoRepeat(r + [n])
  {
  }

  lemma {:induction false} FirstNamesOnce(log: seq<ElemName>)
    ensures NoRepeat(FirstNames(log)) && forall n :: n in FirstNames(log) <==> n in log
  {
    if log != [] {
      var before, n := log[..|log| - 1], log[|log| - 1];
      FirstNamesOnce(before);
      assert log == before + [n];
      if n !in FirstNames(before) {
        OnceMore(FirstNames(before), n);
      }
    }
  }

  ghost predicate FirstAt(log: seq<ElemName>, p: nat, n: ElemName) {
    p < |log| && log[p] == n && n !in log[..p]
  }

  /** A name stands before another exactly as their first installations do. */
  lemma {:induction false} FirstNamesOrder(log: seq<ElemName>, i: nat, j: nat, p: nat, q: nat)
    requires i < j < |FirstNames(log)| && FirstAt(log, p, FirstNames(log)[i]) && FirstAt(log, q, FirstNames(log)[j])
    ensures p < q
  {
    var before, n := log[..|log| - 1], log[|log| - 1];
    var r := FirstNames(before);
    assert log == before + [n];
    FirstNamesOnce(before);
    FirstAtBefore(log, p, r[i]);
    if j < |r| {
      FirstAtBefore(log, q, r[j]);
      FirstNamesOrder(before, i, j, p, q);
    } else {
      assert n !in before && q == |before|;
    }
  }

  lemma FirstAtBefore(log: seq<ElemName>, p: nat, n: ElemName)
    requires |log| > 0 && n in log[..|log| - 1] && FirstAt(log, p, n)
    ensures p < |log| - 1 && FirstAt(log[..|log| - 1], p, n)
  {
    assert log[..|log| - 1][..p] == log[..p] || p == |log| - 1;
  }

  // The instances whose descriptor is not in gone, in order.
  function Without(s: seq<Instance>, gone: set<nat>): seq<Instance> {
    if s == [] then [] else (if s[0].desc in gone then [] else [s[0]]) + Without(s[1..], gone)
  }

  lemma {:induction false} WithoutMembers(s: seq<Instance>, gone: set<nat>)
    ensures forall x :: x in Without(s, gone) <==> x in s && x.desc !in gone
    ensures DistinctDescs(s) ==> DistinctDescs(Without(s, gone))
  {
    if s != [] {
      WithoutMembers(s[1..], gone);
      assert s == [s[0]] + s[1..];
      if DistinctDescs(s) {
        var r := Without(s[1..], gone);
        forall i | 0 <= i < |r| ensures r[i].desc != s[0].desc {
          assert r[i] in s[1..];
        }
      }
    }
  }

  lemma {:induction false} WithoutMore(s: seq<Instance>, gone: set<nat>, d: nat)
    ensures Without(Without(s, gone), {d}) == Without(s, gone + {d})
  {
    if s != [] {
      WithoutMore(s[1..], gone, d);
      var r := Without(s[1..], gone);
      if s[0].desc !in gone {
        assert ([s[0]] + r)[1..] == r;
      } else {
        assert [] + r == r;
      }
    }
  }

  lemma {:induction false} WithoutAppend(s: seq<Instance>, x: Instance, gone: set<nat>)
    ensures Without(s + [x], gone) == Without(s, gone) + if x.desc in gone then [] else [x]
  {
    if s == [] {
      assert s + [x] == [x] && [x][1..] == [];
    } else {
      assert (s + [x])[1..] == s[1..] + [x] && (s + [x])[0] == s[0];
      WithoutAppend(s[1..], x, gone);
    }
  }

  lemma DistinctAppend(s: seq<Instance>, x: Instance)
    requires DistinctDescs(s)
    ensures DistinctDescs(s + [x]) <==> forall y :: y in s ==> y.desc != x.desc
  {
    var r := s + [x];
    if DistinctDescs(r) {
      forall y | y in s ensures y.desc != x.desc {
        var i :| 0 <= i < |s| && s[i] == y;
        assert r[i].desc != r[|s|].desc;
      }
    }
  }

  function NamesOf(s: seq<Instance>): (r: seq<ElemName>)
    ensures |r| == |s| && forall i :: 0 <= i < |r| ==> r[i] == s[i].name
  {
    seq(|s|, i requires 0 <= i < |s| => s[i].name)
  }

  ghost predicate PairedLogs(names: map<FlowTuple, seq<ElemName>>, instances: map<FlowTuple, seq<Instance>>) {
    names.Keys == instances.Keys && forall f :: f in names ==> names[f] == NamesOf(instances[f])
  }

  lemma PairedMore(names: map<FlowTuple, seq<ElemName>>, instances: map<FlowTuple, seq<Instance>>,
                   f: FlowTuple, x: Instance)
    requires PairedLogs(names, instances)
    ensures PairedLogs(names[f := (if f in names then names[f] else []) + [x.name]],
                       instances[f := (if f in instances then instances[f] else []) + [x]])
  {
    var log := if f in instances then instances[f] else [];
    assert NamesOf(log + [x]) == NamesOf(log) + [x.name];
  }

  function AllWithout(instances: map<FlowTuple, seq<Instance>>, d: nat): map<FlowTuple, seq<Instance>> {
    map f | f in instances :: Without(instances[f], {d})
  }

  // The scan of remove_element_instance: it deletes from the list it is walking, so the
  // entry after a deleted one is skipped.
  function DeleteScan(s: seq<Instance>, i: nat, d: nat): seq<Instance>
    decreases |s| - i
  {
    if i >= |s| then s
    else if s[i].desc == d then DeleteScan(s[..i] + s[i + 1..], i + 1, d)
    else DeleteScan(s, i + 1, d)
  }

  lemma {:induction false} WithoutAbsent(s: seq<Instance>, d: nat)
    requires forall i :: 0 <= i < |s| ==> s[i].desc != d
    ensures Without(s, {d}) == s
  {
    if s != [] {
      WithoutAbsent(s[1..], d);
    }
  }

  /** Deleting while iterating removes exactly the instance, because descriptors are unique. */
  lemma {:induction false} DeleteScanRemoves(s: seq<Instance>, i: nat, d: nat)
    requires DistinctDescs(s) && i <= |s| && forall k :: 0 <= k < i ==> s[k].desc != d
    ensures DeleteScan(s, i, d) == Without(s, {d})
    decreases |s| - i
  {
    if i == |s| {
      WithoutAbsent(s, d);
    } else if s[i].desc == d {
      WithoutOne(s, i);
      ScanWithout(s[..i] + s[i + 1..], i + 1, d);
    } else {
      DeleteScanRemoves(s, i + 1, d);
    }
  }

  lemma {:induction false} WithoutOne(s: seq<Instance>, i: nat)
    requires DistinctDescs(s) && i < |s|
    ensures Without(s, {s[i].desc}) == s[..i] + s[i + 1..]
    ensures var r := s[..i] + s[i + 1..]; forall k :: 0 <= k < |r| ==> r[k].desc != s[i].desc
  {
    if i == 0 {
      WithoutAbsent(s[1..], s[0].desc);
    } else {
      WithoutOne(s[1..], i - 1);
      assert s[1..][..i - 1] == s[1..i] && s[1..][i..] == s[i + 1..];
      assert s[..i] == [s[0]] + s[1..i];
    }
  }

  lemma {:induction false} ScanWithout(s: seq<Instance>, i: nat, d: nat)
    requires forall k :: 0 <= k < |s| ==> s[k].desc != d
    ensures DeleteScan(s, i, d) == s
    decreases |s| - i
  {
    if i < |s| {
      ScanWithout(s, i + 1, d);
    }
  }

  // --- replica sets ---

  // Descriptors of the instances of one element, in installation order.
  function DescsOf(s: seq<Instance>, n: ElemName): seq<nat> {
    if s == [] then [] else (if s[0].name == n then [s[0].desc] else []) + DescsOf(s[1..], n)
  }

  function ReplicaSets(names: seq<ElemName>, s: seq<Instance>): seq<seq<nat>> {
    if names == [] then [] else [DescsOf(s, names[0])] + ReplicaSets(names[1..], s)
  }

  function Flattened(sets: seq<seq<nat>>): seq<nat> {
    if sets == [] then [] else sets[0] + Flattened(sets[1..])
  }

  function Descs(s: seq<Instance>): seq<nat> {
    if s == [] then [] else [s[0].desc] + Descs(s[1..])
  }

  lemma {:induction false} ReplicaSetsAdd(names: seq<ElemName>, x: Instance, s: seq<Instance>)
    requires NoRepeat(names)
    ensures multiset(Flattened(ReplicaSets(names, [x] + s)))
         == multiset(Flattened(ReplicaSets(names, s))) + (if x.name in names then multiset{x.desc} else multiset{})
  {
    if names != [] {
      ReplicaSetsAdd(names[1..], x, s);
      assert ([x] + s)[1..] == s;
    }
  }

  lemma {:induction false} NoReplicas(names: seq<ElemName>)
    ensures Flattened(ReplicaSets(names, [])) == []
  {
    if names != [] {
      NoReplicas(names[1..]);
    }
  }

  /** The replica sets partition the instances: together they hold every descriptor once. */
  lemma {:induction false} ReplicaSetsPartition(names: seq<ElemName>, s: seq<Instance>)
    requires NoRepeat(names)
    requires forall x :: x in s ==> x.name in names
    ensures multiset(Flattened(ReplicaSets(names, s))) == multiset(Descs(s))
  {
    if s == [] {
      NoReplicas(names);
    } else {
      ReplicaSetsPartition(names, s[1..]);
      assert s == [s[0]] + s[1..];
      ReplicaSetsAdd(names, s[0], s[1..]);
      assert s[0] in s;
    }
  }

  lemma {:induction false} ReplicaSetAt(names: seq<ElemName>, s: seq<Instance>, i: nat)
    requires i < |names|
    ensures |ReplicaSets(names, s)| == |names| && ReplicaSets(names, s)[i] == DescsOf(s, names[i])
  {
    if i > 0 {
      ReplicaSetAt(names[1..], s, i - 1);
    } else if |names| > 1 {
      ReplicaSetAt(names[1..], s, 0);
    }
  }

  lemma {:induction false} DescsOfMembers(s: seq<Instance>, n: ElemName, d: nat)
    ensures d in DescsOf(s, n) <==> exists x :: x in s && x.name == n && x.desc == d
  {
    if s != [] {
      DescsOfMembers(s[1..], n, d);
      assert s == [s[0]] + s[1..];
    }
  }

  // ps are the positions of element n in s, in increasing order.
  ghost predicate PositionsOf(ps: seq<nat>, s: seq<Instance>, n: ElemName) {
    && (forall k :: 0 <= k < |ps| ==> ps[k] < |s| && s[ps[k]].name == n)
    && (forall k, l :: 0 <= k < l < |ps| ==> ps[k] < ps[l])
    && (forall i: nat :: i < |s| && s[i].name == n ==> i in ps)
  }

  lemma {:induction false} DescsOfAppend(s: seq<Instance>, x: Instance, n: ElemName)
    ensures DescsOf(s + [x], n) == DescsOf(s, n) + if x.name == n then [x.desc] else []
  {
    if s == [] {
      assert s + [x] == [x] && [x][1..] == [];
    } else {
      assert (s + [x])[1..] == s[1..] + [x] && (s + [x])[0] == s[0];
      DescsOfAppend(s[1..], x, n);
    }
  }

  lemma PositionsAppend(ps: seq<nat>, s: seq<Instance>, x: Instance, n: ElemName)
    requires PositionsOf(ps, s, n)
    ensures PositionsOf(ps + if x.name == n then [|s|] else [], s + [x], n)
  {
    if x.name == n {
      assert (ps + [|s|])[|ps|] == |s|;
    }
    forall i: nat | i < |s + [x]| && (s + [x])[i].name == n ensures i in ps + if x.name == n then [|s|] else [] {
      assert i < |s| ==> s[i] == (s + [x])[i];
    }
  }

  /** A replica set lists the descriptors of all instances of the element in the order of their
      installation. */
  lemma {:induction false} DescsOfPositions(s: seq<Instance>, n: ElemName) returns (ps: seq<nat>)
    ensures PositionsOf(ps, s, n) && |ps| == |DescsOf(s, n)|
    ensures forall k :: 0 <= k < |ps| ==> DescsOf(s, n)[k] == s[ps[k]].desc
  {
    ps := [];
    if s != [] {
      var before, x := s[..|s| - 1], s[|s| - 1];
      ps := DescsOfPositions(before, n);
      assert s == before + [x];
      DescsOfAppend(before, x, n);
      PositionsAppend(ps, before, x, n);
      ps := ps + if x.name == n then [|before|] else [];
    }
  }

  /** Two different replica sets share no descriptor. */
  lemma ReplicaSetsDisjoint(names: seq<ElemName>, s: seq<Instance>, i: nat, j: nat)
    requires i < j < |names| && names[i] != names[j] && DistinctDescs(s)
    ensures |ReplicaSets(names, s)| == |names|
    ensures forall d :: !(d in ReplicaSets(names, s)[i] && d in ReplicaSets(names, s)[j])
  {
    ReplicaSetAt(names, s, i);
    ReplicaSetAt(names, s, j);
    forall d ensures !(d in DescsOf(s, names[i]) && d in DescsOf(s, names[j])) {
      DescsOfMembers(s, names[i], d);
      DescsOfMembers(s, names[j], d);
    }
  }

  // --- the class ---

  // The tables are what their histories amount to.
  ghost predicate MatchesLogs(names: map<FlowTuple, seq<ElemName>>, instances: map<FlowTuple, seq<Instance>>,
                              nameLog: map<FlowTuple, seq<ElemName>>, instanceLog: map<FlowTuple, seq<Instance>>,
                              gone: set<nat>) {
    && names.Keys == nameLog.Keys && instances.Keys == instanceLog.Keys
    && (forall f :: f in names ==> names[f] == FirstNames(nameLog[f]))
    && (forall f :: f in instances ==> instances[f] == Without(instanceLog[f], gone))
    && (forall f :: f in instances ==> DistinctDescs(instances[f]))
  }

  function ListFor(m: map<FlowTuple, seq<Instance>>, f: FlowTuple): seq<Instance> {
    if f in m then m[f] else []
  }

  lemma AppendMatchesIff(names: map<FlowTuple, seq<ElemName>>, instances: map<FlowTuple, seq<Instance>>,
                         nameLog: map<FlowTuple, seq<ElemName>>, instanceLog: map<FlowTuple, seq<Instance>>,
                         gone: set<nat>, f: FlowTuple, x: Instance)
    requires MatchesLogs(names, instances, nameLog, instanceLog, gone)
    ensures MatchesLogs(names, instances[f := ListFor(instances, f) + [x]],
                        nameLog, instanceLog[f := ListFor(instanceLog, f) + [x]], gone)
       <==> x.desc !in gone && forall y :: y in ListFor(instances, f) ==> y.desc != x.desc
  {
    var list, log := ListFor(instances, f), ListFor(instanceLog, f);
    WithoutAppend(log, x, gone);
    DistinctAppend(list, x);
    assert list == Without(log, gone) && DistinctDescs(list);
    if x.desc in gone {
      assert |Without(log + [x], gone)| != |list + [x]|;
    } else {
      assert Without(log + [x], gone) == list + [x];
    }
    var instances', log' := instances[f := list + [x]], instanceLog[f := log + [x]];
    assert instances'[f] == list + [x] && log'[f] == log + [x];
  }

  class FlowToElements {
    var names: map<FlowTuple, seq<ElemName>>
    var instances: map<FlowTuple, seq<Instance>>
    // History: what was added under each flow, and the descriptors removed since.
    ghost var nameLog: map<FlowTuple, seq<ElemName>>
    ghost var instanceLog: map<FlowTuple, seq<Instance>>
    ghost var gone: set<nat>

    ghost predicate Valid()
      reads this
    {
      MatchesLogs(names, instances, nameLog, instanceLog, gone)
    }

    // add_element and add_element_instance have been called alike.
    ghost predicate Paired()
      reads this
    {
      PairedLogs(nameLog, instanceLog)
    }

    constructor ()
      ensures Valid() && Paired() && nameLog == map[] && instanceLog == map[] && gone == {}
    {
      names, instances, nameLog, instanceLog, gone := map[], map[], map[], map[], {};
    }

    // add_element
    method AddElement(f: FlowTuple, inst: Instance)
      requires Valid()
      modifies this`names, this`nameLog
      ensures Valid()
      ensures nameLog == old(nameLog)[f := (if f in old(nameLog) then old(nameLog)[f] else []) + [inst.name]]
    {
      ghost var log := if f in nameLog then nameLog[f] else [];
      assert (log + [inst.name])[..|log|] == log;
      if f !in names {
        names := names[f := [inst.name]];
      } else if inst.name !in names[f] {
        names := names[f := names[f] + [inst.name]];
      }
      nameLog := nameLog[f := log + [inst.name]];
    }

    // add_element_instance: the table stays what its history amounts to exactly when the
    // descriptor was never removed and is not yet listed there.
    method AddElementInstance(f: FlowTuple, inst: Instance)
      requires Valid()
      modifies this`instances, this`instanceLog
      ensures instanceLog == old(instanceLog)[f := ListFor(old(instanceLog), f) + [inst]]
      ensures instances == old(instances)[f := ListFor(old(instances), f) + [inst]]
      ensures Valid() <==>
        inst.desc !in gone && forall x :: x in ListFor(old(instances), f) ==> x.desc != inst.desc
    {
      AppendMatchesIff(names, instances, nameLog, instanceLog, gone, f, inst);
      ghost var log := ListFor(instanceLog, f) + [inst];
      assert [] + [inst] == [inst];
      if f !in instances {
        instances := instances[f := [inst]];
      } else {
        instances := instances[f := instances[f] + [inst]];
      }
      instanceLog := instanceLog[f := log];
    }

    // remove_element_instance
    method RemoveElementInstance(ed: nat)
      requires Valid()
      modifies this`instances, this`gone
      ensures Valid() && gone == old(gone) + {ed}
      ensures instances == AllWithout(old(instances), ed)
    {
      ghost var before := instances;
      ScanAll(ed);
      forall f | f in before ensures Without(before[f], {ed}) == Without(instanceLog[f], gone + {ed})
                           && DistinctDescs(Without(before[f], {ed}))
      {
        WithoutMore(instanceLog[f], gone, ed);
        WithoutMembers(before[f], {ed});
      }
      gone := gone + {ed};
    }

    // Every list of the table is scanned, in the dictionary's own order.
    method ScanAll(ed: nat)
      requires forall f :: f in instances ==> DistinctDescs(instances[f])
      modifies this`instances
      ensures instances == AllWithout(old(instances), ed)
    {
      ghost var before := instances;
      var rest := instances.Keys;
      while rest != {}
        invariant rest <= before.Keys && instances.Keys == before.Keys
        invariant forall f :: f in before ==> instances[f] == if f in rest then before[f] else Without(before[f], {ed})
      {
        var flow :| flow in rest;
        rest := rest - {flow};
        DeleteScanRemoves(before[flow], 0, ed);
        var scanned := Scan(instances[flow], ed);
        instances := instances[flow := scanned];
      }
    }

    // The inner loop: delete entries of the list being enumerated.
    method Scan(list: seq<Instance>, ed: nat) returns (r: seq<Instance>)
      ensures r == DeleteScan(list, 0, ed)
    {
      r := list;
      var index := 0;
      while index < |r|
        invariant DeleteScan(list, 0, ed) == DeleteScan(r, index, ed)
        decreases |r| - index
      {
        if r[index].desc == ed {
          r := r[..index] + r[index + 1..];
        }
        index := index + 1;
      }
    }

    // The first flowspace of a table that matches ft, in the dictionary's own order.
    method Lookup(keys: set<FlowTuple>, ft: FlowTuple) returns (r: Option<FlowTuple>)
      ensures r.Some? ==> r.value in keys && Matches(r.value, ft)
      ensures r.None? ==> forall f :: f in keys ==> !Matches(f, ft)
    {
      var rest := keys;
      while rest != {}
        invariant rest <= keys && forall f :: f in keys && f !in rest ==> !Matches(f, ft)
      {
        var item :| item in rest;
        rest := rest - {item};
        if Matches(item, ft) {
          return Some(item);
        }
      }
      r := None;
    }

    // get: the replica sets of the flowspace that ft falls in. With overlapping flowspaces
    // the two dictionaries might answer for different ones.
    method Get(ft: FlowTuple) returns (sets: seq<seq<nat>>)
      requires Valid() && Paired()
      ensures (forall f :: f in names ==> !Matches(f, ft)) ==> sets == []
      ensures sets == [] || exists f, g :: f in names && g in instances && Matches(f, ft) && Matches(g, ft)
                                        && sets == ReplicaSets(names[f], instances[g])
      ensures Apart(names.Keys) ==>
        forall f :: f in names && Matches(f, ft) ==> sets == ReplicaSets(names[f], instances[f])
      ensures Apart(names.Keys) && ft in names ==> sets == ReplicaSets(names[ft], instances[ft])
    {
      MatchesIff(ft, ft);
      var byName := Lookup(names.Keys, ft);
      var elementNames := if byName.Some? then names[byName.value] else [];
      var byInstance := Lookup(instances.Keys, ft);
      var elementInstances := if byInstance.Some? then instances[byInstance.value] else [];
      sets := Group(elementNames, elementInstances);
      if Apart(names.Keys) {
        forall f | f in names && Matches(f, ft) ensures byName == byInstance == Some(f) {
          OneMatch(byName.value, f, ft);
          OneMatch(byInstance.value, f, ft);
        }
      }
    }

    // One replica set per element name.
    method Group(elementNames: seq<ElemName>, elementInstances: seq<Instance>) returns (sets: seq<seq<nat>>)
      ensures sets == ReplicaSets(elementNames, elementInstances)
    {
      sets := [];
      for index := 0 to |elementNames|
        invariant sets + ReplicaSets(elementNames[index..], elementInstances)
               == ReplicaSets(elementNames, elementInstances)
      {
        var replicas := Replicas(elementNames[index], elementInstances);
        assert elementNames[index..][1..] == elementNames[index + 1..];
        sets := sets + [replicas];
      }
      assert sets + [] == sets;
    }

    method Replicas(name: ElemName, insts: seq<Instance>) returns (r: seq<nat>)
      ensures r == DescsOf(insts, name)
    {
      r := [];
      for n := 0 to |insts|
        invariant r + DescsOf(insts[n..], name) == DescsOf(insts, name)
      {
        assert insts[n..][1..] == insts[n + 1..];
        if insts[n].name == name {
          r := r + [insts[n].desc];
        }
      }
      assert r + [] == r;
    }
  }

  /** In any state the table can reach, the answer for a flow in flowspace f lists the element
      names in the order they were first installed there, once each; its replica sets keep
      installation order, and together hold every live descriptor of f exactly once. */
  lemma GetPartitions(t: FlowToElements, f: FlowTuple)
    requires t.Valid() && t.Paired() && f in t.names
    ensures f in t.instances && t.names[f] == FirstNames(NamesOf(t.instanceLog[f])) && NoRepeat(t.names[f])
    ensures t.instances[f] == Without(t.instanceLog[f], t.gone) && DistinctDescs(t.instances[f])
    ensures multiset(Flattened(ReplicaSets(t.names[f], t.instances[f]))) == multiset(Descs(t.instances[f]))
  {
    FirstNamesOnce(t.nameLog[f]);
    WithoutMembers(t.instanceLog[f], t.gone);
    forall x | x in t.instances[f] ensures x.name in t.names[f] {
      var i :| 0 <= i < |t.instanceLog[f]| && t.instanceLog[f][i] == x;
      assert NamesOf(t.instanceLog[f])[i] == x.name;
    }
    ReplicaSetsPartition(t.names[f], t.instances[f]);
  }
}
