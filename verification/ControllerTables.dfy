// The controller's tables of element instances: where they run, which flowspace they
// serve, who owns them and how the network model indexes them; apply_elem and
// remove_elem update them all.
module ControllerTables {
  import opened Options
  import opened Sequences
  import opened FlowTable

  type Mac = nat

  // --- networkmaps.ElementToMac ---

  class ElementToMac {
    var table: map<Mac, seq<nat>>

    constructor ()
      ensures table == map[]
    {
      table := map[];
    }

    // add: no descriptor means a machine that only runs the shim.
    method Add(mac: Mac, desc: Option<nat>)
      modifies this
      ensures table == old(table)[mac := if desc.None? then []
                                         else ListAt(old(table), mac) + [desc.value]]
    {
      if desc.Some? {
        table := table[mac := ListAt(table, mac) + [desc.value]];
      } else {
        table := table[mac := []];
      }
    }

    // remove: list.remove of the first occurrence; asking for an unknown machine makes
    // its empty list.
    method Remove(mac: Mac, desc: nat) returns (removed: bool)
      modifies this
      ensures removed <==> desc in ListAt(old(table), mac)
      ensures table == old(table)[mac := Removed(ListAt(old(table), mac), desc)]
    {
      var list := ListAt(table, mac);
      table := table[mac := list];
      if desc in list {
        table := table[mac := Removed(list, desc)];
        return true;
      }
      RemovedAbsent(list, desc);
      removed := false;
    }

    // get: the machine whose list holds the descriptor
    method Get(desc: nat) returns (mac: Option<Mac>)
      ensures mac.Some? ==> mac.value in table && desc in table[mac.value]
      ensures mac.None? ==> forall m :: m in table ==> desc !in table[m]
    {
      var rest := table.Keys;
      while rest != {}
        invariant rest <= table.Keys
        invariant forall m :: m in table && m !in rest ==> desc !in table[m]
      {
        AnyKey(rest);
        var m :| m in rest;
        rest := rest - {m};
        if desc in table[m] {
          return Some(m);
        }
      }
      mac := None;
    }
  }

  function ListAt(table: map<Mac, seq<nat>>, mac: Mac): seq<nat> {
    if mac in table then table[mac] else []
  }

  lemma AnyKey<T>(s: set<T>)
    requires s != {}
    ensures exists x :: x in s
  {
  }

  // --- networkmaps.ElementToApplication ---

  datatype AppRecord = AppRecord(appDesc: nat, parameters: string)

  class ElementToApplication {
    var handles: map<nat, AppRecord>

    constructor ()
      ensures handles == map[]
    {
      handles := map[];
    }

    // update: a descriptor already present keeps its record.
    method Update(ed: nat, r: AppRecord)
      modifies this
      ensures handles == if ed in old(handles) then old(handles) else old(handles)[ed := r]
    {
      if ed !in handles {
        handles := handles[ed := r];
      }
    }

    // remove: an unknown descriptor raises InstanceNotFound.
    method Remove(ed: nat) returns (found: bool)
      modifies this
      ensures found <==> ed in old(handles)
      ensures handles == old(handles) - {ed}
    {
      found := ed in handles;
      handles := handles - {ed};
    }
  }

  // --- the placement indexes of NetworkModel ---

  class NetworkModel {
    var nameToInstances: map<ElemName, set<Instance>>
    var edToInstance: map<nat, Instance>

    constructor ()
      ensures nameToInstances == map[] && edToInstance == map[]
    {
      nameToInstances, edToInstance := map[], map[];
    }

    method AddPlacement(inst: Instance)
      modifies this
      ensures edToInstance == old(edToInstance)[inst.desc := inst]
      ensures nameToInstances == old(nameToInstances)[inst.name := Bucket(old(nameToInstances), inst.name) + {inst}]
    {
      if inst.name !in nameToInstances {
        nameToInstances := nameToInstances[inst.name := {}];
      }
      nameToInstances := nameToInstances[inst.name := nameToInstances[inst.name] + {inst}];
      edToInstance := edToInstance[inst.desc := inst];
    }

    method RemovePlacement(ed: nat)
      requires ed in edToInstance ==> edToInstance[ed] in Bucket(nameToInstances, edToInstance[ed].name)
      modifies this
      ensures edToInstance == old(edToInstance) - {ed}
      ensures ed !in old(edToInstance) ==> nameToInstances == old(nameToInstances)
      ensures ed in old(edToInstance) ==>
        var x := old(edToInstance)[ed];
        nameToInstances == old(nameToInstances)[x.name := Bucket(old(nameToInstances), x.name) - {x}]
    {
      if ed in edToInstance {
        var instance := edToInstance[ed];
        nameToInstances := nameToInstances[instance.name := nameToInstances[instance.name] - {instance}];
        edToInstance := edToInstance - {ed};
      }
    }

    // get_element_descriptors: through the index by name
    method GetElementDescriptors(name: ElemName) returns (descs: seq<nat>)
      ensures forall d :: d in descs <==> exists x :: x in Bucket(nameToInstances, name) && x.desc == d
    {
      descs := [];
      var all := if name in nameToInstances then nameToInstances[name] else {};
      var rest := all;
      while rest != {}
        invariant rest <= all
        invariant forall d :: d in descs <==> exists x :: x in all - rest && x.desc == d
      {
        var x :| x in rest;
        ghost var before := descs;
        descs := descs + [x.desc];
        assert all - (rest - {x}) == (all - rest) + {x};
        rest := rest - {x};
        assert forall d :: d in descs <==> d in before || d == x.desc;
      }
      assert all - rest == all;
    }

    // get_elem_descs: through the index by descriptor; no name, or an empty one, asks for all
    method GetElemDescs(name: Option<ElemName>) returns (descs: seq<nat>)
      ensures NoRepeat(descs)
      ensures forall d :: d in descs <==>
        d in edToInstance && (name in {None, Some("")} || name == Some(edToInstance[d].name))
    {
      descs := [];
      var rest := edToInstance.Keys;
      while rest != {}
        invariant rest <= edToInstance.Keys && NoRepeat(descs)
        invariant forall d :: d in descs <==>
          d in edToInstance && d !in rest && (name in {None, Some("")} || name == Some(edToInstance[d].name))
      {
        AnyKey(rest);
        var ed :| ed in rest;
        rest := rest - {ed};
        if name.None? || name.value == "" || edToInstance[ed].name == name.value {
          descs := descs + [ed];
        }
      }
    }
  }

  function Bucket(m: map<ElemName, set<Instance>>, n: ElemName): set<Instance> {
    if n in m then m[n] else {}
  }

  // --- what agreement means ---

  // A live element instance, the flowspace key it was installed under, and its owner's record.
  datatype Placement = Placement(inst: Instance, flow: FlowTuple, record: AppRecord)

  type Placed = map<nat, Placement>

  ghost predicate LocatedAt(placed: Placed, stale: map<nat, Mac>, d: nat, m: Mac) {
    (d in placed && placed[d].inst.location == m) || (d in stale && stale[d] == m)
  }

  // The machine table holds every live descriptor once, where it runs, and besides only
  // those whose removal message was not delivered.
  ghost predicate MacsAgree(table: map<Mac, seq<nat>>, placed: Placed, stale: map<nat, Mac>) {
    && (forall m, d :: m in table && d in table[m] ==> LocatedAt(placed, stale, d, m))
    && (forall m, d {:trigger LocatedAt(placed, stale, d, m)} ::
          LocatedAt(placed, stale, d, m) ==> m in table && d in table[m])
    && (forall m :: m in table ==> NoRepeat(table[m]))
  }

  ghost predicate FlowsAgree(instances: map<FlowTuple, seq<Instance>>, placed: Placed) {
    && (forall f, x {:trigger x in instances[f]} ::
          f in instances && x in instances[f] ==>
            x.desc in placed && placed[x.desc].inst == x && placed[x.desc].flow == f)
    && (forall d {:trigger placed[d].flow} ::
          d in placed ==> placed[d].flow in instances && placed[d].inst in instances[placed[d].flow])
  }

  ghost predicate AppsAgree(handles: map<nat, AppRecord>, placed: Placed) {
    && handles.Keys == placed.Keys
    && forall d :: d in placed ==> handles[d] == placed[d].record && handles[d].appDesc == placed[d].inst.appDesc
  }

  ghost predicate ModelAgrees(byName: map<ElemName, set<Instance>>, byDesc: map<nat, Instance>, placed: Placed) {
    && byDesc.Keys == placed.Keys
    && (forall d {:trigger byDesc[d]} :: d in placed ==> byDesc[d] == placed[d].inst)
    && (forall n, x {:trigger x in byName[n]} ::
          n in byName && x in byName[n] ==> x.name == n && x.desc in placed && placed[x.desc].inst == x)
    && (forall d {:trigger placed[d].inst.name} ::
          d in placed ==> placed[d].inst in Bucket(byName, placed[d].inst.name))
  }

  // Descriptors lie between 2 and the latest issued, and a removed one is never live again.
  ghost predicate InRange(placed: Placed, stale: map<nat, Mac>, gone: set<nat>, latest: nat) {
    && placed.Keys !! stale.Keys && placed.Keys !! gone && latest >= 1
    && (forall d :: d in gone ==> d <= latest)
    && (forall d :: d in placed ==> 2 <= d <= latest && placed[d].inst.desc == d)
    && (forall d :: d in stale ==> 2 <= d <= latest)
  }

  // A registration empties the machine's list.
  lemma MacsMachineIff(table: map<Mac, seq<nat>>, placed: Placed, stale: map<nat, Mac>, mac: Mac)
    requires MacsAgree(table, placed, stale)
    ensures MacsAgree(table[mac := []], placed, stale) <==> ListAt(table, mac) == []
  {
    if mac in table && table[mac] != [] {
      var d := table[mac][0];
      assert d in table[mac];
      assert LocatedAt(placed, stale, d, mac);
    } else {
      forall m, d | LocatedAt(placed, stale, d, m) ensures m in table && m != mac {
      }
    }
  }

  lemma MacsAdd(table: map<Mac, seq<nat>>, placed: Placed, stale: map<nat, Mac>, d: nat, p: Placement)
    requires MacsAgree(table, placed, stale) && d !in placed && d !in stale && p.inst.location in table
    ensures MacsAgree(table[p.inst.location := table[p.inst.location] + [d]], placed[d := p], stale)
  {
    var loc := p.inst.location;
    var t, q := table[loc := table[loc] + [d]], placed[d := p];
    assert !LocatedAt(placed, stale, d, loc);
    assert d !in table[loc];
    forall m, x | LocatedAt(q, stale, x, m) ensures m in t && x in t[m] {
      assert x != d ==> LocatedAt(placed, stale, x, m);
    }
    forall m, x | m in t && x in t[m] ensures LocatedAt(q, stale, x, m) {
      if m in table && x in table[m] {
        assert LocatedAt(placed, stale, x, m);
      }
    }
  }

  // A live instance leaves; its entry stays exactly if the removal was not delivered.
  lemma MacsRemove(table: map<Mac, seq<nat>>, placed: Placed, stale: map<nat, Mac>, d: nat, delivered: bool)
    requires MacsAgree(table, placed, stale) && d in placed && d !in stale
    ensures var loc := placed[d].inst.location;
      && loc in table && d in table[loc]
      && MacsAgree(if delivered then table[loc := Removed(table[loc], d)] else table, placed - {d},
                   if delivered then stale else stale[d := loc])
  {
    var loc := placed[d].inst.location;
    assert LocatedAt(placed, stale, d, loc);
    RemovedOnce(table[loc], d);
    var t := if delivered then table[loc := Removed(table[loc], d)] else table;
    var q, s := placed - {d}, if delivered then stale else stale[d := loc];
    forall m, x | LocatedAt(q, s, x, m) ensures m in t && x in t[m] {
      assert x != d ==> LocatedAt(placed, stale, x, m);
    }
    forall m, x | m in t && x in t[m] ensures LocatedAt(q, s, x, m) {
      assert m in table && x in table[m];
      assert LocatedAt(placed, stale, x, m);
    }
  }

  lemma FlowsAdd(instances: map<FlowTuple, seq<Instance>>, placed: Placed, p: Placement)
    requires FlowsAgree(instances, placed) && p.inst.desc !in placed
    ensures var list := (if p.flow in instances then instances[p.flow] else []) + [p.inst];
      FlowsAgree(instances[p.flow := list], placed[p.inst.desc := p])
    ensures p.flow in instances ==> forall x :: x in instances[p.flow] ==> x.desc != p.inst.desc
  {
  }

  lemma FlowsRemove(instances: map<FlowTuple, seq<Instance>>, placed: Placed, d: nat)
    requires FlowsAgree(instances, placed) && d in placed && placed[d].inst.desc == d
    requires forall e :: e in placed ==> placed[e].inst.desc == e
    ensures FlowsAgree(AllWithout(instances, d), placed - {d})
  {
    var after := AllWithout(instances, d);
    forall f: FlowTuple, x: Instance | f in after && x in after[f]
      ensures x.desc in placed - {d} && placed[x.desc].inst == x && placed[x.desc].flow == f
    {
      WithoutMembers(instances[f], {d});
    }
    forall e | e in placed && e != d ensures placed[e].flow in after && placed[e].inst in after[placed[e].flow] {
      WithoutMembers(instances[placed[e].flow], {d});
    }
  }

  lemma ModelAdd(byName: map<ElemName, set<Instance>>, byDesc: map<nat, Instance>, placed: Placed, p: Placement)
    requires ModelAgrees(byName, byDesc, placed) && p.inst.desc !in placed
    ensures ModelAgrees(byName[p.inst.name := Bucket(byName, p.inst.name) + {p.inst}],
                        byDesc[p.inst.desc := p.inst], placed[p.inst.desc := p])
  {
  }

  lemma ModelRemove(byName: map<ElemName, set<Instance>>, byDesc: map<nat, Instance>, placed: Placed, d: nat)
    requires ModelAgrees(byName, byDesc, placed) && d in placed
    requires forall e :: e in placed ==> placed[e].inst.desc == e
    ensures var x := placed[d].inst;
      ModelAgrees(byName[x.name := Bucket(byName, x.name) - {x}], byDesc - {d}, placed - {d})
  {
  }

  // --- the tables together ---

  // Every table, with the history it must agree with: the live instances, the removed
  // ones whose machine was never told, and all descriptors removed so far.
  datatype Tables = Tables(
    macs: map<Mac, seq<nat>>, instances: map<FlowTuple, seq<Instance>>, handles: map<nat, AppRecord>,
    byName: map<ElemName, set<Instance>>, byDesc: map<nat, Instance>, latest: nat,
    gone: set<nat>, placed: Placed, stale: map<nat, Mac>)

  ghost predicate Agree(t: Tables) {
    && MacsAgree(t.macs, t.placed, t.stale)
    && FlowsAgree(t.instances, t.placed)
    && AppsAgree(t.handles, t.placed)
    && ModelAgrees(t.byName, t.byDesc, t.placed)
    && InRange(t.placed, t.stale, t.gone, t.latest)
  }

  const NOTHING := Tables(map[], map[], map[], map[], map[], 1, {}, map[], map[])

  type Agreed = t: Tables | Agree(t) ghost witness NOTHING

  // Fresh means issued and never used.
  ghost predicate Fresh(t: Tables, d: nat) {
    2 <= d <= t.latest && d !in t.placed && d !in t.stale && d !in t.gone
  }

  /** Registering a machine keeps the tables in agreement exactly when it is new, or when it
      was known and its list was empty: registering it again forgets what runs on it. */
  lemma MachineAgreesIff(t: Tables, mac: Mac)
    requires Agree(t)
    ensures Agree(t.(macs := t.macs[mac := []])) <==> ListAt(t.macs, mac) == []
  {
    MacsMachineIff(t.macs, t.placed, t.stale, mac);
  }

  ghost function AfterMachine(t: Agreed, mac: Mac): (r: Agreed)
    requires ListAt(t.macs, mac) == []
    ensures r == t.(macs := t.macs[mac := []])
  {
    MachineAgreesIff(t, mac);
    t.(macs := t.macs[mac := []])
  }

  lemma IssueAgrees(t: Tables)
    requires Agree(t)
    ensures var r := t.(latest := t.latest + 1); Agree(r) && Fresh(r, r.latest)
  {
  }

  ghost function AfterIssue(t: Agreed): (r: Agreed)
    ensures r == t.(latest := t.latest + 1) && Fresh(r, r.latest)
  {
    IssueAgrees(t);
    t.(latest := t.latest + 1)
  }

  // All tables after instance x was installed for a flowspace.
  ghost function Installed(t: Tables, x: Instance, flow: FlowTuple, record: AppRecord): Tables {
    Tables(
      t.macs[x.location := ListAt(t.macs, x.location) + [x.desc]],
      t.instances[flow := ListFor(t.instances, flow) + [x]],
      t.handles[x.desc := record],
      t.byName[x.name := Bucket(t.byName, x.name) + {x}],
      t.byDesc[x.desc := x],
      t.latest, t.gone, t.placed[x.desc := Placement(x, flow, record)], t.stale)
  }

  // All tables after the live instance d was removed.
  ghost function Withdrawn(t: Tables, d: nat, delivered: bool): Tables
    requires d in t.placed && t.placed[d].inst.location in t.macs
  {
    var x := t.placed[d].inst;
    Tables(
      if delivered then t.macs[x.location := Removed(t.macs[x.location], d)] else t.macs,
      AllWithout(t.instances, d),
      t.handles - {d},
      t.byName[x.name := Bucket(t.byName, x.name) - {x}],
      t.byDesc - {d},
      t.latest, t.gone + {d}, t.placed - {d}, if delivered then t.stale else t.stale[d := x.location])
  }

  lemma AppsAdd(handles: map<nat, AppRecord>, placed: Placed, d: nat, r: AppRecord, p: Placement)
    requires AppsAgree(handles, placed) && d !in placed && r == p.record && r.appDesc == p.inst.appDesc
    ensures AppsAgree(handles[d := r], placed[d := p])
  {
  }

  lemma RangeRemove(placed: Placed, stale: map<nat, Mac>, gone: set<nat>, latest: nat, d: nat, m: Mac)
    requires InRange(placed, stale, gone, latest) && d in placed
    ensures InRange(placed - {d}, stale, gone + {d}, latest) && InRange(placed - {d}, stale[d := m], gone + {d}, latest)
  {
  }

  /** Installing an instance keeps all tables in agreement. */
  lemma InstallAgrees(t: Tables, x: Instance, flow: FlowTuple, record: AppRecord)
    requires Agree(t) && Fresh(t, x.desc) && x.location in t.macs && record.appDesc == x.appDesc
    ensures Agree(Installed(t, x, flow, record))
  {
    var p := Placement(x, flow, record);
    MacsAdd(t.macs, t.placed, t.stale, x.desc, p);
    FlowsAdd(t.instances, t.placed, p);
    AppsAdd(t.handles, t.placed, x.desc, record, p);
    ModelAdd(t.byName, t.byDesc, t.placed, p);
    assert InRange(t.placed[x.desc := p], t.stale, t.gone, t.latest);
  }

  /** Removing an instance keeps all tables in agreement, its machine's entry being stale if
      the message was not delivered. */
  lemma RemoveAgrees(t: Tables, d: nat, delivered: bool)
    requires Agree(t) && d in t.placed
    ensures t.placed[d].inst.location in t.macs && Agree(Withdrawn(t, d, delivered))
  {
    MacsRemove(t.macs, t.placed, t.stale, d, delivered);
    FlowsRemove(t.instances, t.placed, d);
    ModelRemove(t.byName, t.byDesc, t.placed, d);
    RangeRemove(t.placed, t.stale, t.gone, t.latest, d, t.placed[d].inst.location);
    assert AppsAgree(t.handles - {d}, t.placed - {d});
  }

  // --- the controller ---

  class Controller {
    const macs: ElementToMac
    const flows: FlowToElements
    const apps: ElementToApplication
    const model: NetworkModel
    var latest: nat
    ghost var view: Agreed

    // The tables hold what the agreed view says.
    ghost predicate Valid()
      reads this, macs, flows, apps, model
    {
      && flows.Valid() && flows.Paired() && flows.instances == view.instances && flows.gone == view.gone
      && macs.table == view.macs && apps.handles == view.handles
      && model.nameToInstances == view.byName && model.edToInstance == view.byDesc
      && latest == view.latest
    }

    constructor ()
      ensures Valid() && view.placed == map[] && view.stale == map[]
      ensures fresh(macs) && fresh(flows) && fresh(apps) && fresh(model)
    {
      macs := new ElementToMac();
      flows := new FlowToElements();
      apps := new ElementToApplication();
      model := new NetworkModel();
      latest := 1;
      view := NOTHING;
    }

    // register_machine: the tables still agree exactly when nothing ran on the machine.
    method RegisterMachine(mac: Mac)
      requires Valid()
      modifies this`view, macs
      ensures macs.table == old(macs.table)[mac := []]
      ensures if ListAt(old(macs.table), mac) == [] then Valid() && view == AfterMachine(old(view), mac)
              else view == old(view) && !Agree(view.(macs := macs.table))
    {
      macs.Add(mac, None);
      MachineAgreesIff(view, mac);
      if ListAt(view.macs, mac) == [] {
        view := AfterMachine(view, mac);
      }
    }

    // get_unique_element_descriptor
    method GetUniqueElementDescriptor() returns (d: nat)
      requires Valid()
      modifies this`latest, this`view
      ensures Valid() && view == AfterIssue(old(view)) && d == view.latest
    {
      latest := latest + 1;
      view := AfterIssue(view);
      d := latest;
    }

    // Step 3 of apply_elem: an install message was delivered, so every table learns of it.
    method RecordInstall(inst: Instance, flow: FlowTuple, record: AppRecord)
      requires Valid() && Fresh(view, inst.desc) && inst.location in macs.table && record.appDesc == inst.appDesc
      modifies this`view, macs, flows, apps, model
      ensures Valid() && view == Installed(old(view), inst, flow, record)
    {
      hide Agree, MatchesLogs, PairedLogs;
      InstallAgrees(view, inst, flow, record);
      NotYetListed(view, inst.desc, flow);
      ghost var after := Installed(view, inst, flow, record);
      RecordTraffic(inst, flow);
      apps.Update(inst.desc, record);
      model.AddPlacement(inst);
      view := after;
    }

    method RecordTraffic(inst: Instance, flow: FlowTuple)
      requires flows.Valid() && flows.Paired() && inst.location in macs.table && inst.desc !in flows.gone
      requires forall x :: x in ListFor(flows.instances, flow) ==> x.desc != inst.desc
      modifies macs, flows
      ensures flows.Valid() && flows.Paired() && flows.gone == old(flows.gone)
      ensures macs.table == old(macs.table)[inst.location := old(macs.table)[inst.location] + [inst.desc]]
      ensures flows.instances == old(flows.instances)[flow := ListFor(old(flows.instances), flow) + [inst]]
    {
      PairedMore(flows.nameLog, flows.instanceLog, flow, inst);
      macs.Add(inst.location, Some(inst.desc));
      flows.AddElement(flow, inst);
      flows.AddElementInstance(flow, inst);
    }

    // apply_elem once a machine has been chosen for every element: descriptors are issued
    // for all of them, then each is installed, until a message is not delivered.
    method ApplyElem(appDesc: nat, flow: FlowTuple, flowspace: nat, names: seq<ElemName>, parameters: seq<string>,
                     locations: seq<Mac>, delivered: seq<bool>) returns (descs: Option<seq<nat>>)
      requires Valid() && |names| == |parameters| == |locations| == |delivered|
      requires forall m :: m in locations ==> m in macs.table
      modifies this, macs, flows, apps, model
      ensures Valid() && view.latest == old(view).latest + |names|
      ensures view.stale == old(view).stale && view.gone == old(view).gone
      ensures view.placed == WithInstalled(old(view).placed, old(view).latest, appDesc, flow, flowspace,
                                           names, parameters, locations, FirstFailure(delivered))
      ensures InstallEffect(old(view).placed, old(view).latest, appDesc, flow, flowspace,
                            names, parameters, locations, FirstFailure(delivered), view.placed)
      ensures descs.Some? <==> FirstFailure(delivered) == |names|
      ensures descs.Some? ==> descs.value == seq(|names|, n => old(view).latest + 1 + n)
    {
      var elemDescs := IssueDescriptors(|names|);
      InstallMeans(old(view).placed, old(view).latest, appDesc, flow, flowspace, names, parameters, locations,
                   FirstFailure(delivered));
      var k := InstallChain(appDesc, flow, flowspace, names, parameters, locations, delivered, elemDescs,
                            old(view).latest);
      descs := if k == |names| then Some(elemDescs) else None;
    }

    // The installing loop; k counts the instances installed.
    method InstallChain(appDesc: nat, flow: FlowTuple, flowspace: nat, names: seq<ElemName>, parameters: seq<string>,
                        locations: seq<Mac>, delivered: seq<bool>, elemDescs: seq<nat>, ghost base: nat)
      returns (k: nat)
      requires Valid() && |names| == |parameters| == |locations| == |delivered| == |elemDescs|
      requires forall n :: 0 <= n < |names| ==> locations[n] in macs.table && elemDescs[n] == base + 1 + n
      requires view.latest == base + |names|
      requires forall d :: base < d <= view.latest ==> Fresh(view, d)
      modifies this`view, macs, flows, apps, model
      ensures Valid() && view.latest == old(view).latest
      ensures view.stale == old(view).stale && view.gone == old(view).gone
      ensures k == FirstFailure(delivered)
      ensures view.placed == WithInstalled(old(view).placed, base, appDesc, flow, flowspace, names, parameters,
                                           locations, k)
    {
      hide Agree, MatchesLogs, PairedLogs;
      ghost var placed0, stale0, gone0 := view.placed, view.stale, view.gone;
      ghost var latest0, known := view.latest, macs.table.Keys;
      k := 0;
      while k < |names|
        invariant k <= |names| && k <= FirstFailure(delivered)
        invariant Valid() && macs.table.Keys == known
        invariant view.latest == latest0 && view.stale == stale0 && view.gone == gone0
        invariant view.placed == WithInstalled(placed0, base, appDesc, flow, flowspace, names, parameters, locations, k)
        invariant forall d :: base + k < d <= latest0 ==> Fresh(view, d)
      {
        FirstFailureAt(delivered, k);
        if !delivered[k] {
          return;
        }
        var inst := Instance(names[k], appDesc, elemDescs[k], locations[k], flowspace);
        InstallNext(inst, flow, AppRecord(appDesc, parameters[k]));
        k := k + 1;
      }
    }

    // Install the lowest of the descriptors still unused.
    method InstallNext(inst: Instance, flow: FlowTuple, record: AppRecord)
      requires Valid() && inst.location in macs.table && record.appDesc == inst.appDesc && inst.desc <= view.latest
      requires forall d :: inst.desc - 1 < d <= view.latest ==> Fresh(view, d)
      modifies this`view, macs, flows, apps, model
      ensures Valid() && macs.table.Keys == old(macs.table.Keys)
      ensures view.placed == old(view).placed[inst.desc := Placement(inst, flow, record)]
      ensures view.latest == old(view).latest && view.stale == old(view).stale && view.gone == old(view).gone
      ensures forall d :: inst.desc < d <= view.latest ==> Fresh(view, d)
    {
      hide Agree, MatchesLogs, PairedLogs;
      assert Fresh(view, inst.desc);
      forall d | inst.desc < d <= view.latest ensures Fresh(Installed(view, inst, flow, record), d) {
        assert Fresh(view, d);
      }
      RecordInstall(inst, flow, record);
    }

    method IssueDescriptors(n: nat) returns (descs: seq<nat>)
      requires Valid()
      modifies this`latest, this`view
      ensures Valid() && view == old(view).(latest := old(view).latest + n)
      ensures descs == seq(n, i => old(view).latest + 1 + i)
      ensures forall d :: old(view).latest < d <= view.latest ==> Fresh(view, d)
    {
      NewAreFresh(view, n, view.(latest := view.latest + n));
      descs := [];
      for i := 0 to n
        invariant Valid() && view == old(view).(latest := old(view).latest + i)
        invariant descs == seq(i, j => old(view).latest + 1 + j)
      {
        var d := GetUniqueElementDescriptor();
        descs := descs + [d];
      }
    }

    // remove_elem: an unknown descriptor raises before anything changes; otherwise the
    // instance leaves every table, but its machine's entry only if the message was delivered.
    method RemoveElem(ed: nat, delivered: bool) returns (found: bool)
      requires Valid()
      modifies this`view, macs, flows, apps, model
      ensures Valid()
      ensures found <==> ed in old(view).placed
      ensures found ==> old(view).placed[ed].inst.location in old(view).macs
      ensures view == if found then Withdrawn(old(view), ed, delivered) else old(view)
      ensures found ==> RemovalEffect(old(view), ed, delivered, view)
      ensures found ==> NoTrace(view, ed) && (InMacs(view, ed) <==> !delivered)
    {
      if ed !in apps.handles {
        return false;
      }
      found := true;
      RemovalMeans(view, ed, delivered);
      var dst := macs.Get(ed);
      ListedWhereItRuns(view, ed, dst);
      Forget(ed, dst.value, delivered);
    }

    // Drop a live instance from every table.
    method Forget(ed: nat, dst: Mac, delivered: bool)
      requires Valid() && ed in view.placed && dst == view.placed[ed].inst.location
      requires dst in macs.table && view.placed[ed].inst in Bucket(model.nameToInstances, view.placed[ed].inst.name)
      requires ed in model.edToInstance && model.edToInstance[ed] == view.placed[ed].inst
      modifies this`view, macs, flows, apps, model
      ensures Valid() && view == Withdrawn(old(view), ed, delivered)
    {
      hide Agree, MatchesLogs, PairedLogs;
      RemoveAgrees(view, ed, delivered);
      ghost var x: Instance, after: Tables := view.placed[ed].inst, Withdrawn(view, ed, delivered);
      ForgetTraffic(ed, dst, delivered);
      ForgetOwner(ed, x);
      view := after;
    }

    method ForgetTraffic(ed: nat, dst: Mac, delivered: bool)
      requires flows.Valid() && flows.Paired() && dst in macs.table
      modifies macs, flows
      ensures flows.Valid() && flows.Paired() && flows.gone == old(flows.gone) + {ed}
      ensures macs.table
           == if delivered then old(macs.table)[dst := Removed(old(macs.table)[dst], ed)] else old(macs.table)
      ensures flows.instances == AllWithout(old(flows.instances), ed)
    {
      if delivered {
        var removed := macs.Remove(dst, ed);
      }
      flows.RemoveElementInstance(ed);
    }

    method ForgetOwner(ed: nat, ghost x: Instance)
      requires ed in model.edToInstance && model.edToInstance[ed] == x && x in Bucket(model.nameToInstances, x.name)
      modifies apps, model
      ensures apps.handles == old(apps.handles) - {ed}
      ensures model.edToInstance == old(model.edToInstance) - {ed}
      ensures model.nameToInstances
           == old(model.nameToInstances)[x.name := Bucket(old(model.nameToInstances), x.name) - {x}]
    {
      var known := apps.Remove(ed);
      model.RemovePlacement(ed);
    }
  }

  lemma NotYetListed(t: Tables, d: nat, flow: FlowTuple)
    requires Agree(t) && d !in t.placed
    ensures forall x :: x in ListFor(t.instances, flow) ==> x.desc != d
    ensures d !in t.handles
  {
  }

  lemma NewAreFresh(t: Tables, n: nat, t': Tables)
    requires Agree(t) && t' == t.(latest := t.latest + n)
    ensures forall d :: t.latest < d <= t'.latest ==> Fresh(t', d)
  {
  }

  // What get finds for a live descriptor is its machine.
  lemma ListedWhereItRuns(t: Agreed, d: nat, found: Option<Mac>)
    requires d in t.placed
    requires found.Some? ==> found.value in t.macs && d in t.macs[found.value]
    requires found.None? ==> forall m :: m in t.macs ==> d !in t.macs[m]
    ensures found == Some(t.placed[d].inst.location)
    ensures t.placed[d].inst in Bucket(t.byName, t.placed[d].inst.name) && t.placed[d].inst.location in t.macs
    ensures d in t.byDesc && t.byDesc[d] == t.placed[d].inst
  {
    assert LocatedAt(t.placed, t.stale, d, t.placed[d].inst.location);
    if found.Some? {
      assert LocatedAt(t.placed, t.stale, d, found.value);
    }
  }

  // The index of the first message that was not delivered.
  function FirstFailure(delivered: seq<bool>): (n: nat)
    ensures n <= |delivered|
  {
    if delivered == [] || !delivered[0] then 0 else 1 + FirstFailure(delivered[1..])
  }

  lemma {:induction false} FirstFailureAt(delivered: seq<bool>, k: nat)
    requires k <= FirstFailure(delivered) && k < |delivered|
    ensures k == FirstFailure(delivered) <==> !delivered[k]
  {
    if k > 0 {
      FirstFailureAt(delivered[1..], k - 1);
    }
  }

  // The live instances after the first k elements of a chain were installed.
  ghost function WithInstalled(placed: Placed, latest: nat, appDesc: nat, flow: FlowTuple, flowspace: nat,
                               names: seq<ElemName>, parameters: seq<string>, locations: seq<Mac>, k: nat): Placed
    requires |names| == |parameters| == |locations|
  {
    if k == 0 || k > |names| then placed
    else
      var d := latest + k;
      WithInstalled(placed, latest, appDesc, flow, flowspace, names, parameters, locations, k - 1)
      [d := Placement(Instance(names[k - 1], appDesc, d, locations[k - 1], flowspace), flow,
                      AppRecord(appDesc, parameters[k - 1]))]
  }

  // What installing the first k elements of a chain means for the live instances: each is live
  // under the next descriptor, and the others are untouched.
  ghost predicate InstallEffect(placed: Placed, latest: nat, appDesc: nat, flow: FlowTuple, flowspace: nat,
                                names: seq<ElemName>, parameters: seq<string>, locations: seq<Mac>, k: nat,
                                placed': Placed)
    requires |names| == |parameters| == |locations| && k <= |names|
  {
    && (forall d :: d in placed' <==> d in placed || latest < d <= latest + k)
    && (forall d :: d in placed && !(latest < d <= latest + k) ==> placed'[d] == placed[d])
    && (forall d :: latest < d <= latest + k ==>
          var n := d - latest - 1;
          placed'[d] == Placement(Instance(names[n], appDesc, d, locations[n], flowspace), flow,
                                  AppRecord(appDesc, parameters[n])))
  }

  lemma {:induction false} InstallMeans(placed: Placed, latest: nat, appDesc: nat, flow: FlowTuple, flowspace: nat,
                                        names: seq<ElemName>, parameters: seq<string>, locations: seq<Mac>, k: nat)
    requires |names| == |parameters| == |locations| && k <= |names|
    ensures InstallEffect(placed, latest, appDesc, flow, flowspace, names, parameters, locations, k,
                          WithInstalled(placed, latest, appDesc, flow, flowspace, names, parameters, locations, k))
  {
    if k > 0 {
      InstallMeans(placed, latest, appDesc, flow, flowspace, names, parameters, locations, k - 1);
    }
  }

  // What removing the live instance d means: it is gone for good, and where its machine was not
  // told, the machine keeps a stale entry.
  ghost predicate RemovalEffect(t: Tables, d: nat, delivered: bool, t': Tables)
    requires d in t.placed
  {
    && t'.placed == t.placed - {d} && t'.gone == t.gone + {d} && t'.latest == t.latest
    && t'.stale == if delivered then t.stale else t.stale[d := t.placed[d].inst.location]
  }

  // No table but perhaps the machine table mentions d.
  ghost predicate NoTrace(t: Tables, d: nat) {
    && d !in t.handles && d !in t.byDesc && !InFlows(t, d)
    && forall n, x :: n in t.byName && x in t.byName[n] ==> x.desc != d
  }

  /** A removed instance is in no table any more, only its machine's entry stays if the machine was
      not told. */
  lemma RemovalMeans(t: Tables, d: nat, delivered: bool)
    requires Agree(t) && d in t.placed
    ensures t.placed[d].inst.location in t.macs
    ensures var t' := Withdrawn(t, d, delivered);
      RemovalEffect(t, d, delivered, t') && NoTrace(t', d) && (InMacs(t', d) <==> !delivered)
  {
    RemoveAgrees(t, d, delivered);
    var t' := Withdrawn(t, d, delivered);
    SameDescriptors(t', d);
    RemovedFromMacs(t, d, delivered, t');
  }

  lemma RemovedFromMacs(t: Tables, d: nat, delivered: bool, t': Tables)
    requires Agree(t) && d in t.placed && Agree(t') && RemovalEffect(t, d, delivered, t')
    ensures InMacs(t', d) <==> !delivered
  {
    if InMacs(t', d) {
      var m :| m in t'.macs && d in t'.macs[m];
      assert LocatedAt(t'.placed, t'.stale, d, m);
    } else if !delivered {
      OneLocation(t', d);
    }
  }

  // --- what agreement gives ---

  ghost predicate InMacs(t: Tables, d: nat) {
    exists m :: m in t.macs && d in t.macs[m]
  }

  ghost predicate InFlows(t: Tables, d: nat) {
    exists f, x :: f in t.instances && x in t.instances[f] && x.desc == d
  }

  /** The flow table, the application table and both placement indexes always hold the same
      descriptors, all between 2 and the latest issued. */
  lemma SameDescriptors(t: Tables, d: nat)
    requires Agree(t)
    ensures d in t.handles <==> d in t.byDesc
    ensures d in t.handles <==> InFlows(t, d)
    ensures d in t.handles <==> exists n, x :: n in t.byName && x in t.byName[n] && x.desc == d
    ensures d in t.handles ==> 2 <= d <= t.latest && InMacs(t, d)
  {
    if d in t.placed {
      var p := t.placed[d];
      assert p.inst in t.instances[p.flow];
      assert p.inst in Bucket(t.byName, p.inst.name);
      assert p.inst.name in t.byName && p.inst in t.byName[p.inst.name];
      assert LocatedAt(t.placed, t.stale, d, p.inst.location);
    }
  }

  // Descriptor d stands at position i of the list under key k.
  ghost predicate InstanceAt(m: map<FlowTuple, seq<Instance>>, f: FlowTuple, i: nat, d: nat) {
    f in m && i < |m[f]| && m[f][i].desc == d
  }

  ghost predicate MacAt(m: map<Mac, seq<nat>>, mac: Mac, i: nat, d: nat) {
    mac in m && i < |m[mac]| && m[mac][i] == d
  }

  lemma OnceInFlows(instances: map<FlowTuple, seq<Instance>>, placed: Placed, d: nat)
    requires FlowsAgree(instances, placed) && d in placed && placed[d].inst.desc == d
    requires forall f :: f in instances ==> DistinctDescs(instances[f])
    ensures exists f, i: nat :: InstanceAt(instances, f, i, d)
    ensures forall f, i: nat, g, j: nat ::
      InstanceAt(instances, f, i, d) && InstanceAt(instances, g, j, d) ==> f == g && i == j
  {
    var p := placed[d];
    assert p.inst in instances[p.flow];
    var i :| 0 <= i < |instances[p.flow]| && instances[p.flow][i] == p.inst;
    assert InstanceAt(instances, p.flow, i, d);
    forall f, k: nat | InstanceAt(instances, f, k, d) ensures f == p.flow && k == i {
      assert instances[f][k] in instances[f];
    }
  }

  lemma OnceInMacs(table: map<Mac, seq<nat>>, placed: Placed, stale: map<nat, Mac>, d: nat)
    requires MacsAgree(table, placed, stale) && d in placed && d !in stale
    ensures exists m, i: nat :: MacAt(table, m, i, d)
    ensures forall m, i: nat, n, j: nat :: MacAt(table, m, i, d) && MacAt(table, n, j, d) ==> m == n && i == j
  {
    var loc := placed[d].inst.location;
    assert LocatedAt(placed, stale, d, loc);
    var i :| 0 <= i < |table[loc]| && table[loc][i] == d;
    assert MacAt(table, loc, i, d);
    forall m, k: nat | MacAt(table, m, k, d) ensures m == loc && k == i {
      assert table[m][k] in table[m];
      assert LocatedAt(placed, stale, d, m);
    }
  }

  /** In any state the controller can reach, a live descriptor stands at exactly one place of the
      flow table and at exactly one place of the machine table. */
  lemma ExactlyOnce(c: Controller, d: nat)
    requires c.Valid() && d in c.view.placed
    ensures exists f, i: nat :: InstanceAt(c.flows.instances, f, i, d)
    ensures forall f, i: nat, g, j: nat ::
      InstanceAt(c.flows.instances, f, i, d) && InstanceAt(c.flows.instances, g, j, d) ==> f == g && i == j
    ensures exists m, i: nat :: MacAt(c.macs.table, m, i, d)
    ensures forall m, i: nat, n, j: nat ::
      MacAt(c.macs.table, m, i, d) && MacAt(c.macs.table, n, j, d) ==> m == n && i == j
  {
    hide MacsAgree, FlowsAgree, AppsAgree, ModelAgrees;
    OnceInFlows(c.flows.instances, c.view.placed, d);
    OnceInMacs(c.macs.table, c.view.placed, c.view.stale, d);
  }

  lemma OneLocation(t: Tables, d: nat)
    requires Agree(t) && (d in t.placed || d in t.stale)
    ensures InMacs(t, d)
  {
    assert LocatedAt(t.placed, t.stale, d, if d in t.placed then t.placed[d].inst.location else t.stale[d]);
  }

  /** The machine table agrees with them too exactly when every removal message was delivered. */
  lemma MacTableAgreesIff(t: Tables)
    requires Agree(t)
    ensures (forall d :: InMacs(t, d) <==> d in t.handles) <==> t.stale == map[]
  {
    forall d ensures InMacs(t, d) <==> d in t.placed || d in t.stale {
      if InMacs(t, d) {
        var m :| m in t.macs && d in t.macs[m];
        assert LocatedAt(t.placed, t.stale, d, m);
      } else if d in t.placed || d in t.stale {
        OneLocation(t, d);
      }
    }
    if t.stale != map[] {
      assert exists d :: d in t.stale;
      var d :| d in t.stale;
      assert InMacs(t, d) && d !in t.handles;
    }
  }

  /** The query by name and the query by descriptor return the same descriptors exactly when the
      name is not empty or every live instance has the empty name. */
  method QueriesAgree(c: Controller, name: ElemName) returns (byName: seq<nat>, byDesc: seq<nat>)
    requires c.Valid()
    ensures forall d :: d in byName <==> d in c.view.placed && c.view.placed[d].inst.name == name
    ensures forall d :: d in byDesc <==> d in c.view.placed && (name == "" || c.view.placed[d].inst.name == name)
    ensures (forall d :: d in byName <==> d in byDesc)
       <==> name != "" || forall d :: d in c.view.placed ==> c.view.placed[d].inst.name == ""
  {
    byName := c.model.GetElementDescriptors(name);
    byDesc := c.model.GetElemDescs(Some(name));
    NameIndexExact(c.view, name);
    IndexedAsPlaced(c.view);
  }

  lemma IndexedAsPlaced(t: Tables)
    requires Agree(t)
    ensures t.byDesc.Keys == t.placed.Keys && forall d :: d in t.placed ==> t.byDesc[d] == t.placed[d].inst
  {
  }

  lemma NameIndexExact(t: Tables, name: ElemName)
    requires Agree(t)
    ensures forall d :: (exists x :: x in Bucket(t.byName, name) && x.desc == d)
                    <==> d in t.byDesc && t.byDesc[d].name == name
  {
  }
}
