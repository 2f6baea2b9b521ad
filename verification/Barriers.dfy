// Delayed packets in l2_multi_slick: a path's packet is held until every hop has
// answered its barrier request (section 5.3.7 of the OpenFlow Switch
// Specification 1.0.0), unless the path expires first.

/** The protocol as a state machine over values, and what holds in every run. */
module BarrierProtocol {
  import opened Graph

  // A barrier request or reply: the switch it concerns and its transaction id.
  datatype Key = Key(dpid: Switch, xid: nat)

  const PATH_SETUP_TIME := 4
  const MAX_WAITING := 1000

  // asked is every barrier the path ever requested, xids those still outstanding.
  datatype Path = Path(expiresAt: int, hasPacket: bool, asked: set<Key>, xids: set<Key>)

  // Paths are numbered in creation order. completed lists the paths reported
  // installed, in order; swept those given up by a sweep.
  datatype Table = Table(waiting: map<Key, nat>, paths: seq<Path>, replied: set<Key>,
                         completed: seq<nat>, swept: set<nat>)

  datatype Event =
    | Install(keys: seq<Key>, hasPacket: bool, now: int)
    | Reply(key: Key)
    | Tick(now: int)

  const EMPTY := Table(map[], [], {}, [], {})

  ghost predicate Expired(t: Table, k: Key, now: int)
    requires k in t.waiting && t.waiting[k] < |t.paths|
  {
    now >= t.paths[t.waiting[k]].expiresAt
  }

  // The table refers to existing paths only.
  ghost predicate InRange(t: Table) {
    forall k :: k in t.waiting ==> t.waiting[k] < |t.paths|
  }

  // expire_waiting_paths
  ghost function Sweep(t: Table, now: int): Table
    requires InRange(t)
  {
    t.(waiting := map k | k in t.waiting && !Expired(t, k, now) :: t.waiting[k],
       swept := t.swept + set k | k in t.waiting && Expired(t, k, now) :: t.waiting[k])
  }

  // _install_path: the constructor sweeps a crowded table, then every hop's key is added.
  ghost function InstallPath(t: Table, keys: seq<Key>, hasPacket: bool, now: int): Table
    requires InRange(t)
  {
    AddPath(if |t.waiting| > MAX_WAITING then Sweep(t, now) else t, KeySet(keys), hasPacket, now)
  }

  function KeySet(keys: seq<Key>): set<Key> {
    set k | k in keys
  }

  // The entries that map every key of ks to v.
  function EntriesTo<V>(ks: set<Key>, v: V): map<Key, V> {
    map k | k in ks :: v
  }

  ghost function AddPath(t: Table, ks: set<Key>, hasPacket: bool, now: int): Table {
    t.(waiting := t.waiting + EntriesTo(ks, |t.paths|),
       paths := t.paths + [Path(now + PATH_SETUP_TIME, hasPacket, ks, ks)])
  }

  // _handle_BarrierIn and notify
  ghost function BarrierIn(t: Table, key: Key): Table
    requires InRange(t)
  {
    var s := t.(replied := t.replied + {key});
    if key !in t.waiting then s
    else
      var n := t.waiting[key];
      var left := t.paths[n].xids - {key};
      s.(waiting := t.waiting - {key},
         paths := t.paths[n := t.paths[n].(xids := left)],
         completed := if left == {} then t.completed + [n] else t.completed)
  }

  ghost function Step(t: Table, e: Event): Table
    requires InRange(t)
  {
    match e
    case Install(keys, hasPacket, now) => InstallPath(t, keys, hasPacket, now)
    case Reply(key) => BarrierIn(t, key)
    case Tick(now) => Sweep(t, now)
  }

  // Barrier requests carry transaction ids never used before.
  ghost predicate Issued(t: Table, k: Key) {
    exists n :: 0 <= n < |t.paths| && k in t.paths[n].asked
  }

  ghost predicate Allowed(t: Table, e: Event) {
    e.Install? ==> |e.keys| > 0 && forall k :: k in e.keys ==> !Issued(t, k) && k !in t.replied
  }

  ghost predicate Live(t: Table, n: nat) {
    n < |t.paths| && n !in t.swept && n !in t.completed
  }

  ghost predicate PathSound(t: Table, n: nat)
    requires n < |t.paths|
  {
    var p := t.paths[n];
    && p.asked != {} && p.xids <= p.asked
    && (Live(t, n) ==> p.xids != {} && p.xids !! t.replied && p.asked - p.xids <= t.replied)
    && (n in t.completed ==> p.asked <= t.replied)
    && (Live(t, n) ==> forall k :: k in p.xids ==> k in t.waiting && t.waiting[k] == n)
  }

  ghost predicate Sound(t: Table) {
    && (forall k :: k in t.waiting ==> Live(t, t.waiting[k]) && k in t.paths[t.waiting[k]].xids)
    && (forall n :: 0 <= n < |t.paths| ==> PathSound(t, n))
    && (forall n :: n in t.completed ==> n < |t.paths| && n !in t.swept)
    && (forall n :: n in t.swept ==> n < |t.paths|)
    && (forall i, j :: 0 <= i < j < |t.completed| ==> t.completed[i] != t.completed[j])
  }

  lemma SweepKeepsSound(t: Table, now: int)
    requires Sound(t)
    ensures Sound(Sweep(t, now))
  {
    var s := Sweep(t, now);
    forall n | 0 <= n < |t.paths| ensures PathSound(s, n) {
      assert PathSound(t, n);
    }
  }

  /** A sweep gives up exactly the live paths whose time has come. */
  lemma SweepDropsExpired(t: Table, now: int, n: nat)
    requires Sound(t) && n < |t.paths|
    ensures n in Sweep(t, now).swept <==> n in t.swept || (Live(t, n) && now >= t.paths[n].expiresAt)
  {
    assert PathSound(t, n);
    if Live(t, n) {
      var k :| k in t.paths[n].xids;
      assert k in t.waiting && t.waiting[k] == n;
    }
  }

  lemma AddPathKeepsSound(t: Table, ks: set<Key>, hasPacket: bool, now: int)
    requires Sound(t) && ks != {} && ks !! t.replied
    requires forall n :: 0 <= n < |t.paths| ==> ks !! t.paths[n].asked
    ensures Sound(AddPath(t, ks, hasPacket, now))
  {
    var r := AddPath(t, ks, hasPacket, now);
    forall n | 0 <= n < |r.paths| ensures PathSound(r, n) {
      if n < |t.paths| {
        assert PathSound(t, n) && r.paths[n] == t.paths[n];
      }
    }
  }

  lemma InstallKeepsSound(t: Table, keys: seq<Key>, hasPacket: bool, now: int)
    requires Sound(t) && Allowed(t, Install(keys, hasPacket, now))
    ensures Sound(InstallPath(t, keys, hasPacket, now))
  {
    SweepKeepsSound(t, now);
    var s := if |t.waiting| > MAX_WAITING then Sweep(t, now) else t;
    var ks := KeySet(keys);
    assert keys[0] in ks;
    forall n | 0 <= n < |s.paths| ensures ks !! s.paths[n].asked {
      assert forall k :: k in keys ==> !Issued(t, k);
    }
    AddPathKeepsSound(s, ks, hasPacket, now);
  }

  lemma BarrierKeepsSound(t: Table, key: Key)
    requires Sound(t)
    ensures Sound(BarrierIn(t, key))
  {
    var r := BarrierIn(t, key);
    forall n | 0 <= n < |r.paths| ensures PathSound(r, n) {
      assert PathSound(t, n);
    }
  }

  // Runs of protocol events in which every install uses new transaction ids.
  ghost predicate IsRun(t: Table, events: seq<Event>, t': Table)
    decreases |events|
  {
    if events == [] then t' == t
    else InRange(t) && Allowed(t, events[0]) && IsRun(Step(t, events[0]), events[1..], t')
  }

  lemma {:induction false} RunKeepsSound(t: Table, events: seq<Event>, t': Table)
    requires Sound(t) && IsRun(t, events, t')
    ensures Sound(t')
    decreases |events|
  {
    if events != [] {
      match events[0] {
        case Install(keys, hasPacket, now) => InstallKeepsSound(t, keys, hasPacket, now);
        case Reply(key) => BarrierKeepsSound(t, key);
        case Tick(now) => SweepKeepsSound(t, now);
      }
      RunKeepsSound(Step(t, events[0]), events[1..], t');
    }
  }

  // --- the run behind a state ---

  // The installs of a run, in order.
  function Installs(events: seq<Event>): (r: seq<Event>)
    ensures forall n :: 0 <= n < |r| ==> r[n].Install?
  {
    if events == [] then []
    else if events[0].Install? then [events[0]] + Installs(events[1..])
    else Installs(events[1..])
  }

  // p is the path that install e asked for.
  ghost predicate MadeBy(p: Path, e: Event) {
    e.Install? && p.hasPacket == e.hasPacket && p.expiresAt == e.now + PATH_SETUP_TIME
    && forall k :: k in p.asked <==> k in e.keys
  }

  ghost predicate SameOrder(p: Path, q: Path) {
    p.asked == q.asked && p.hasPacket == q.hasPacket && p.expiresAt == q.expiresAt
  }

  // Paths are only ever added, one for each install.
  ghost predicate Extends(t: Table, installs: seq<Event>, t': Table) {
    && |t'.paths| == |t.paths| + |installs|
    && (forall n :: 0 <= n < |t.paths| ==> SameOrder(t.paths[n], t'.paths[n]))
    && (forall n :: |t.paths| <= n < |t'.paths| ==> MadeBy(t'.paths[n], installs[n - |t.paths|]))
  }

  lemma ExtendsTwice(t: Table, a: seq<Event>, u: Table, b: seq<Event>, v: Table)
    requires Extends(t, a, u) && Extends(u, b, v)
    ensures Extends(t, a + b, v)
  {
    forall n | |t.paths| <= n < |v.paths| ensures MadeBy(v.paths[n], (a + b)[n - |t.paths|]) {
      if n < |u.paths| {
        assert MadeBy(u.paths[n], a[n - |t.paths|]) && SameOrder(u.paths[n], v.paths[n]);
      } else {
        assert MadeBy(v.paths[n], b[n - |u.paths|]);
      }
    }
    forall n | 0 <= n < |t.paths| ensures SameOrder(t.paths[n], v.paths[n]) {
      assert SameOrder(t.paths[n], u.paths[n]) && SameOrder(u.paths[n], v.paths[n]);
    }
  }

  lemma StepExtends(t: Table, e: Event)
    requires InRange(t)
    ensures Extends(t, if e.Install? then [e] else [], Step(t, e))
  {
    var r := Step(t, e);
    assert forall n :: 0 <= n < |t.paths| ==> SameOrder(t.paths[n], r.paths[n]);
    if e.Install? {
      assert MadeBy(r.paths[|t.paths|], e);
    }
  }

  lemma NothingInstalled(t: Table)
    ensures Extends(t, [], t)
  {
  }

  /** Path after path, a run adds what its installs ask for. */
  lemma {:induction false} RunExtends(t: Table, events: seq<Event>, t': Table)
    requires IsRun(t, events, t')
    ensures Extends(t, Installs(events), t')
    decreases |events|
  {
    hide Extends, Step;
    if events == [] {
      NothingInstalled(t);
    } else {
      var here := if events[0].Install? then [events[0]] else [];
      StepExtends(t, events[0]);
      RunExtends(Step(t, events[0]), events[1..], t');
      ExtendsTwice(t, here, Step(t, events[0]), Installs(events[1..]), t');
      assert Installs(events) == here + Installs(events[1..]);
    }
  }

  lemma StepReplies(t: Table, e: Event, k: Key)
    requires InRange(t)
    ensures k in Step(t, e).replied <==> k in t.replied || e == Reply(k)
  {
  }

  /** No reply of a run is lost and none is made up. */
  lemma {:induction false} RunReplies(t: Table, events: seq<Event>, t': Table, k: Key)
    requires IsRun(t, events, t')
    ensures k in t'.replied <==> k in t.replied || Reply(k) in events
    decreases |events|
  {
    hide Step;
    if events != [] {
      StepReplies(t, events[0], k);
      RunReplies(Step(t, events[0]), events[1..], t', k);
      assert events == [events[0]] + events[1..];
    }
  }

  // The event looks for expired paths: a crowded table is swept before a new path enters.
  ghost predicate Sweeps(t: Table, e: Event) {
    e.Tick? || (e.Install? && |t.waiting| > MAX_WAITING)
  }

  /** What one event settles: a live path is given up exactly by a sweep past its deadline, and
      completed exactly by the reply to its last outstanding request. */
  lemma StepSettles(t: Table, e: Event, n: nat)
    requires Sound(t) && Allowed(t, e) && n < |t.paths|
    ensures n in Step(t, e).swept <==>
            n in t.swept || (Live(t, n) && Sweeps(t, e) && e.now >= t.paths[n].expiresAt)
    ensures n in Step(t, e).completed <==>
            n in t.completed || (Live(t, n) && e.Reply? && t.paths[n].xids == {e.key})
    ensures t.completed <= Step(t, e).completed
  {
    match e {
      case Install(keys, hasPacket, now) => SweepDropsExpired(t, now, n);
      case Tick(now) => SweepDropsExpired(t, now, n);
      case Reply(key) =>
        assert PathSound(t, n);
        if Live(t, n) && t.paths[n].xids == {key} {
          assert key in t.paths[n].xids;
        }
    }
  }

  // Every request of an install was answered during the run.
  ghost predicate Answered(e: Event, events: seq<Event>)
    requires e.Install?
  {
    forall k :: k in e.keys ==> Reply(k) in events
  }

  /** In every interleaving of installs, replies and sweeps: path n is the one the n-th install
      asked for; each path completes at most once and never after being swept; a path not swept
      has completed exactly when every request of its install was answered; and the table holds
      exactly the unanswered requests of the live paths. */
  lemma BarrierSafety(events: seq<Event>, t: Table)
    requires IsRun(EMPTY, events, t)
    ensures |t.paths| == |Installs(events)|
    ensures forall n :: 0 <= n < |t.paths| ==> MadeBy(t.paths[n], Installs(events)[n])
    ensures forall i, j :: 0 <= i < j < |t.completed| ==> t.completed[i] != t.completed[j]
    ensures forall n :: n in t.completed ==> n < |t.paths| && n !in t.swept
    ensures forall n :: 0 <= n < |t.paths| && n !in t.swept ==>
              (n in t.completed <==> Answered(Installs(events)[n], events))
    ensures forall k, n: nat :: (k in t.waiting && t.waiting[k] == n) <==>
              Live(t, n) && k in Installs(events)[n].keys && Reply(k) !in events
  {
    assert Sound(EMPTY);
    RunKeepsSound(EMPTY, events, t);
    RunExtends(EMPTY, events, t);
    forall k ensures k in t.replied <==> Reply(k) in events {
      RunReplies(EMPTY, events, t, k);
    }
    forall n | 0 <= n < |t.paths| ensures MadeBy(t.paths[n], Installs(events)[n]) {
      assert MadeBy(t.paths[n], Installs(events)[n - |EMPTY.paths|]);
    }
    forall n | 0 <= n < |t.paths| && n !in t.swept
      ensures n in t.completed <==> Answered(Installs(events)[n], events)
    {
      CompletedIffReplied(t, n);
      assert MadeBy(t.paths[n], Installs(events)[n]);
    }
    forall k, n: nat
      ensures (k in t.waiting && t.waiting[k] == n) <==>
              Live(t, n) && k in Installs(events)[n].keys && Reply(k) !in events
    {
      if n < |t.paths| {
        assert MadeBy(t.paths[n], Installs(events)[n]);
        WaitingIffUnanswered(t, k, n);
      }
    }
  }

  lemma CompletedIffReplied(t: Table, n: nat)
    requires Sound(t) && n < |t.paths| && n !in t.swept
    ensures n in t.completed <==> t.paths[n].asked <= t.replied
  {
    assert PathSound(t, n);
    if Live(t, n) {
      var k :| k in t.paths[n].xids;
      assert k !in t.replied;
    }
  }

  lemma WaitingIffUnanswered(t: Table, k: Key, n: nat)
    requires Sound(t) && n < |t.paths|
    ensures (k in t.waiting && t.waiting[k] == n) <==> Live(t, n) && k in t.paths[n].asked && k !in t.replied
  {
    assert PathSound(t, n);
  }
}

/** The objects of the protocol: waiting_paths and the paths it points to. */
module Barriers {
  import opened BarrierProtocol

  class WaitingPath {
    const expiresAt: int
    const hasPacket: bool
    var xids: set<Key>

    constructor (now: int, hasPacket: bool)
      ensures xids == {} && expiresAt == now + PATH_SETUP_TIME && this.hasPacket == hasPacket
    {
      expiresAt, this.hasPacket := now + PATH_SETUP_TIME, hasPacket;
      xids := {};
    }
  }

  // The table entries and the objects hold what the protocol state t says.
  ghost predicate Mirrors(waiting: map<Key, WaitingPath>, objects: seq<WaitingPath>, t: Table)
    reads objects
  {
    && |objects| == |t.paths|
    && (forall i, j :: 0 <= i < j < |objects| ==> objects[i] != objects[j])
    && waiting.Keys == t.waiting.Keys
    && (forall k :: k in waiting ==> t.waiting[k] < |objects| && waiting[k] == objects[t.waiting[k]])
    && (forall n :: 0 <= n < |objects| ==> MirrorsPath(objects[n], t.paths[n]))
  }

  ghost predicate MirrorsPath(o: WaitingPath, p: Path)
    reads o
  {
    o.expiresAt == p.expiresAt && o.hasPacket == p.hasPacket && o.xids == p.xids
  }

  lemma MirrorsAddedPath(w: map<Key, WaitingPath>, objects: seq<WaitingPath>, t: Table, wp: WaitingPath,
                         hasPacket: bool, now: int)
    requires Mirrors(w, objects, t) && wp !in objects
    requires wp.expiresAt == now + PATH_SETUP_TIME && wp.hasPacket == hasPacket
    ensures Mirrors(w + EntriesTo(wp.xids, wp), objects + [wp], AddPath(t, wp.xids, hasPacket, now))
  {
  }

  class BarrierTable {
    var waiting: map<Key, WaitingPath>
    // The protocol state this table implements, and the object of each path number.
    ghost var view: Table
    ghost var objects: seq<WaitingPath>

    ghost predicate Valid()
      reads this, objects
    {
      Sound(view) && Mirrors(waiting, objects, view)
    }

    constructor ()
      ensures Valid() && view == EMPTY && fresh(objects)
    {
      waiting, view, objects := map[], EMPTY, [];
    }

    // The outstanding keys of a path in the table are its entries there.
    lemma OwnKeys(p: WaitingPath, w: map<Key, WaitingPath>)
      requires Sound(view) && Mirrors(w, objects, view) && p in w.Values
      ensures forall k :: k in w ==> (k in p.xids <==> w[k] == p)
    {
      var k0 :| k0 in w && w[k0] == p;
      var n := view.waiting[k0];
      assert PathSound(view, n) && MirrorsPath(objects[n], view.paths[n]);
    }

    // expire_waiting_paths: every expired path loses all of its entries.
    method ExpireWaitingPaths(now: int)
      requires Valid()
      modifies this`waiting, this`view
      ensures Valid() && view == Sweep(old(view), now)
    {
      DropExpired(now);
      SweepKeepsSound(view, now);
      view := Sweep(view, now);
    }

    method DropExpired(now: int)
      requires Valid()
      modifies this`waiting
      ensures forall k :: k in waiting <==> k in old(waiting) && now < old(waiting)[k].expiresAt
      ensures forall k :: k in waiting ==> waiting[k] == old(waiting)[k]
    {
      ghost var waiting0 := waiting;
      var packets := waiting.Values;
      while packets != {}
        invariant packets <= waiting0.Values
        invariant forall k :: k in waiting <==>
                              k in waiting0 && (waiting0[k] in packets || now < waiting0[k].expiresAt)
        invariant forall k :: k in waiting ==> waiting[k] == waiting0[k]
      {
        var p :| p in packets;
        packets := packets - {p};
        if now >= p.expiresAt {
          OwnKeys(p, waiting0);
          waiting := waiting - p.xids;
        }
      }
    }

    // add_xid for every hop of a path.
    method AddXids(wp: WaitingPath, keys: seq<Key>)
      requires wp.xids == {}
      modifies this`waiting, wp`xids
      ensures wp.xids == KeySet(keys)
      ensures waiting == old(waiting) + EntriesTo(KeySet(keys), wp)
    {
      var n := 0;
      while n < |keys|
        invariant n <= |keys|
        invariant wp.xids == KeySet(keys[..n])
        invariant waiting == old(waiting) + EntriesTo(wp.xids, wp)
      {
        wp.xids := wp.xids + {keys[n]};
        waiting := waiting[keys[n] := wp];
        assert keys[..n + 1] == keys[..n] + [keys[n]];
        n := n + 1;
      }
      assert keys[..n] == keys;
    }

    // _install_path: a barrier request follows the rule of every hop.
    method InstallPath(keys: seq<Key>, hasPacket: bool, now: int) returns (wp: WaitingPath)
      requires Valid() && Allowed(view, Install(keys, hasPacket, now))
      modifies this
      ensures Valid() && fresh(wp) && objects == old(objects) + [wp]
      ensures view == Step(old(view), Install(keys, hasPacket, now))
    {
      wp := new WaitingPath(now, hasPacket);
      assert |waiting| == |waiting.Keys| == |view.waiting.Keys| == |view.waiting|;
      if |waiting| > MAX_WAITING {
        ExpireWaitingPaths(now);
      }
      assert AddPath(view, KeySet(keys), hasPacket, now) == Step(old(view), Install(keys, hasPacket, now));
      InstallKeepsSound(old(view), keys, hasPacket, now);
      Register(wp, keys);
    }

    method Register(wp: WaitingPath, keys: seq<Key>)
      requires Valid() && wp !in objects && wp.xids == {}
      requires Sound(AddPath(view, KeySet(keys), wp.hasPacket, wp.expiresAt - PATH_SETUP_TIME))
      modifies this, wp`xids
      ensures Valid() && objects == old(objects) + [wp]
      ensures view == AddPath(old(view), KeySet(keys), wp.hasPacket, wp.expiresAt - PATH_SETUP_TIME)
    {
      ghost var waiting0, objects0, view0 := waiting, objects, view;
      objects := objects + [wp];
      view := AddPath(view, KeySet(keys), wp.hasPacket, wp.expiresAt - PATH_SETUP_TIME);
      AddXids(wp, keys);
      MirrorsAddedPath(waiting0, objects0, view0, wp, wp.hasPacket, wp.expiresAt - PATH_SETUP_TIME);
    }

    // A barrier reply, possibly unknown or repeated. Reports whether it completed a
    // path, and whether a held packet was released.
    method HandleBarrierIn(key: Key) returns (done: bool, released: bool)
      requires Valid()
      modifies this, if key in waiting then {waiting[key]} else {}
      ensures Valid() && objects == old(objects) && view == Step(old(view), Reply(key))
      ensures done <==> key in old(view).waiting && old(view).paths[old(view).waiting[key]].xids == {key}
      ensures done <==> |view.completed| == |old(view).completed| + 1
      ensures released <==> done && view.paths[view.completed[|view.completed| - 1]].hasPacket
    {
      BarrierKeepsSound(view, key);
      done, released := false, false;
      ghost var result := BarrierIn(view, key);
      if key in waiting {
        var wp := waiting[key];
        waiting := waiting - {key};
        wp.xids := wp.xids - {key};
        if wp.xids == {} {
          done, released := true, wp.hasPacket;
        }
      }
      view := result;
    }
  }
}
