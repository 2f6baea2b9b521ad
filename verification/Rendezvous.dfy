// POXCore's component rendezvous: register, call_when_ready and the waiters they
// wake, with callbacks that may themselves register components or add waiters.
module Rendezvous {
  import opened Sequences

  // What may stand in a list of components: a name, another object that can be looked up but is
  // no component's name (None, an empty tuple), or one that cannot even be looked up (a list).
  datatype Key = Name(name: string) | Odd | Unhashable

  // What user code may do, at the top level or inside a callback.
  datatype Op = Register(name: string) | CallWhenReady(entry: Entry)

  // A waiting callback: the components it needs and what it does when called.
  datatype Entry = Entry(tag: nat, components: seq<Key>, body: seq<Op>)

  // --- the components argument ---

  type HashKey = k: Key | k != Unhashable witness Odd

  datatype Argument =
    | OneName(name: string)
    | ASet(elements: set<HashKey>)
    | AList(items: seq<Key>)
    | ATuple(items: seq<Key>)
    | Single(hashable: bool)

  // What call_when_ready makes of its argument. An empty list or tuple has no first element and
  // is therefore taken for a single component itself.
  ghost predicate Normalised(arg: Argument, components: seq<Key>) {
    match arg
    case OneName(n) => components == [Name(n)]
    case ASet(elements) => NoRepeat(components) && forall k :: k in components <==> k in elements
    case AList(items) => components == if items == [] then [Unhashable] else items
    case ATuple(items) => components == if items == [] then [Odd] else items
    case Single(hashable) => components == [if hashable then Odd else Unhashable]
  }

  ghost predicate AllNames(arg: Argument) {
    match arg
    case OneName(_) => true
    case ASet(elements) => forall k :: k in elements ==> k.Name?
    case AList(items) => items != [] && forall k :: k in items ==> k.Name?
    case ATuple(items) => items != [] && forall k :: k in items ==> k.Name?
    case Single(_) => false
  }

  method Normalise(arg: Argument) returns (components: seq<Key>)
    ensures Normalised(arg, components)
  {
    match arg {
      case OneName(n) => components := [Name(n)];
      case ASet(elements) =>
        components := [];
        var rest := elements;
        while rest != {}
          invariant rest <= elements && NoRepeat(components)
          invariant forall k :: k in components <==> k in elements && k !in rest
        {
          var k: HashKey :| k in rest;
          components, rest := components + [k], rest - {k};
        }
      case AList(items) => components := if items == [] then [Unhashable] else items;
      case ATuple(items) => components := if items == [] then [Odd] else items;
      case Single(hashable) => components := [if hashable then Odd else Unhashable];
    }
  }

  // hasComponent, for what can be looked up
  predicate Has(components: set<string>, k: Key) {
    k.Name? && k.name in components
  }

  ghost predicate Ready(components: set<string>, e: Entry) {
    forall k :: k in e.components ==> Has(components, k)
  }

  // Looking the components up raises a TypeError: everything before one that cannot be looked
  // up is there.
  ghost predicate Raises(components: set<string>, e: Entry) {
    exists i :: 0 <= i < |e.components| && RaisesAt(components, e, i)
  }

  ghost predicate RaisesAt(components: set<string>, e: Entry, i: nat)
    requires i < |e.components|
  {
    e.components[i].Unhashable? && forall j :: 0 <= j < i ==> Has(components, e.components[j])
  }

  lemma RaisesMore(components: set<string>, more: set<string>, e: Entry)
    requires Raises(components, e) && components <= more
    ensures Raises(more, e) && !Ready(more, e)
  {
    var i :| 0 <= i < |e.components| && RaisesAt(components, e, i);
    assert RaisesAt(more, e, i) && e.components[i] in e.components;
  }

  /** The arguments that make an entry some components can satisfy: a name, a set of names, or a
      list or tuple of at least one name. */
  lemma UsableIff(arg: Argument, e: Entry)
    requires Normalised(arg, e.components)
    ensures (exists components :: Ready(components, e)) <==> AllNames(arg)
  {
    if AllNames(arg) {
      assert Ready(set k | k in e.components && k.Name? :: k.name, e);
    }
    if components :| Ready(components, e) {
      assert e.components != [] ==> Has(components, e.components[0]);
      assert forall k :: k in e.components ==> k.Name?;
    }
  }

  /** The default argument, an empty list, raises whatever is registered; an empty tuple never
      raises and is never satisfied; an empty set is satisfied at once. */
  lemma EmptyArguments(components: set<string>, e: Entry)
    ensures Normalised(AList([]), e.components) ==> Raises(components, e) && !Ready(components, e)
    ensures Normalised(ATuple([]), e.components) ==> !Raises(components, e) && !Ready(components, e)
    ensures Normalised(ASet({}), e.components) ==> !Raises(components, e) && Ready(components, e)
  {
    if Normalised(AList([]), e.components) {
      assert RaisesAt(components, e, 0) && e.components[0] in e.components;
    }
    assert e.components != [] ==> e.components[0] in e.components;
  }

  function OpSize(op: Op): nat
    decreases op
  {
    match op
    case Register(_) => 1
    case CallWhenReady(e) => 1 + EntrySize(e)
  }

  function EntrySize(e: Entry): nat
    decreases e
  {
    1 + OpsSize(e.body)
  }

  function OpsSize(ops: seq<Op>): nat
    decreases ops
  {
    if ops == [] then 0 else OpSize(ops[0]) + OpsSize(ops[1..])
  }

  function WaitersSize(ws: seq<Entry>): nat {
    if ws == [] then 0 else EntrySize(ws[0]) + WaitersSize(ws[1..])
  }

  lemma {:induction false} WaitersSizeAppend(a: seq<Entry>, b: seq<Entry>)
    ensures WaitersSize(a + b) == WaitersSize(a) + WaitersSize(b)
  {
    if a == [] {
      assert a + b == b;
    } else {
      assert (a + b)[1..] == a[1..] + b;
      WaitersSizeAppend(a[1..], b);
    }
  }

  // --- the record of a run ---

  // The operations contained in the callbacks fired so far.
  ghost function Bodies(fired: seq<Entry>): multiset<Op> {
    if fired == [] then multiset{} else Bodies(fired[..|fired| - 1]) + multiset(fired[|fired| - 1].body)
  }

  // Each firing was caused: the entry had been handed to call_when_ready often
  // enough, and its components registered, by top-level operations or earlier firings.
  ghost predicate Justified(given: multiset<Op>, fired: seq<Entry>) {
    forall n {:trigger Caused(given + Bodies(fired[..n]), fired[..n], fired[n])} ::
      0 <= n < |fired| ==> Caused(given + Bodies(fired[..n]), fired[..n], fired[n])
  }

  ghost predicate Caused(ops: multiset<Op>, before: seq<Entry>, e: Entry) {
    && multiset(before)[e] < ops[CallWhenReady(e)]
    && forall k :: k in e.components ==> k.Name? && Register(k.name) in ops
  }

  ghost predicate Quiet(components: set<string>, waiters: multiset<Entry>) {
    forall e :: e in waiters ==> !Ready(components, e)
  }

  // What happens in a run, in order: a component enters the table, a callback is called.
  datatype Event = Registered(name: string) | Called(entry: Entry)

  ghost function Calls(trace: seq<Event>): seq<Entry> {
    if trace == [] then []
    else
      var last := trace[|trace| - 1];
      Calls(trace[..|trace| - 1]) + if last.Called? then [last.entry] else []
  }

  // Every callback is called after each of its components has been registered.
  ghost predicate InOrder(trace: seq<Event>) {
    forall i {:trigger trace[i]} :: 0 <= i < |trace| && trace[i].Called? ==> RegisteredIn(trace[..i], trace[i].entry)
  }

  ghost predicate RegisteredIn(before: seq<Event>, e: Entry) {
    forall k :: k in e.components ==> k.Name? && Registered(k.name) in before
  }

  lemma InOrderMore(trace: seq<Event>, event: Event)
    requires InOrder(trace) && (event.Called? ==> RegisteredIn(trace, event.entry))
    ensures InOrder(trace + [event])
    ensures Calls(trace + [event]) == Calls(trace) + if event.Called? then [event.entry] else []
  {
    var t := trace + [event];
    assert t[..|trace|] == trace;
    forall i | 0 <= i < |t| && t[i].Called? ensures RegisteredIn(t[..i], t[i].entry) {
      assert i < |trace| ==> t[..i] == trace[..i];
    }
  }

  // A run so far: the program's own operations; of these and of those in callbacks
  // already called, the ones begun and the ones still pending; the core's state; the
  // callbacks called, in order; and everything that happened, in order.
  datatype Run = Run(given: multiset<Op>, begun: multiset<Op>, pending: multiset<Op>,
                     components: set<string>, waiters: seq<Entry>, fired: seq<Entry>, trace: seq<Event>)

  // The trace tells of the components in the table and of the firings, each in its time.
  ghost predicate Traced(h: Run) {
    && InOrder(h.trace) && Calls(h.trace) == h.fired
    && forall c :: c in h.components <==> Registered(c) in h.trace
  }

  // The operations begun account for the components, the waiters and the firings.
  ghost predicate Tallied(h: Run) {
    && (forall c :: c in h.components <==> Register(c) in h.begun)
    && (forall e {:trigger h.begun[CallWhenReady(e)]} ::
          multiset(h.waiters)[e] + multiset(h.fired)[e] == h.begun[CallWhenReady(e)])
  }

  ghost predicate Balanced(h: Run) {
    h.begun + h.pending == h.given + Bodies(h.fired)
  }

  ghost predicate Sound(h: Run) {
    Tallied(h) && Justified(h.given, h.fired) && Balanced(h) && Traced(h)
  }

  const START := Run(multiset{}, multiset{}, multiset{}, {}, [], [], [])

  lemma StartIsSettled()
    ensures Sound(START) && Settled(START)
  {
  }

  type History = h: Run | Sound(h) ghost witness START

  // Trying some waiter raises.
  ghost predicate Poisoned(h: Run) {
    exists e :: e in h.waiters && Raises(h.components, e)
  }

  // Nothing is under way and every waiter lacks a component.
  ghost predicate Settled(h: Run) {
    h.pending == multiset{} && Quiet(h.components, multiset(h.waiters))
  }

  lemma AddToBoth(a: multiset<Op>, b: multiset<Op>, c: multiset<Op>, d: multiset<Op>, x: multiset<Op>)
    requires a + b == c + d
    ensures a + (b + x) == c + x + d
    ensures a + (b + x) == c + (d + x)
  {
    forall o ensures (a + (b + x))[o] == (c + x + d)[o] && (a + (b + x))[o] == (c + (d + x))[o] {
      assert (a + b)[o] == (c + d)[o];
    }
  }

  lemma Cancel(a: multiset<Op>, b: multiset<Op>)
    ensures b <= a + b && a + b - b == a
  {
  }

  ghost function Start(): (h: History)
    ensures h.given == multiset{} && h.components == {} && h.waiters == [] && h.trace == [] && Settled(h)
  {
    StartIsSettled();
    START
  }

  lemma GiveSound(h: Run, op: Op)
    requires Sound(h)
    ensures Sound(h.(given := h.given + multiset{op}, pending := h.pending + multiset{op}))
  {
    JustifiedMore(h.given, multiset{op}, h.fired);
    AddToBoth(h.begun, h.pending, h.given, Bodies(h.fired), multiset{op});
  }

  ghost function Give(h: History, op: Op): (r: History)
    ensures r == h.(given := h.given + multiset{op}, pending := h.pending + multiset{op})
  {
    GiveSound(h, op);
    h.(given := h.given + multiset{op}, pending := h.pending + multiset{op})
  }

  // The pending operation op begins.
  function Begun(h: Run, op: Op): Run {
    h.(begun := h.begun + multiset{op}, pending := h.pending - multiset{op})
  }

  lemma BegunBalanced(h: Run, op: Op)
    requires Balanced(h) && op in h.pending
    ensures Balanced(Begun(h, op))
  {
    hide Bodies;
    forall o ensures Begun(h, op).begun[o] + Begun(h, op).pending[o] == h.begun[o] + h.pending[o] {
    }
    assert Begun(h, op).begun + Begun(h, op).pending == h.begun + h.pending;
  }

  function AfterRegister(h: Run, name: string): Run {
    Begun(h, Register(name)).(components := h.components + {name}, trace := h.trace + [Registered(name)])
  }

  lemma RegisterTallied(h: Run, name: string)
    requires Tallied(h)
    ensures Tallied(AfterRegister(h, name))
  {
  }

  lemma RegisterTraced(h: Run, name: string)
    requires Traced(h)
    ensures Traced(AfterRegister(h, name))
  {
    InOrderMore(h.trace, Registered(name));
  }

  lemma RegisterSound(h: Run, name: string)
    requires Sound(h) && Register(name) in h.pending
    ensures Sound(AfterRegister(h, name))
  {
    RegisterTallied(h, name);
    RegisterTraced(h, name);
    BegunBalanced(h, Register(name));
    hide Tallied, Traced, Justified;
  }

  ghost function BeginRegister(h: History, name: string): (r: History)
    requires Register(name) in h.pending
    ensures r == AfterRegister(h, name)
  {
    RegisterSound(h, name);
    AfterRegister(h, name)
  }

  function AfterWait(h: Run, e: Entry): Run {
    Begun(h, CallWhenReady(e)).(waiters := h.waiters + [e])
  }

  lemma WaitTallied(h: Run, e: Entry)
    requires Tallied(h)
    ensures Tallied(AfterWait(h, e))
  {
    var r := AfterWait(h, e);
    assert multiset(r.waiters) == multiset(h.waiters) + multiset{e};
  }

  lemma WaitSound(h: Run, e: Entry)
    requires Sound(h) && CallWhenReady(e) in h.pending
    ensures Sound(AfterWait(h, e))
  {
    WaitTallied(h, e);
    BegunBalanced(h, CallWhenReady(e));
    hide Tallied, Justified;
  }

  ghost function BeginWait(h: History, e: Entry): (r: History)
    requires CallWhenReady(e) in h.pending
    ensures r == AfterWait(h, e)
  {
    WaitSound(h, e);
    AfterWait(h, e)
  }

  // The waiter e is called, and leaves the waiters rest behind.
  function AfterFire(h: Run, e: Entry, rest: seq<Entry>): Run {
    h.(waiters := rest, fired := h.fired + [e], pending := h.pending + multiset(e.body), trace := h.trace + [Called(e)])
  }

  lemma FireTraced(h: Run, e: Entry, rest: seq<Entry>)
    requires Traced(h) && Ready(h.components, e)
    ensures Traced(AfterFire(h, e, rest))
  {
    InOrderMore(h.trace, Called(e));
  }

  lemma FireSound(h: Run, e: Entry, rest: seq<Entry>)
    requires Sound(h) && e in h.waiters && multiset(rest) == multiset(h.waiters) - multiset{e} && Ready(h.components, e)
    ensures Sound(AfterFire(h, e, rest))
  {
    FireCaused(h, e);
    FireCounts(h, e, rest);
    FireTraced(h, e, rest);
    assert Tallied(AfterFire(h, e, rest));
    hide Traced, Tallied;
    JustifiedFire(h.given, h.fired, e);
    AddToBoth(h.begun, h.pending, h.given, Bodies(h.fired), multiset(e.body));
  }

  ghost function Fire(h: History, e: Entry, rest: seq<Entry>): (r: History)
    requires e in h.waiters && multiset(rest) == multiset(h.waiters) - multiset{e} && Ready(h.components, e)
    ensures r == AfterFire(h, e, rest)
  {
    FireSound(h, e, rest);
    AfterFire(h, e, rest)
  }

  lemma FireCaused(h: Run, e: Entry)
    requires Sound(h) && e in h.waiters && Ready(h.components, e)
    ensures Caused(h.given + Bodies(h.fired), h.fired, e)
  {
  }

  lemma FireCounts(h: Run, e: Entry, rest: seq<Entry>)
    requires Sound(h) && e in h.waiters && multiset(rest) == multiset(h.waiters) - multiset{e}
    ensures forall x :: multiset(rest)[x] + multiset(h.fired + [e])[x] == h.begun[CallWhenReady(x)]
  {
  }

  lemma JustifiedFire(given: multiset<Op>, fired: seq<Entry>, e: Entry)
    requires Justified(given, fired) && Caused(given + Bodies(fired), fired, e)
    ensures Justified(given, fired + [e]) && Bodies(fired + [e]) == Bodies(fired) + multiset(e.body)
  {
    var f := fired + [e];
    assert f[..|fired|] == fired;
    forall n | 0 <= n < |f| ensures Caused(given + Bodies(f[..n]), f[..n], f[n]) {
      if n < |fired| {
        assert f[..n] == fired[..n];
      }
    }
  }

  lemma JustifiedMore(given: multiset<Op>, more: multiset<Op>, fired: seq<Entry>)
    requires Justified(given, fired)
    ensures Justified(given + more, fired)
  {
    forall n | 0 <= n < |fired| ensures Caused(given + more + Bodies(fired[..n]), fired[..n], fired[n]) {
      assert Caused(given + Bodies(fired[..n]), fired[..n], fired[n]);
    }
  }

  // A step of the core inside one run: the program gave nothing new, and what has happened stays.
  // The done operations leave the pending ones, and unless a waiter raises, no others stay behind
  // that were not pending before. A waiter that raises stays.
  ghost predicate Advances(h: Run, h': Run, done: multiset<Op>) {
    && h'.given == h.given && h.trace <= h'.trace && h.pending - done <= h'.pending
    && (Poisoned(h) ==> Poisoned(h'))
    && (!Poisoned(h') ==> h'.pending == h.pending - done)
  }

  lemma PoisonStays(h: Run, h': Run)
    requires Poisoned(h) && h.components <= h'.components
    requires forall e :: e in h.waiters && !Ready(h'.components, e) ==> e in h'.waiters
    ensures Poisoned(h')
  {
    var e :| e in h.waiters && Raises(h.components, e);
    RaisesMore(h.components, h'.components, e);
  }

  lemma RegisterAdvances(h: Run, name: string)
    ensures Advances(h, AfterRegister(h, name), multiset{Register(name)})
  {
    if Poisoned(h) {
      PoisonStays(h, AfterRegister(h, name));
    }
  }

  lemma WaitAdvances(h: Run, e: Entry)
    ensures Advances(h, AfterWait(h, e), multiset{CallWhenReady(e)})
  {
    if Poisoned(h) {
      PoisonStays(h, AfterWait(h, e));
    }
  }

  lemma NoStep(h: Run)
    ensures Advances(h, h, multiset{})
  {
  }

  lemma AdvancesThen(h0: Run, h1: Run, h2: Run, done: multiset<Op>)
    requires Advances(h0, h1, done) && Advances(h1, h2, multiset{})
    ensures Advances(h0, h2, done)
  {
  }

  lemma SplitOps(pending: multiset<Op>, ops: seq<Op>)
    requires ops != [] && multiset(ops) <= pending
    ensures ops[0] in pending && multiset(ops) == multiset{ops[0]} + multiset(ops[1..])
    ensures OpsSize(ops) == OpSize(ops[0]) + OpsSize(ops[1..])
  {
    assert ops == [ops[0]] + ops[1..];
  }

  lemma RestPending(h0: Run, h1: Run, ops: seq<Op>)
    requires ops != [] && multiset(ops) <= h0.pending && Advances(h0, h1, multiset{ops[0]})
    ensures multiset(ops[1..]) <= h1.pending
  {
    assert ops == [ops[0]] + ops[1..];
  }

  lemma AdvancesOn(h0: Run, h1: Run, h2: Run, ops: seq<Op>)
    requires ops != [] && multiset(ops) <= h0.pending
    requires Advances(h0, h1, multiset{ops[0]}) && Advances(h1, h2, multiset(ops[1..]))
    ensures Advances(h0, h2, multiset(ops))
  {
    assert ops == [ops[0]] + ops[1..];
    assert multiset(ops) == multiset{ops[0]} + multiset(ops[1..]);
  }

  // A callback that raises leaves the rest of its operations undone.
  lemma AdvancesStopped(h0: Run, h1: Run, ops: seq<Op>)
    requires ops != [] && Advances(h0, h1, multiset{ops[0]}) && Poisoned(h1)
    ensures Advances(h0, h1, multiset(ops))
  {
    assert ops == [ops[0]] + ops[1..];
    assert multiset(ops) == multiset{ops[0]} + multiset(ops[1..]);
  }

  lemma AdvancesFired(h: Run, e: Entry, rest: seq<Entry>, h': Run)
    requires Ready(h.components, e) && multiset(rest) == multiset(h.waiters) - multiset{e}
    requires Advances(AfterFire(h, e, rest), h', multiset(e.body))
    ensures Advances(h, h', multiset{}) && h.trace + [Called(e)] <= h'.trace
  {
    Cancel(h.pending, multiset(e.body));
    if Poisoned(h) {
      forall x | x in h.waiters && !Ready(h.components, x) ensures x in rest {
        assert x in multiset(h.waiters) - multiset{e};
        assert x in multiset(rest);
      }
      PoisonStays(h, AfterFire(h, e, rest));
    }
  }

  class POXCore {
    var components: set<string>
    var waiters: seq<Entry>
    ghost var history: History

    // Holds at every call, nested ones included.
    ghost predicate Inv()
      reads this
    {
      components == history.components && waiters == history.waiters
    }

    // Holds between the program's own calls.
    ghost predicate Valid()
      reads this
    {
      Inv() && (Poisoned(history) || Settled(history))
    }

    constructor ()
      ensures Valid() && Settled(history)
      ensures history == Start()
    {
      components, waiters, history := {}, [], Start();
    }

    // core.register called by the program. It raises exactly if a waiter does from then on.
    method ProgramRegisters(name: string) returns (raised: bool)
      requires Valid()
      modifies this
      ensures Valid() && old(history).trace + [Registered(name)] <= history.trace
      ensures history.given == old(history).given + multiset{Register(name)}
      ensures raised <==> Poisoned(history)
      ensures old(Poisoned(history)) ==> raised
      ensures old(waiters) != [] && Raises(old(components), old(waiters)[0]) ==>
        waiters == old(waiters) && history.trace == old(history).trace + [Registered(name)]
    {
      ghost var h0 := history;
      history := Give(history, Register(name));
      ghost var h1 := history;
      raised := RegisterComponent(name);
      GivenAdvances(h0, Register(name), history);
    }

    // core.call_when_ready called by the program. It raises exactly if looking the components
    // up does; an entry that is not called at once waits.
    method ProgramWaits(tag: nat, arg: Argument, body: seq<Op>) returns (entry: Entry, raised: bool)
      requires Valid()
      modifies this
      ensures entry.tag == tag && entry.body == body && Normalised(arg, entry.components)
      ensures Valid() && old(history).trace <= history.trace
      ensures history.given == old(history).given + multiset{CallWhenReady(entry)}
      ensures raised <==> Raises(old(components), entry)
      ensures Ready(old(components), entry) ==> old(history).trace + [Called(entry)] <= history.trace
      ensures !Ready(old(components), entry) ==>
        waiters == old(waiters) + [entry] && components == old(components) && history.trace == old(history).trace
    {
      var keys := Normalise(arg);
      entry := Entry(tag, keys, body);
      ghost var h0 := history;
      history := Give(history, CallWhenReady(entry));
      raised := AddWaiter(entry);
      GivenAdvances(h0, CallWhenReady(entry), history);
    }

    // register
    method RegisterComponent(name: string) returns (raised: bool)
      requires Inv() && Register(name) in history.pending
      modifies this
      ensures Inv() && Advances(old(history), history, multiset{Register(name)})
      ensures old(history).trace + [Registered(name)] <= history.trace
      ensures raised <==> Poisoned(history)
      ensures !raised ==> Quiet(components, multiset(waiters))
      ensures WaitersSize(waiters) <= old(WaitersSize(waiters))
      ensures old(waiters) != [] && Raises(old(components), old(waiters)[0]) ==>
        waiters == old(waiters) && history.trace == old(history).trace + [Registered(name)]
      decreases WaitersSize(waiters), 4
    {
      hide Sound, Advances, Quiet, Poisoned;
      ghost var h0 := history;
      components := components + {name};
      history := BeginRegister(history, name);
      RegisterAdvances(h0, name);
      ghost var h1 := history;
      if |waiters| > 0 && Raises(h0.components, waiters[0]) {
        RaisesMore(h0.components, components, waiters[0]);
      }
      raised := TryWaiters();
      AdvancesThen(h0, h1, history, multiset{Register(name)});
      AdvancesKeeps(h1, history, multiset{});
    }

    // call_when_ready, once the argument is normalised
    method AddWaiter(entry: Entry) returns (raised: bool)
      requires Inv() && CallWhenReady(entry) in history.pending
      modifies this
      ensures Inv() && Advances(old(history), history, multiset{CallWhenReady(entry)})
      ensures raised <==> Raises(old(components), entry)
      ensures raised ==> Poisoned(history)
      ensures !Poisoned(history) && old(Quiet(components, multiset(waiters))) ==> Quiet(components, multiset(waiters))
      ensures WaitersSize(waiters) <= old(WaitersSize(waiters)) + EntrySize(entry)
      ensures Ready(old(components), entry) ==> old(history).trace + [Called(entry)] <= history.trace
      ensures !Ready(old(components), entry) ==>
        waiters == old(waiters) + [entry] && components == old(components) && history.trace == old(history).trace
      decreases WaitersSize(waiters) + EntrySize(entry), 4
    {
      hide Sound, Advances, Poisoned, Quiet, Raises, Ready;
      ghost var h0 := history;
      WaitersSizeAppend(waiters, [entry]);
      waiters := waiters + [entry];
      history := BeginWait(history, entry);
      WaitAdvances(h0, entry);
      ghost var h1 := history;
      assert multiset(waiters) - multiset{entry} == multiset(h0.waiters);
      var done;
      done, raised := TryWaiter(entry);
      AdvancesThen(h0, h1, history, multiset{CallWhenReady(entry)});
    }

    // _try_waiter: call back and report true if everything the entry needs is there.
    method TryWaiter(entry: Entry) returns (done: bool, raised: bool)
      requires Inv()
      modifies this
      ensures Inv() && Advances(old(history), history, multiset{})
      ensures done <==> entry in old(waiters) && Ready(old(components), entry)
      ensures raised <==> entry in old(waiters) && Raises(old(components), entry)
      ensures raised ==> !done && Poisoned(history)
      ensures done ==> old(history).trace + [Called(entry)] <= history.trace
      ensures !done ==> unchanged(this)
      ensures done ==> WaitersSize(waiters) < old(WaitersSize(waiters))
      ensures !Poisoned(history) && old(Quiet(components, multiset(waiters) - multiset{entry}))
        ==> Quiet(components, multiset(waiters))
      decreases WaitersSize(waiters), 1
    {
      hide Sound, Advances, Poisoned;
      NoStep(history);
      if entry !in waiters {
        // It has been called in the meantime.
        assert multiset(waiters) - multiset{entry} == multiset(waiters);
        return false, false;
      }
      var ready;
      ready, raised := LookUp(entry);
      if raised {
        PoisonHere(history, entry);
        return false, true;
      }
      if !ready {
        return false, false;
      }
      Remove(entry);
      CallBack(entry);
      done := true;
    }

    // A satisfied waiter, already taken off the list, has its callback called; what the callback
    // raises goes no further.
    method CallBack(entry: Entry)
      requires components == history.components && entry in history.waiters && Ready(components, entry)
      requires multiset(waiters) == multiset(history.waiters) - multiset{entry}
      modifies this
      ensures Inv() && Advances(old(history), history, multiset{})
      ensures old(history).trace + [Called(entry)] <= history.trace
      ensures WaitersSize(waiters) <= old(WaitersSize(waiters)) + OpsSize(entry.body)
      ensures !Poisoned(history) && old(Quiet(components, multiset(waiters))) ==> Quiet(components, multiset(waiters))
      decreases WaitersSize(waiters) + OpsSize(entry.body), 6
    {
      hide Sound, Advances, Poisoned;
      ghost var h0, rest := history, waiters;
      Cancel(history.pending, multiset(entry.body));
      history := Fire(history, entry, waiters);
      var raised := RunCallback(entry.body);
      AdvancesFired(h0, entry, rest, history);
    }

    // The loop over the components an entry needs.
    method LookUp(entry: Entry) returns (ready: bool, raised: bool)
      ensures ready <==> Ready(components, entry)
      ensures raised <==> Raises(components, entry)
      ensures raised ==> !ready
    {
      for i := 0 to |entry.components|
        invariant forall j :: 0 <= j < i ==> Has(components, entry.components[j])
      {
        assert entry.components[i] in entry.components;
        if entry.components[i].Unhashable? {
          assert RaisesAt(components, entry, i);
          return false, true;
        }
        if !Has(components, entry.components[i]) {
          return false, false;
        }
      }
      ready, raised := true, false;
    }

    // self._waiters.remove(entry): the first equal entry goes.
    method Remove(entry: Entry)
      requires entry in waiters
      modifies this`waiters
      ensures multiset(waiters) == old(multiset(waiters)) - multiset{entry}
      ensures WaitersSize(waiters) == old(WaitersSize(waiters)) - EntrySize(entry)
    {
      var i := 0;
      while waiters[i] != entry
        invariant i < |waiters| && entry in waiters[i..]
        decreases |waiters| - i
      {
        i := i + 1;
      }
      var a, b := waiters[..i], waiters[i + 1..];
      assert waiters == a + ([entry] + b);
      WaitersSizeAppend(a, [entry] + b);
      WaitersSizeAppend(a, b);
      assert ([entry] + b)[1..] == b;
      waiters := a + b;
    }

    // The callback of a fired entry: its operations in order, until one raises.
    method RunCallback(ops: seq<Op>) returns (raised: bool)
      requires Inv() && multiset(ops) <= history.pending
      modifies this
      ensures Inv() && Advances(old(history), history, multiset(ops))
      ensures raised ==> Poisoned(history)
      ensures !Poisoned(history) && old(Quiet(components, multiset(waiters))) ==> Quiet(components, multiset(waiters))
      ensures WaitersSize(waiters) <= old(WaitersSize(waiters)) + OpsSize(ops)
      decreases WaitersSize(waiters) + OpsSize(ops), 5
    {
      raised := false;
      if ops != [] {
        ghost var h0 := history;
        hide Sound, Advances, Quiet, Poisoned;
        SplitOps(h0.pending, ops);
        raised := Perform(ops[0]);
        ghost var h1 := history;
        if raised {
          AdvancesStopped(h0, h1, ops);
          return;
        }
        RestPending(h0, h1, ops);
        raised := RunCallback(ops[1..]);
        AdvancesKeeps(h1, history, multiset(ops[1..]));
        AdvancesOn(h0, h1, history, ops);
      } else {
        assert Advances(history, history, multiset{});
      }
    }

    method Perform(op: Op) returns (raised: bool)
      requires Inv() && op in history.pending
      modifies this
      ensures Inv() && Advances(old(history), history, multiset{op})
      ensures raised ==> Poisoned(history)
      ensures !Poisoned(history) && old(Quiet(components, multiset(waiters))) ==> Quiet(components, multiset(waiters))
      ensures WaitersSize(waiters) < old(WaitersSize(waiters)) + OpSize(op)
      decreases WaitersSize(waiters) + OpSize(op), 4
    {
      hide Sound, Advances, Quiet, Poisoned;
      match op {
        case Register(name) => raised := RegisterComponent(name);
        case CallWhenReady(entry) => raised := AddWaiter(entry);
      }
    }

    // _try_waiters: passes over the waiters until one changes nothing, or raises.
    method TryWaiters() returns (raised: bool)
      requires Inv()
      modifies this
      ensures Inv() && Advances(old(history), history, multiset{})
      ensures raised <==> Poisoned(history)
      ensures !raised ==> Quiet(components, multiset(waiters))
      ensures WaitersSize(waiters) <= old(WaitersSize(waiters))
      ensures old(waiters) != [] && Raises(old(components), old(waiters)[0]) ==> unchanged(this)
      decreases WaitersSize(waiters), 3
    {
      hide Sound, Advances, Quiet, Poisoned;
      NoStep(history);
      ghost var h0 := history;
      var changed := true;
      raised := false;
      while changed && !raised
        invariant Inv() && Advances(h0, history, multiset{})
        invariant WaitersSize(waiters) <= old(WaitersSize(waiters))
        invariant raised ==> Poisoned(history)
        invariant !changed && !raised ==> Quiet(components, multiset(waiters)) && !Poisoned(history)
        invariant old(waiters) != [] && Raises(old(components), old(waiters)[0]) ==> unchanged(this)
        decreases WaitersSize(waiters), changed && !raised
      {
        ghost var h1 := history;
        changed, raised := TryWaitersOnce();
        AdvancesThen(h0, h1, history, multiset{});
      }
    }

    // One pass over a copy of the waiters.
    method TryWaitersOnce() returns (changed: bool, raised: bool)
      requires Inv()
      modifies this
      ensures Inv() && Advances(old(history), history, multiset{})
      ensures if changed then WaitersSize(waiters) < old(WaitersSize(waiters)) else unchanged(this)
      ensures raised ==> Poisoned(history)
      ensures !changed && !raised ==> Quiet(components, multiset(waiters)) && !Poisoned(history)
      ensures old(waiters) != [] && Raises(old(components), old(waiters)[0]) ==> raised && unchanged(this)
      decreases WaitersSize(waiters), 2
    {
      hide Sound, Advances, Raises, Ready;
      NoStep(history);
      ghost var h0 := history;
      changed, raised := false, false;
      var snapshot := waiters;
      for i := 0 to |snapshot|
        invariant Inv() && Advances(h0, history, multiset{})
        invariant if changed then WaitersSize(waiters) < old(WaitersSize(waiters)) else unchanged(this)
        invariant !changed ==> forall j :: 0 <= j < i ==>
          !Ready(components, snapshot[j]) && !Raises(components, snapshot[j])
        invariant if i == 0 then !changed else !Raises(old(components), snapshot[0])
      {
        ghost var h1 := history;
        var done;
        done, raised := TryWaiter(snapshot[i]);
        AdvancesThen(h0, h1, history, multiset{});
        if raised {
          return;
        }
        if done {
          changed := true;
        }
      }
    }
  }

  lemma AdvancesKeeps(h: Run, h': Run, done: multiset<Op>)
    requires Advances(h, h', done)
    ensures (Poisoned(h) ==> Poisoned(h')) && h.trace <= h'.trace
  {
  }

  lemma PoisonHere(h: Run, e: Entry)
    requires e in h.waiters && Raises(h.components, e)
    ensures Poisoned(h)
  {
  }

  // Between the program's calls only its new operation was pending.
  lemma GivenAdvances(h: Run, op: Op, h': Run)
    requires Poisoned(h) || Settled(h)
    requires Advances(h.(given := h.given + multiset{op}, pending := h.pending + multiset{op}), h', multiset{op})
    ensures Poisoned(h) ==> Poisoned(h')
    ensures !Poisoned(h') ==> h'.pending == multiset{}
  {
    var h1 := h.(given := h.given + multiset{op}, pending := h.pending + multiset{op});
    if Poisoned(h) {
      PoisonStays(h, h1);
    }
  }

  // --- every waiting entry fires once, and the order of the program does not matter ---

  /** Every entry ever handed to call_when_ready (by the program or by a callback already called)
      has been called, is still waiting, or has not been reached yet, as often as it was handed
      over; in the order of events every call comes after the registration of each of its
      components. In a settled run, which every run is between the program's calls unless a waiter
      raises, all have been reached and each waiting one lacks a component. */
  lemma EachFiresOnce(h: Run, e: Entry)
    requires Sound(h)
    ensures multiset(h.waiters)[e] + multiset(h.fired)[e] + h.pending[CallWhenReady(e)]
         == (h.given + Bodies(h.fired))[CallWhenReady(e)]
    ensures Calls(h.trace) == h.fired && forall c :: c in h.components <==> Registered(c) in h.trace
    ensures forall i :: 0 <= i < |h.trace| && h.trace[i] == Called(e) ==>
      forall k :: k in e.components ==> k.Name? && Registered(k.name) in h.trace[..i]
    ensures Settled(h) ==> CallWhenReady(e) !in h.pending
    ensures Settled(h) && e in h.waiters ==> exists k :: k in e.components && !Has(h.components, k)
  {
    assert h.begun[CallWhenReady(e)] + h.pending[CallWhenReady(e)] == (h.begun + h.pending)[CallWhenReady(e)];
    assert e in h.waiters ==> e in multiset(h.waiters);
    forall i | 0 <= i < |h.trace| && h.trace[i] == Called(e)
      ensures forall k :: k in e.components ==> k.Name? && Registered(k.name) in h.trace[..i]
    {
      assert RegisteredIn(h.trace[..i], e);
    }
  }

  lemma AddLast(a: multiset<Op>, x: multiset<Op>, y: multiset<Op>)
    ensures a + x + y == a + y + x
  {
  }

  lemma {:induction false} BodiesWithout(s: seq<Entry>, i: nat)
    requires i < |s|
    ensures Bodies(s) == Bodies(s[..i] + s[i + 1..]) + multiset(s[i].body)
  {
    var n := |s| - 1;
    var t := s[..i] + s[i + 1..];
    if i == n {
      assert t == s[..n];
    } else {
      BodiesWithout(s[..n], i);
      assert t[..|t| - 1] == s[..n][..i] + s[..n][i + 1..];
      assert t[|t| - 1] == s[n] && s[..n][i] == s[i];
      AddLast(Bodies(t[..|t| - 1]), multiset(s[i].body), multiset(s[n].body));
    }
  }

  lemma TakeOut(t: seq<Entry>, i: nat)
    requires i < |t|
    ensures multiset(t) == multiset(t[..i] + t[i + 1..]) + multiset{t[i]}
  {
    assert t == t[..i] + ([t[i]] + t[i + 1..]);
  }

  // More firings, in whatever order, contribute more operations.
  lemma {:induction false} BodiesMonotone(s: seq<Entry>, t: seq<Entry>)
    requires multiset(s) <= multiset(t)
    ensures Bodies(s) <= Bodies(t)
  {
    if s != [] {
      var n, e := |s| - 1, s[|s| - 1];
      assert s == s[..n] + [e];
      assert multiset(s)[e] > 0;
      var i :| 0 <= i < |t| && t[i] == e;
      var t' := t[..i] + t[i + 1..];
      TakeOut(t, i);
      assert multiset(s) == multiset(s[..n]) + multiset{e};
      forall x ensures multiset(s[..n])[x] <= multiset(t')[x] {
        assert multiset(s)[x] <= multiset(t)[x];
      }
      BodiesMonotone(s[..n], t');
      BodiesWithout(t, i);
    }
  }

  lemma CausedAt(h: Run, n: nat)
    requires Sound(h) && n < |h.fired|
    ensures Caused(h.given + Bodies(h.fired[..n]), h.fired[..n], h.fired[n])
  {
  }

  // Whatever the operations of a complete run justify calling once more has been called.
  lemma CalledEnough(h: Run, before: seq<Entry>, e: Entry)
    requires Sound(h) && Settled(h) && Bodies(before) <= Bodies(h.fired)
    requires Caused(h.given + Bodies(before), before, e)
    ensures multiset(before)[e] < multiset(h.fired)[e]
  {
    EachFiresOnce(h, e);
    assert h.begun + h.pending == h.begun;
    assert Ready(h.components, e) by {
      forall k | k in e.components ensures Has(h.components, k) {
        assert Register(k.name) in h.given + Bodies(before);
        assert Register(k.name) in h.given + Bodies(h.fired);
      }
    }
    assert e !in h.waiters;
    assert (h.given + Bodies(before))[CallWhenReady(e)] <= (h.given + Bodies(h.fired))[CallWhenReady(e)];
  }

  lemma OneMoreEntry(before: seq<Entry>, e: Entry, t: seq<Entry>)
    requires multiset(before) <= multiset(t) && multiset(before)[e] < multiset(t)[e]
    ensures multiset(before + [e]) <= multiset(t)
  {
  }

  lemma FiresNext(a: Run, b: Run, n: nat)
    requires Sound(a) && Sound(b) && Settled(b) && a.given == b.given && n < |a.fired|
    requires multiset(a.fired[..n]) <= multiset(b.fired)
    ensures multiset(a.fired[..n + 1]) <= multiset(b.fired)
  {
    hide Sound, Settled, Caused, Bodies;
    CausedAt(a, n);
    BodiesMonotone(a.fired[..n], b.fired);
    CalledEnough(b, a.fired[..n], a.fired[n]);
    OneMoreEntry(a.fired[..n], a.fired[n], b.fired);
    assert a.fired[..n + 1] == a.fired[..n] + [a.fired[n]];
  }

  // What one complete run called, another complete run of the same program operations calls too.
  lemma {:induction false} FiresToo(a: Run, b: Run, n: nat)
    requires Sound(a) && Sound(b) && Settled(b) && a.given == b.given && n <= |a.fired|
    ensures multiset(a.fired[..n]) <= multiset(b.fired)
  {
    hide Sound, Settled;
    if n > 0 {
      FiresToo(a, b, n - 1);
      FiresNext(a, b, n - 1);
    }
  }

  /** Two settled runs in which the program did the same operations, in any order and with any
      interleaving of callbacks, called the same callbacks, registered the same components and
      left the same entries waiting. */
  lemma OrderIndependence(a: Run, b: Run)
    requires Sound(a) && Settled(a) && Sound(b) && Settled(b) && a.given == b.given
    ensures multiset(a.fired) == multiset(b.fired)
    ensures a.components == b.components
    ensures multiset(a.waiters) == multiset(b.waiters)
  {
    FiredTogether(a, b);
    SameBegun(a, b);
    SameWaiters(a, b);
  }

  lemma FiredTogether(a: Run, b: Run)
    requires Sound(a) && Settled(a) && Sound(b) && Settled(b) && a.given == b.given
    ensures multiset(a.fired) == multiset(b.fired) && Bodies(a.fired) == Bodies(b.fired)
  {
    hide Sound, Settled;
    assert a.fired[..|a.fired|] == a.fired && b.fired[..|b.fired|] == b.fired;
    FiresToo(a, b, |a.fired|);
    FiresToo(b, a, |b.fired|);
    BodiesMonotone(a.fired, b.fired);
    BodiesMonotone(b.fired, a.fired);
  }

  lemma SameWaiters(a: Run, b: Run)
    requires Tallied(a) && Tallied(b) && a.begun == b.begun && multiset(a.fired) == multiset(b.fired)
    ensures multiset(a.waiters) == multiset(b.waiters)
  {
    forall e ensures multiset(a.waiters)[e] == multiset(b.waiters)[e] {
      assert a.begun[CallWhenReady(e)] == b.begun[CallWhenReady(e)];
      assert multiset(a.fired)[e] == multiset(b.fired)[e];
    }
  }

  lemma SameBegun(a: Run, b: Run)
    requires Sound(a) && Settled(a) && Sound(b) && Settled(b)
    requires a.given == b.given && Bodies(a.fired) == Bodies(b.fired)
    ensures a.begun == b.begun && a.components == b.components
  {
    assert a.begun + multiset{} == a.begun && b.begun + multiset{} == b.begun;
    forall c ensures c in a.components <==> c in b.components {
      assert c in a.components <==> Register(c) in a.begun;
    }
  }

  // --- arguments that spoil a run ---

  /** If every entry ever handed over names only what can be looked up, nothing ever raises. */
  lemma NeverPoisoned(h: Run)
    requires Sound(h)
    requires forall e :: CallWhenReady(e) in h.given + Bodies(h.fired) ==> Unhashable !in e.components
    ensures !Poisoned(h)
  {
    forall e | e in h.waiters ensures !Raises(h.components, e) {
      assert e in multiset(h.waiters);
      assert h.begun[CallWhenReady(e)] > 0;
      assert CallWhenReady(e) in h.begun + h.pending;
      if i :| 0 <= i < |e.components| && RaisesAt(h.components, e, i) {
        assert e.components[i] in e.components;
      }
    }
  }

  /** A callback handed over with the default argument stays in the way for good: of a callback
      that waits behind it even the registration of all it needs does not lead to a call. */
  method EmptyListBlocks(name: string, body: seq<Op>, later: seq<Op>)
    returns (core: POXCore, first: bool, second: bool, third: bool, waiting: Entry)
    ensures first && !second && third
    ensures waiting in core.waiters && waiting.components == [Name(name)] && Ready(core.components, waiting)
  {
    hide Sound, Settled, Poisoned, Raises, Ready;
    core := new POXCore();
    assert core.waiters == [] && core.components == {};
    var entry;
    entry, first := core.ProgramWaits(0, AList([]), body);
    EmptyArguments({}, entry);
    assert first && core.waiters == [entry] && core.components == {};
    waiting, second := core.ProgramWaits(1, OneName(name), later);
    OneNameNeeds({}, waiting, name);
    assert core.waiters == [entry, waiting] && core.components == {};
    third := core.ProgramRegisters(name);
    InTable(core.history, name);
    EmptyArguments(core.components, entry);
    PoisonHere(core.history, entry);
    OneNameNeeds(core.components, waiting, name);
  }

  lemma OneNameNeeds(components: set<string>, e: Entry, name: string)
    requires Normalised(OneName(name), e.components)
    ensures !Raises(components, e) && (Ready(components, e) <==> name in components)
  {
    assert e.components[0] in e.components;
  }

  lemma InTable(h: History, name: string)
    requires Registered(name) in h.trace
    ensures name in h.components
  {
  }
}
