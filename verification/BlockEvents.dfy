/**
 Block listeners of the ethers provider: the fields they live in, what each
 uninterrupted piece of code between two awaits does to them, and the machine
 that interleaves such pieces in any order.
 */
module BlockEvents {
  import opened Wrappers

  /** A callback, known by its identity. */
  type Listener = nat

  datatype Item = Item(listener: Listener, once: bool)

  /** A callback was called with a block number (or with the argument of `emit`). */
  datatype Call = Call(listener: Listener, number: nat)

  /**
   `_blockListeners`, `_blockPollingInterval` and `_latestBlockNumberPolled`, the
   calls made so far, and the intervals the runtime still fires.
   */
  datatype Fields = Fields(
    listeners: seq<Item>,
    interval: Option<nat>,
    latest: Option<nat>,
    calls: seq<Call>,
    timers: set<nat>,
    nextTimer: nat
  )

  // ------------------------------------------------------ uninterrupted pieces

  /** `splice(findIndex(...), 1)`: removal of the first item with this identity. */
  function RemoveFirst(items: seq<Item>, l: Listener): seq<Item> {
    if items == [] then []
    else if items[0].listener == l then items[1..]
    else [items[0]] + RemoveFirst(items[1..], l)
  }

  /** `_stopBlockPolling` */
  function Stop(f: Fields): Fields {
    if f.interval.None? then f
    else f.(interval := None, timers := f.timers - {f.interval.value})
  }

  /** `_clearBlockListeners(listener)` */
  function Clear(f: Fields, l: Listener): Fields {
    var f' := f.(listeners := RemoveFirst(f.listeners, l));
    if f'.listeners == [] then Stop(f') else f'
  }

  /** `_clearBlockListeners()` */
  function ClearAll(f: Fields): Fields {
    Stop(f.(listeners := []))
  }

  function ClearEach(f: Fields, ls: seq<Listener>): Fields
    decreases ls
  {
    if ls == [] then f else ClearEach(Clear(f, ls[0]), ls[1..])
  }

  function CallsOf(items: seq<Item>, number: nat): (calls: seq<Call>)
    ensures |calls| == |items| && forall i :: 0 <= i < |items| ==> calls[i] == Call(items[i].listener, number)
  {
    seq(|items|, i requires 0 <= i < |items| => Call(items[i].listener, number))
  }

  function OnceListeners(items: seq<Item>): seq<Listener> {
    if items == [] then []
    else (if items[0].once then [items[0].listener] else []) + OnceListeners(items[1..])
  }

  /** Calls every listener with one number and then drops the once-listeners. Also `_emitBlock`. */
  function Deliver(f: Fields, number: nat): Fields {
    ClearEach(f.(calls := f.calls + CallsOf(f.listeners, number)), OnceListeners(f.listeners))
  }

  /** The loop over the new block numbers. */
  function DeliverRange(f: Fields, from: nat, to: nat): Fields
    decreases if from <= to then to - from + 1 else 0
  {
    if from > to then f else DeliverRange(Deliver(f, from), from + 1, to)
  }

  function Previous(f: Fields): nat {
    if f.latest.Some? then f.latest.value else 0
  }

  /** `_pollBlocks` once the block number has arrived. */
  function Polled(f: Fields, current: nat): Fields {
    if current == Previous(f) then f
    else if current < Previous(f) then f.(latest := Some(current))
    else DeliverRange(f.(latest := Some(current)), Previous(f) + 1, current)
  }

  /** The end of `_startBlockPolling`: an interval is set unless there is one or nobody listens. */
  function FinishStart(f: Fields): Fields {
    if f.listeners == [] || f.interval.Some? then f
    else f.(interval := Some(f.nextTimer), timers := f.timers + {f.nextTimer}, nextTimer := f.nextTimer + 1)
  }

  // ---------------------------------------------------------------- the machine

  /** Where a call of `_startBlockPolling` is waiting. */
  datatype Start = AwaitNetwork | AwaitNumber(isHardhat: bool) | AwaitPolledNumber | AwaitPollDone

  datatype Reply = Network(isHardhat: bool) | Number(number: nat) | Failed | Done

  datatype Machine = Machine(
    f: Fields,
    starts: seq<Start>,  // calls of `on` and `once` that have not returned
    polls: nat           // interval polls waiting for a block number
  )

  datatype Event =
    | On(listener: Listener, once: bool)
    | Off(listener: Listener)
    | OffAll
    | Emit(argument: nat)
    | Tick                             // the interval fires, if there is one
    | StartResumes(k: nat, reply: Reply)
    | PollResumes(reply: Reply)

  function WithoutStart(m: Machine, k: nat): seq<Start>
    requires k < |m.starts|
  {
    m.starts[..k] + m.starts[k + 1..]
  }

  /** One start continues with a reply; a reply it does not wait for changes nothing. */
  function ResumeStart(m: Machine, k: nat, reply: Reply): Machine
    requires k < |m.starts|
  {
    match (m.starts[k], reply)
    case (AwaitNetwork, Network(h)) => m.(starts := m.starts[k := AwaitNumber(h)])
    case (AwaitNumber(_), Failed) => m.(starts := WithoutStart(m, k))
    case (AwaitNumber(true), Number(n)) =>
      m.(f := m.f.(latest := Some(n)), starts := m.starts[k := AwaitPolledNumber])
    case (AwaitNumber(false), Number(n)) =>
      m.(f := FinishStart(m.f.(latest := Some(n))), starts := WithoutStart(m, k))
    case (AwaitPolledNumber, Number(n)) => m.(f := Polled(m.f, n), starts := m.starts[k := AwaitPollDone])
    case (AwaitPolledNumber, Failed) => m.(starts := m.starts[k := AwaitPollDone])
    case (AwaitPollDone, Done) => m.(f := FinishStart(m.f), starts := WithoutStart(m, k))
    case _ => m
  }

  function ResumePoll(m: Machine, reply: Reply): Machine
    requires m.polls > 0
  {
    match reply
    case Number(n) => m.(f := Polled(m.f, n), polls := m.polls - 1)
    case Failed => m.(polls := m.polls - 1)
    case _ => m
  }

  function Step(m: Machine, e: Event): Machine {
    match e
    case On(l, once) =>
      m.(f := m.f.(listeners := m.f.listeners + [Item(l, once)]), starts := m.starts + [AwaitNetwork])
    case Off(l) => m.(f := Clear(m.f, l))
    case OffAll => m.(f := ClearAll(m.f))
    case Emit(x) => m.(f := Deliver(m.f, x))
    case Tick => if m.f.timers == {} then m else m.(polls := m.polls + 1)
    case StartResumes(k, reply) => if k < |m.starts| then ResumeStart(m, k, reply) else m
    case PollResumes(reply) => if m.polls > 0 then ResumePoll(m, reply) else m
  }

  function Run(m: Machine, events: seq<Event>): Machine
    decreases events
  {
    if events == [] then m else Run(Step(m, events[0]), events[1..])
  }

  const INITIAL := Machine(Fields([], None, None, [], {}, 0), [], 0)

  // ------------------------------------------------- one interval, and only if used

  /** The interval the provider remembers is the only one that fires, and somebody listens to it. */
  ghost predicate Sound(f: Fields) {
    && f.timers == (if f.interval.Some? then {f.interval.value} else {})
    && (f.interval.Some? ==> f.listeners != [])
  }

  /** What dropping listeners keeps: a sound state, in which polling stops only for lack of listeners. */
  ghost predicate Shrunk(f: Fields, f': Fields) {
    Sound(f') && (f'.listeners != [] ==> f.listeners != [] && f'.interval == f.interval)
  }

  lemma ClearShrinks(f: Fields, l: Listener)
    requires Sound(f)
    ensures Shrunk(f, Clear(f, l))
  {}

  lemma {:induction false} ClearEachShrinks(f: Fields, ls: seq<Listener>)
    requires Sound(f)
    ensures Shrunk(f, ClearEach(f, ls))
    decreases ls
  {
    if ls != [] {
      ClearShrinks(f, ls[0]);
      ClearEachShrinks(Clear(f, ls[0]), ls[1..]);
    }
  }

  lemma DeliverShrinks(f: Fields, number: nat)
    requires Sound(f)
    ensures Shrunk(f, Deliver(f, number))
  {
    ClearEachShrinks(f.(calls := f.calls + CallsOf(f.listeners, number)), OnceListeners(f.listeners));
  }

  lemma {:induction false} DeliverRangeShrinks(f: Fields, from: nat, to: nat)
    requires Sound(f)
    ensures Shrunk(f, DeliverRange(f, from, to))
    decreases if from <= to then to - from + 1 else 0
  {
    if from <= to {
      DeliverShrinks(f, from);
      DeliverRangeShrinks(Deliver(f, from), from + 1, to);
    }
  }

  lemma PolledShrinks(f: Fields, current: nat)
    requires Sound(f)
    ensures Shrunk(f, Polled(f, current))
  {
    if current > Previous(f) {
      DeliverRangeShrinks(f.(latest := Some(current)), Previous(f) + 1, current);
    }
  }

  /** With this event a start ends: after its last await, or because its block number request was rejected. */
  predicate Ends(m: Machine, e: Event, ok: bool) {
    e.StartResumes? && e.k < |m.starts| &&
    match (m.starts[e.k], e.reply)
    case (AwaitNumber(_), Failed) => !ok
    case (AwaitNumber(false), Number(_)) => ok
    case (AwaitPollDone, Done) => ok
    case _ => false
  }

  /** What one step does to the interval, and to listeners that wait for one. */
  lemma StepLaw(m: Machine, e: Event)
    requires Sound(m.f)
    ensures
      var m' := Step(m, e);
      && Sound(m'.f)
      && (m'.f.interval.Some? <==> m'.f.listeners != [] && (m.f.interval.Some? || Ends(m, e, true)))
      && (m'.f.listeners != [] && m'.f.interval.None? && m'.starts == [] ==>
            Ends(m, e, false) || (m.f.listeners != [] && m.f.interval.None? && m.starts == []))
  {
    match e
    case Off(l) => ClearShrinks(m.f, l);
    case Emit(x) => DeliverShrinks(m.f, x);
    case StartResumes(k, reply) =>
      if k < |m.starts| && m.starts[k].AwaitPolledNumber? && reply.Number? {
        PolledShrinks(m.f, reply.number);
      }
    case PollResumes(reply) =>
      if reply.Number? { PolledShrinks(m.f, reply.number); }
    case _ =>
  }

  lemma {:induction false} RunSnoc(m: Machine, events: seq<Event>, e: Event)
    ensures Run(m, events + [e]) == Step(Run(m, events), e)
    decreases events
  {
    if events == [] {
      assert [e][1..] == [] && [] + [e] == [e];
      assert Run(m, [e]) == Run(Step(m, e), []);
    } else {
      assert (events + [e])[1..] == events[1..] + [e];
      RunSnoc(Step(m, events[0]), events[1..], e);
    }
  }

  /** Something ended before time n, and since then it was heard all the time. */
  ghost predicate Since(ended: nat -> bool, heard: nat -> bool, n: nat) {
    exists k: nat :: k < n && ended(k) && forall j: nat :: k < j <= n ==> heard(j)
  }

  lemma SinceStep(ended: nat -> bool, heard: nat -> bool, n: nat)
    ensures Since(ended, heard, n + 1) <==> heard(n + 1) && (Since(ended, heard, n) || ended(n))
  {}

  lemma SinceSame(ended: nat -> bool, ended': nat -> bool, heard: nat -> bool, heard': nat -> bool, n: nat)
    requires forall k: nat :: k < n ==> ended(k) == ended'(k)
    requires forall j: nat :: j <= n ==> heard(j) == heard'(j)
    ensures Since(ended, heard, n) <==> Since(ended', heard', n)
  {}

  /** The `k`-th event ends a start. */
  ghost predicate EndedAt(events: seq<Event>, ok: bool, k: nat) {
    k < |events| && Ends(Run(INITIAL, events[..k]), events[k], ok)
  }

  /** Somebody listens after the first `j` events. */
  ghost predicate HeardAt(events: seq<Event>, j: nat) {
    j <= |events| && Run(INITIAL, events[..j]).f.listeners != []
  }

  /** Some start has ended, well or not, since the list of listeners was last empty. */
  ghost predicate EndedSinceEmpty(events: seq<Event>, ok: bool) {
    Since((k: nat) => EndedAt(events, ok, k), (j: nat) => HeardAt(events, j), |events|)
  }

  lemma PrefixesStay(events: seq<Event>, e: Event, ok: bool, k: nat)
    ensures k <= |events| ==> HeardAt(events, k) == HeardAt(events + [e], k)
    ensures k < |events| ==> EndedAt(events, ok, k) == EndedAt(events + [e], ok, k)
  {
    if k <= |events| {
      assert (events + [e])[..k] == events[..k];
    }
  }

  lemma LastEvent(events: seq<Event>, e: Event, ok: bool)
    ensures EndedAt(events + [e], ok, |events|) == Ends(Run(INITIAL, events), e, ok)
    ensures HeardAt(events + [e], |events| + 1) == (Run(INITIAL, events + [e]).f.listeners != [])
  {
    var all := events + [e];
    assert all[..|events|] == events && all[..|events| + 1] == all;
  }

  lemma EndedStep(events: seq<Event>, e: Event, ok: bool)
    ensures EndedSinceEmpty(events + [e], ok) <==>
      && Run(INITIAL, events + [e]).f.listeners != []
      && (EndedSinceEmpty(events, ok) || Ends(Run(INITIAL, events), e, ok))
  {
    var all, n := events + [e], |events|;
    forall k: nat ensures k <= n ==> HeardAt(events, k) == HeardAt(all, k)
                  ensures k < n ==> EndedAt(events, ok, k) == EndedAt(all, ok, k)
    {
      PrefixesStay(events, e, ok, k);
    }
    SinceSame((k: nat) => EndedAt(events, ok, k), (k: nat) => EndedAt(all, ok, k), (j: nat) => HeardAt(events, j), (j: nat) => HeardAt(all, j), n);
    SinceStep((k: nat) => EndedAt(all, ok, k), (j: nat) => HeardAt(all, j), n);
    LastEvent(events, e, ok);
  }

  lemma {:induction false} RunLaw(events: seq<Event>)
    ensures
      var m := Run(INITIAL, events);
      && Sound(m.f)
      && (m.f.interval.Some? <==> EndedSinceEmpty(events, true))
      && (m.f.listeners != [] && m.f.interval.None? && m.starts == [] ==> EndedSinceEmpty(events, false))
  {
    if events != [] {
      var before, e := events[..|events| - 1], events[|events| - 1];
      assert events == before + [e];
      RunLaw(before);
      RunSnoc(INITIAL, before, e);
      StepLaw(Run(INITIAL, before), e);
      EndedStep(before, e, true);
      EndedStep(before, e, false);
    }
  }

  /**
   Under every interleaving there is at most one interval, and there is one exactly if
   some start has ended without rejection since the list of listeners was last empty.
   */
  lemma IntervalIff(events: seq<Event>)
    ensures
      var m := Run(INITIAL, events);
      && |m.f.timers| <= 1
      && (m.f.timers != {} <==> EndedSinceEmpty(events, true))
  {
    RunLaw(events);
  }

  /**
   Hence an interval implies a listener; and once no start is pending, a listener implies
   an interval, unless a start was rejected since the list was last empty.
   */
  lemma IntervalLaw(events: seq<Event>)
    ensures
      var m := Run(INITIAL, events);
      && (m.f.timers != {} ==> m.f.listeners != [])
      && (m.starts == [] && !EndedSinceEmpty(events, false) ==> (m.f.listeners != [] <==> m.f.timers != {}))
  {
    RunLaw(events);
  }

  /** A rejected block number request leaves its listener without an interval. */
  lemma RejectedStartLeavesListenerUnserved(l: Listener, isHardhat: bool)
    ensures
      var m := Run(INITIAL, [On(l, false), StartResumes(0, Network(isHardhat)), StartResumes(0, Failed)]);
      m.starts == [] && m.f.listeners == [Item(l, false)] && m.f.timers == {}
  {
    var e1, e2, e3 := On(l, false), StartResumes(0, Network(isHardhat)), StartResumes(0, Failed);
    var m1 := Step(INITIAL, e1);
    var m2 := Step(m1, e2);
    assert m2.starts == [AwaitNumber(isHardhat)];
    var m3 := Step(m2, e3);
    assert m3.starts == [] && m3.f.listeners == [Item(l, false)];
    assert [e1, e2, e3][1..] == [e2, e3] && [e2, e3][1..] == [e3] && [e3][1..] == [];
    assert Run(m2, [e3]) == Run(m3, []) == m3;
    assert Run(m1, [e2, e3]) == m3;
  }

  // ------------------------------------------------------------------- delivery

  ghost predicate Distinct(items: seq<Item>) {
    forall i, j :: 0 <= i < j < |items| ==> items[i].listener != items[j].listener
  }

  ghost predicate Listens(items: seq<Item>, l: Listener) {
    exists i :: 0 <= i < |items| && items[i].listener == l
  }

  function Persistent(items: seq<Item>): seq<Item> {
    if items == [] then []
    else (if items[0].once then [] else [items[0]]) + Persistent(items[1..])
  }

  /** The numbers a listener was called with, in order. */
  function Received(calls: seq<Call>, l: Listener): seq<nat> {
    if calls == [] then []
    else (if calls[0].listener == l then [calls[0].number] else []) + Received(calls[1..], l)
  }

  /** from, from + 1, ..., to - 1 */
  function Numbers(from: nat, to: nat): seq<nat>
    decreases if from <= to then to - from + 1 else 0
  {
    if from >= to then [] else [from] + Numbers(from + 1, to)
  }

  lemma Assoc<T>(a: seq<T>, b: seq<T>, c: seq<T>)
    ensures (a + b) + c == a + (b + c)
  {}

  lemma {:induction false} ReceivedConcat(a: seq<Call>, b: seq<Call>, l: Listener)
    ensures Received(a + b, l) == Received(a, l) + Received(b, l)
  {
    if a == [] {
      assert a + b == b;
    } else {
      assert (a + b)[0] == a[0] && (a + b)[1..] == a[1..] + b;
      ReceivedConcat(a[1..], b, l);
      var first := if a[0].listener == l then [a[0].number] else [];
      Assoc(first, Received(a[1..], l), Received(b, l));
    }
  }

  /** One round of calls reaches each of several distinct listeners once. */
  lemma {:induction false} ReceivedFromRound(items: seq<Item>, number: nat, l: Listener)
    requires Distinct(items)
    ensures Received(CallsOf(items, number), l) == if Listens(items, l) then [number] else []
  {
    if items != [] {
      var rest := items[1..];
      assert CallsOf(items, number)[1..] == CallsOf(rest, number);
      ReceivedFromRound(rest, number, l);
      if Listens(items, l) && items[0].listener != l {
        var i :| 0 <= i < |items| && items[i].listener == l;
        assert rest[i - 1].listener == l;
      }
      if Listens(rest, l) {
        var i :| 0 <= i < |rest| && rest[i].listener == l;
        assert items[i + 1].listener == l;
      }
    }
  }

  // ------------------------------------------------------------- registering and removing

  /** The first position at which `l` listens. */
  ghost predicate FirstAt(items: seq<Item>, l: Listener, k: nat) {
    k < |items| && items[k].listener == l && forall i :: 0 <= i < k ==> items[i].listener != l
  }

  /** `rest` is `items` without the first item of `l`, or the same if `l` does not listen. */
  ghost predicate WithoutFirst(items: seq<Item>, l: Listener, rest: seq<Item>) {
    && (!Listens(items, l) ==> rest == items)
    && (forall k: nat :: FirstAt(items, l, k) ==> rest == items[..k] + items[k + 1..])
  }

  lemma RemoveFirstRemoves(items: seq<Item>, l: Listener)
    ensures WithoutFirst(items, l, RemoveFirst(items, l))
  {
    if !Listens(items, l) {
      RemoveAbsent(items, l);
    }
    forall k: nat | FirstAt(items, l, k) ensures RemoveFirst(items, l) == items[..k] + items[k + 1..] {
      RemoveAt(items, l, k);
    }
  }

  lemma {:induction false} RemoveAbsent(items: seq<Item>, l: Listener)
    requires forall i :: 0 <= i < |items| ==> items[i].listener != l
    ensures RemoveFirst(items, l) == items
  {
    if items != [] {
      RemoveAbsent(items[1..], l);
    }
  }

  lemma {:induction false} RemoveAt(items: seq<Item>, l: Listener, k: nat)
    requires FirstAt(items, l, k)
    ensures RemoveFirst(items, l) == items[..k] + items[k + 1..]
  {
    if k > 0 {
      RemoveAt(items[1..], l, k - 1);
      assert items[1..][..k - 1] == items[1..k] && items[1..][k..] == items[k + 1..];
      assert [items[0]] + items[1..k] == items[..k];
    }
  }

  /** A listener that listens has a first position. */
  lemma {:induction false} HasFirst(items: seq<Item>, l: Listener) returns (k: nat)
    requires Listens(items, l)
    ensures FirstAt(items, l, k)
  {
    if items[0].listener == l {
      k := 0;
    } else {
      var i :| 0 <= i < |items| && items[i].listener == l;
      assert items[1..][i - 1].listener == l;
      k := HasFirst(items[1..], l);
      assert forall n :: 0 <= n < k ==> items[1..][n] == items[n + 1];
      k := k + 1;
    }
  }

  /**
   Exactly what `on` and `off` do: a registration comes last; `off` takes away the first
   registration of its listener and no other, or, without a listener, all; and when the list
   becomes empty no interval is left.
   */
  lemma RegistrationsAre(m: Machine, l: Listener, once: bool)
    requires Sound(m.f)
    ensures Step(m, On(l, once)).f == m.f.(listeners := m.f.listeners + [Item(l, once)])
    ensures
      var f := Step(m, Off(l)).f;
      && WithoutFirst(m.f.listeners, l, f.listeners)
      && f.timers == (if f.listeners == [] then {} else m.f.timers) && f.calls == m.f.calls && f.latest == m.f.latest
    ensures
      var f := Step(m, OffAll).f;
      f.listeners == [] && f.timers == {} && f.calls == m.f.calls && f.latest == m.f.latest
  {
    RemoveFirstRemoves(m.f.listeners, l);
  }

  /** A listener that is registered once and then removed hears nothing more. */
  lemma OffSilences(m: Machine, l: Listener, events: seq<Event>)
    requires Distinct(m.f.listeners) && Quiet(events)
    ensures
      var m' := Step(m, Off(l));
      && m'.f.calls <= Run(m', events).f.calls
      && Received(Run(m', events).f.calls[|m'.f.calls|..], l) == []
  {
    var m' := Step(m, Off(l));
    var items, rest := m.f.listeners, m'.f.listeners;
    RemoveFirstRemoves(items, l);
    if Listens(items, l) {
      var k := HasFirst(items, l);
      assert rest == items[..k] + items[k + 1..];
    }
    assert Distinct(rest) && !Listens(rest, l);
    DistinctItems(rest, l);
    ExactlyOnceInOrder(m', events);
    assert Due(rest, l, NumbersSeen(m', events)) == [];
  }

  /** Whoever listens while there is an interval is told of every new block as soon as it is polled. */
  lemma ServedListenersHear(m: Machine, n: nat)
    requires Distinct(m.f.listeners) && m.f.timers != {}
    ensures Delivered(m.f, Run(m, [Tick, PollResumes(Number(n))]).f, NewNumbers(Previous(m.f), n))
  {
    var m1 := Step(m, Tick);
    assert m1.polls > 0 && m1.f == m.f;
    var events := [Tick, PollResumes(Number(n))];
    assert events[1..] == [PollResumes(Number(n))] && events[1..][1..] == [];
    PolledIsDelivered(m.f, n);
    assert Run(m1, events[1..]) == Run(Step(m1, PollResumes(Number(n))), []);
  }

  /** What dropping listeners does not touch. */
  ghost predicate SameProgress(f: Fields, f': Fields) {
    f'.calls == f.calls && f'.latest == f.latest
  }

  lemma {:induction false} ClearEachListeners(f: Fields, ls: seq<Listener>)
    ensures ClearEach(f, ls).listeners == RemoveEach(f.listeners, ls)
    ensures SameProgress(f, ClearEach(f, ls))
    decreases ls
  {
    if ls != [] {
      ClearEachListeners(Clear(f, ls[0]), ls[1..]);
    }
  }

  function RemoveEach(items: seq<Item>, ls: seq<Listener>): seq<Item>
    decreases ls
  {
    if ls == [] then items else RemoveEach(RemoveFirst(items, ls[0]), ls[1..])
  }

  /** Removing others leaves the head in place. */
  lemma {:induction false} RemoveEachKeepsHead(head: Item, items: seq<Item>, ls: seq<Listener>)
    requires head.listener !in ls
    ensures RemoveEach([head] + items, ls) == [head] + RemoveEach(items, ls)
    decreases ls
  {
    if ls != [] {
      assert ([head] + items)[1..] == items;
      assert RemoveFirst([head] + items, ls[0]) == [head] + RemoveFirst(items, ls[0]);
      RemoveEachKeepsHead(head, RemoveFirst(items, ls[0]), ls[1..]);
    }
  }

  lemma {:induction false} OnceListenersListen(items: seq<Item>, l: Listener)
    requires l in OnceListeners(items)
    ensures Listens(items, l)
  {
    if items[0].once && items[0].listener == l {
    } else {
      OnceListenersListen(items[1..], l);
      var i :| 0 <= i < |items[1..]| && items[1..][i].listener == l;
      assert items[i + 1].listener == l;
    }
  }

  /** Dropping the once-listeners by identity leaves exactly the persistent ones, in order. */
  lemma {:induction false} DroppingOnceListeners(items: seq<Item>)
    requires Distinct(items)
    ensures RemoveEach(items, OnceListeners(items)) == Persistent(items)
  {
    if items != [] {
      var head, rest := items[0], items[1..];
      DroppingOnceListeners(rest);
      assert items == [head] + rest;
      if head.once {
        assert RemoveFirst(items, head.listener) == rest;
        assert OnceListeners(items)[1..] == OnceListeners(rest);
      } else {
        if head.listener in OnceListeners(rest) {
          OnceListenersListen(rest, head.listener);
          assert false;
        }
        RemoveEachKeepsHead(head, rest, OnceListeners(rest));
        assert OnceListeners(items) == OnceListeners(rest);
      }
    }
  }

  lemma {:induction false} PersistentIsPart(items: seq<Item>, k: nat)
    requires k < |Persistent(items)|
    ensures Persistent(items)[k] in items && !Persistent(items)[k].once
  {
    if !items[0].once {
      if k > 0 { PersistentIsPart(items[1..], k - 1); }
    } else {
      PersistentIsPart(items[1..], k);
    }
  }

  lemma {:induction false} PersistentHas(items: seq<Item>, item: Item)
    requires item in items && !item.once
    ensures item in Persistent(items)
  {
    if items[0] != item {
      PersistentHas(items[1..], item);
    }
  }

  lemma {:induction false} PersistentDistinct(items: seq<Item>)
    requires Distinct(items)
    ensures Distinct(Persistent(items))
  {
    if items != [] {
      var rest := Persistent(items[1..]);
      PersistentDistinct(items[1..]);
      forall k | 0 <= k < |rest| ensures rest[k].listener != items[0].listener {
        PersistentIsPart(items[1..], k);
        var i :| 0 <= i < |items[1..]| && items[1..][i] == rest[k];
        assert items[i + 1] == rest[k];
      }
    }
  }

  lemma {:induction false} PersistentIdempotent(items: seq<Item>)
    ensures Persistent(Persistent(items)) == Persistent(items)
  {
    if items != [] {
      PersistentIdempotent(items[1..]);
      if items[0].once {
        assert Persistent(items) == Persistent(items[1..]);
      } else {
        assert Persistent(items)[1..] == Persistent(items[1..]);
      }
    }
  }

  /** What a listener is due when these numbers come up one after the other. */
  function Due(items: seq<Item>, l: Listener, numbers: seq<nat>): seq<nat> {
    if Item(l, false) in items then numbers
    else if Item(l, true) in items && numbers != [] then [numbers[0]]
    else []
  }

  /**
   Exactly-once, in-order delivery of `numbers`: every listener has received what it
   is due, and once-listeners are gone as soon as there was a number.
   */
  ghost predicate Delivered(f: Fields, f': Fields, numbers: seq<nat>) {
    && f.calls <= f'.calls
    && (forall l :: Received(f'.calls[|f.calls|..], l) == Due(f.listeners, l, numbers))
    && f'.listeners == if numbers != [] then Persistent(f.listeners) else f.listeners
  }

  /** In a list of distinct listeners an identity occurs as persistent or as once, not both. */
  lemma DistinctItems(items: seq<Item>, l: Listener)
    requires Distinct(items)
    ensures Listens(items, l) <==> Item(l, false) in items || Item(l, true) in items
    ensures !(Item(l, false) in items && Item(l, true) in items)
  {}

  lemma NothingIsDelivered(f: Fields, f': Fields)
    requires f'.calls == f.calls && f'.listeners == f.listeners
    ensures Delivered(f, f', [])
  {}

  lemma DeliverIsDelivered(f: Fields, number: nat)
    requires Distinct(f.listeners)
    ensures Delivered(f, Deliver(f, number), [number])
    ensures Deliver(f, number).latest == f.latest
  {
    var called := f.(calls := f.calls + CallsOf(f.listeners, number));
    var f' := Deliver(f, number);
    ClearEachListeners(called, OnceListeners(f.listeners));
    DroppingOnceListeners(f.listeners);
    assert f'.calls[|f.calls|..] == CallsOf(f.listeners, number);
    forall l ensures Received(f'.calls[|f.calls|..], l) == Due(f.listeners, l, [number]) {
      ReceivedFromRound(f.listeners, number, l);
      DistinctItems(f.listeners, l);
    }
  }

  lemma DueConcat(items: seq<Item>, l: Listener, a: seq<nat>, b: seq<nat>)
    requires Distinct(items)
    ensures Due(items, l, a + b) == Due(items, l, a) + Due(if a != [] then Persistent(items) else items, l, b)
  {
    DistinctItems(items, l);
    if a == [] {
      assert a + b == b;
    } else {
      if Item(l, false) in items {
        PersistentHas(items, Item(l, false));
      }
      if i :| 0 <= i < |Persistent(items)| && Persistent(items)[i].listener == l {
        PersistentIsPart(items, i);
        assert Persistent(items)[i] == Item(l, false);
      }
    }
  }

  lemma DeliveredTransitively(f: Fields, g: Fields, h: Fields, a: seq<nat>, b: seq<nat>)
    requires Distinct(f.listeners) && Delivered(f, g, a) && Delivered(g, h, b)
    ensures Delivered(f, h, a + b)
  {
    var x, y := g.calls[|f.calls|..], h.calls[|g.calls|..];
    assert h.calls[|f.calls|..] == x + y;
    forall l ensures Received(h.calls[|f.calls|..], l) == Due(f.listeners, l, a + b) {
      ReceivedConcat(x, y, l);
      DueConcat(f.listeners, l, a, b);
    }
    PersistentIdempotent(f.listeners);
  }

  lemma {:induction false} DeliverRangeIsDelivered(f: Fields, from: nat, to: nat)
    requires Distinct(f.listeners)
    ensures Delivered(f, DeliverRange(f, from, to), Numbers(from, to + 1))
    ensures DeliverRange(f, from, to).latest == f.latest
    decreases if from <= to then to - from + 1 else 0
  {
    if from > to {
      NothingIsDelivered(f, f);
    } else {
      DeliverIsDelivered(f, from);
      PersistentDistinct(f.listeners);
      DeliverRangeIsDelivered(Deliver(f, from), from + 1, to);
      FirstThenRest(f, Deliver(f, from), DeliverRange(f, from, to), from, to);
    }
  }

  lemma FirstThenRest(f: Fields, g: Fields, h: Fields, from: nat, to: nat)
    requires from <= to && Distinct(f.listeners)
    requires Delivered(f, g, [from]) && Delivered(g, h, Numbers(from + 1, to + 1))
    ensures Delivered(f, h, Numbers(from, to + 1))
  {
    assert Numbers(from, to + 1) == [from] + Numbers(from + 1, to + 1);
    DeliveredTransitively(f, g, h, [from], Numbers(from + 1, to + 1));
  }

  /** The numbers a poll brings up: none if the chain did not grow, or was reset. */
  function NewNumbers(previous: nat, current: nat): seq<nat> {
    Numbers(previous + 1, current + 1)
  }

  /** A poll delivers the new numbers and continues from the number it saw. */
  lemma PolledIsDelivered(f: Fields, n: nat)
    requires Distinct(f.listeners)
    ensures Delivered(f, Polled(f, n), NewNumbers(Previous(f), n))
    ensures Previous(Polled(f, n)) == n
  {
    var m := Previous(f);
    if n > m {
      DeliverRangeIsDelivered(f.(latest := Some(n)), m + 1, n);
    } else {
      NothingIsDelivered(f, Polled(f, n));
    }
  }

  /** No registration, no removal and no emission; starts under way go on. */
  predicate Quiet(events: seq<Event>) {
    forall i :: 0 <= i < |events| ==> QuietEvent(events[i])
  }

  predicate QuietEvent(e: Event) {
    e.Tick? || e.PollResumes? || e.StartResumes?
  }

  /** The first block number a start gets: it replaces the one polled last, and nobody is called. */
  predicate Overwrites(m: Machine, e: Event) {
    e.StartResumes? && e.k < |m.starts| && m.starts[e.k].AwaitNumber? && e.reply.Number?
  }

  /** A block number that a poll gets, of the interval or of a start. */
  predicate Polls(m: Machine, e: Event) {
    || (e.PollResumes? && m.polls > 0 && e.reply.Number?)
    || (e.StartResumes? && e.k < |m.starts| && m.starts[e.k].AwaitPolledNumber? && e.reply.Number?)
  }

  /** The numbers one event brings up. */
  function NumbersAt(m: Machine, e: Event): seq<nat> {
    if Polls(m, e) then NewNumbers(Previous(m.f), e.reply.number) else []
  }

  /** The numbers that come up during such a stretch. */
  function NumbersSeen(m: Machine, events: seq<Event>): seq<nat>
    decreases events
  {
    if events == [] then [] else NumbersAt(m, events[0]) + NumbersSeen(Step(m, events[0]), events[1..])
  }

  function LostAt(m: Machine, e: Event): seq<nat> {
    if Overwrites(m, e) then NewNumbers(Previous(m.f), e.reply.number) else []
  }

  /** The numbers that are passed over without calling anybody. */
  function NumbersLost(m: Machine, events: seq<Event>): seq<nat>
    decreases events
  {
    if events == [] then [] else LostAt(m, events[0]) + NumbersLost(Step(m, events[0]), events[1..])
  }

  lemma QuietStep(m: Machine, e: Event)
    requires Distinct(m.f.listeners) && QuietEvent(e)
    ensures Delivered(m.f, Step(m, e).f, NumbersAt(m, e)) && Distinct(Step(m, e).f.listeners)
    ensures Previous(Step(m, e).f) == if Polls(m, e) || Overwrites(m, e) then e.reply.number else Previous(m.f)
  {
    if Polls(m, e) {
      PolledIsDelivered(m.f, e.reply.number);
    } else {
      NothingIsDelivered(m.f, Step(m, e).f);
    }
    PersistentDistinct(m.f.listeners);
  }

  /**
   Between two registrations, for all interleavings of ticks, polls and starts, failures and
   chain resets included: each persistent listener receives the numbers that come up,
   each exactly once and in order, each once-listener exactly the first, and is removed.
   */
  lemma {:induction false} ExactlyOnceInOrder(m: Machine, events: seq<Event>)
    requires Distinct(m.f.listeners) && Quiet(events)
    ensures Delivered(m.f, Run(m, events).f, NumbersSeen(m, events))
    decreases events
  {
    if events == [] {
      NothingIsDelivered(m.f, m.f);
    } else {
      var next, rest := Step(m, events[0]), events[1..];
      QuietStep(m, events[0]);
      ExactlyOnceInOrder(next, rest);
      DeliveredTransitively(m.f, next.f, Run(next, rest).f, NumbersAt(m, events[0]), NumbersSeen(next, rest));
    }
  }

  /** Block numbers that never go back. */
  ghost predicate NeverBack(m: Machine, events: seq<Event>)
    decreases events
  {
    events != [] ==>
      && (Polls(m, events[0]) || Overwrites(m, events[0]) ==> Previous(m.f) <= events[0].reply.number)
      && NeverBack(Step(m, events[0]), events[1..])
  }

  lemma {:induction false} NumbersConcat(x: nat, y: nat, z: nat)
    requires x <= y <= z
    ensures Numbers(x, z) == Numbers(x, y) + Numbers(y, z)
    decreases y - x
  {
    if x < y {
      NumbersConcat(x + 1, y, z);
    }
  }

  /** One event either brings up the numbers it passes or loses them. */
  lemma PassedAt(m: Machine, e: Event)
    requires Distinct(m.f.listeners) && QuietEvent(e)
    requires Polls(m, e) || Overwrites(m, e) ==> Previous(m.f) <= e.reply.number
    ensures
      var passed := NewNumbers(Previous(m.f), Previous(Step(m, e).f));
      && Previous(m.f) <= Previous(Step(m, e).f)
      && ((NumbersAt(m, e) == passed && LostAt(m, e) == []) || (NumbersAt(m, e) == [] && LostAt(m, e) == passed))
  {
    QuietStep(m, e);
    assert Numbers(Previous(m.f) + 1, Previous(m.f) + 1) == [];
  }

  /** `seen` and `lost` are all of `all`, in some mixture. */
  ghost predicate Mixture(seen: seq<nat>, lost: seq<nat>, all: seq<nat>) {
    multiset(seen) + multiset(lost) == multiset(all)
  }

  /** One more part, all seen or all lost, before a mixture. */
  lemma MixtureStep(part: seq<nat>, isSeen: bool, seen: seq<nat>, lost: seq<nat>, rest: seq<nat>, all: seq<nat>)
    requires Mixture(seen, lost, rest) && all == part + rest
    ensures isSeen ==> Mixture(part + seen, [] + lost, all)
    ensures !isSeen ==> Mixture([] + seen, part + lost, all)
  {
    assert [] + lost == lost && [] + seen == seen;
  }

  /** Every number passed during a stretch either comes up or is lost, never both. */
  ghost predicate Accounted(m: Machine, events: seq<Event>) {
    && Previous(m.f) <= Previous(Run(m, events).f)
    && Mixture(NumbersSeen(m, events), NumbersLost(m, events), NewNumbers(Previous(m.f), Previous(Run(m, events).f)))
  }

  lemma AccountedNothing(m: Machine)
    ensures Accounted(m, [])
  {
    assert NewNumbers(Previous(m.f), Previous(m.f)) == [];
  }

  lemma NewNumbersConcat(x: nat, y: nat, z: nat)
    requires x <= y <= z
    ensures NewNumbers(x, z) == NewNumbers(x, y) + NewNumbers(y, z)
  {
    NumbersConcat(x + 1, y + 1, z + 1);
  }

  lemma AccountedStep(m: Machine, events: seq<Event>, next: Machine, part: seq<nat>, isSeen: bool)
    requires events != [] && next == Step(m, events[0]) && Accounted(next, events[1..])
    requires Previous(m.f) <= Previous(next.f) && part == NewNumbers(Previous(m.f), Previous(next.f))
    requires NumbersAt(m, events[0]) == (if isSeen then part else [])
    requires LostAt(m, events[0]) == (if isSeen then [] else part)
    ensures Accounted(m, events)
  {
    var rest := events[1..];
    var all := NewNumbers(Previous(m.f), Previous(Run(next, rest).f));
    NewNumbersConcat(Previous(m.f), Previous(next.f), Previous(Run(next, rest).f));
    MixtureStep(part, isSeen, NumbersSeen(next, rest), NumbersLost(next, rest),
                NewNumbers(Previous(next.f), Previous(Run(next, rest).f)), all);
    assert Run(m, events) == Run(next, rest);
    assert NumbersSeen(m, events) == NumbersAt(m, events[0]) + NumbersSeen(next, rest);
    assert NumbersLost(m, events) == LostAt(m, events[0]) + NumbersLost(next, rest);
    assert Mixture(NumbersSeen(m, events), NumbersLost(m, events), all);
  }

  /** If the block number never goes back, each number since the last one polled comes up or is lost, never both. */
  lemma {:induction false} EveryNumberComesUpOrIsLost(m: Machine, events: seq<Event>)
    requires Distinct(m.f.listeners) && Quiet(events) && NeverBack(m, events)
    ensures Accounted(m, events)
    decreases events
  {
    if events == [] {
      AccountedNothing(m);
    } else {
      var next := Step(m, events[0]);
      QuietStep(m, events[0]);
      PassedAt(m, events[0]);
      EveryNumberComesUpOrIsLost(next, events[1..]);
      AccountedStep(m, events, next, NewNumbers(Previous(m.f), Previous(next.f)), LostAt(m, events[0]) == []);
    }
  }

  /** If no start overwrites the number polled last by a later one, all numbers come up, in ascending order. */
  lemma {:induction false} EveryNumberComesUp(m: Machine, events: seq<Event>)
    requires Distinct(m.f.listeners) && Quiet(events) && NeverBack(m, events) && NumbersLost(m, events) == []
    ensures AllComeUp(NumbersSeen(m, events), Previous(m.f), Previous(Run(m, events).f))
    decreases events
  {
    if events == [] {
      assert AllComeUp([], Previous(m.f), Previous(m.f));
    } else {
      var e, next, rest := events[0], Step(m, events[0]), events[1..];
      QuietStep(m, e);
      PassedAt(m, e);
      EveryNumberComesUp(next, rest);
      AllTogether(NumbersAt(m, e), NumbersSeen(next, rest), Previous(m.f), Previous(next.f), Previous(Run(next, rest).f));
    }
  }

  /** `seen` is from + 1, ..., to */
  ghost predicate AllComeUp(seen: seq<nat>, from: nat, to: nat) {
    from <= to && seen == Numbers(from + 1, to + 1)
  }

  lemma AllTogether(seen: seq<nat>, seen': seq<nat>, x: nat, y: nat, z: nat)
    requires AllComeUp(seen, x, y) && AllComeUp(seen', y, z)
    ensures AllComeUp(seen + seen', x, z)
  {
    NumbersConcat(x + 1, y + 1, z + 1);
  }

  /** A start that gets number `n` loses exactly the numbers after the last polled one up to `n`. */
  lemma StartLosesNumbers(m: Machine, k: nat, n: nat)
    requires k < |m.starts| && m.starts[k].AwaitNumber?
    ensures
      var m' := Step(m, StartResumes(k, Number(n)));
      && m'.f.calls == m.f.calls && m'.f.listeners == m.f.listeners && Previous(m'.f) == n
      && NumbersLost(m, [StartResumes(k, Number(n))]) == Numbers(Previous(m.f) + 1, n + 1)
      && (NumbersLost(m, [StartResumes(k, Number(n))]) != [] <==> n > Previous(m.f))
  {
    var e := StartResumes(k, Number(n));
    assert [e][1..] == [];
    assert NumbersLost(m, [e]) == NewNumbers(Previous(m.f), n) + NumbersLost(Step(m, e), []);
  }

  /** A listener that waits for block 6 is not told of blocks 6 to 8 if another one is registered at block 8. */
  lemma RegistrationSkipsBlocks()
    ensures
      var m := Run(INITIAL, [On(1, false), StartResumes(0, Network(false)), StartResumes(0, Number(5)),
                             On(2, false), StartResumes(0, Network(false)), StartResumes(0, Number(8))]);
      && m.f.listeners == [Item(1, false), Item(2, false)] && m.f.timers != {} && m.starts == []
      && Previous(m.f) == 8 && m.f.calls == []
  {
    var network := StartResumes(0, Network(false));
    var at5, at8 := StartResumes(0, Number(5)), StartResumes(0, Number(8));
    Registers(INITIAL, 1, 5);
    var m1 := Step(Step(Step(INITIAL, On(1, false)), network), at5);
    Registers(m1, 2, 8);
    ThreeSteps(INITIAL, On(1, false), network, at5, [On(2, false), network, at8]);
    ThreeSteps(m1, On(2, false), network, at8, []);
    assert [On(1, false), network, at5] + [On(2, false), network, at8] == [On(1, false), network, at5, On(2, false), network, at8];
    assert [On(2, false), network, at8] + [] == [On(2, false), network, at8];
  }

  /** A registration on another network that goes through at once, and finds block `n`. */
  lemma Registers(m: Machine, l: Listener, n: nat)
    requires m.starts == [] && (m.f.interval.Some? ==> m.f.timers != {})
    ensures
      var m' := Step(Step(Step(m, On(l, false)), StartResumes(0, Network(false))), StartResumes(0, Number(n)));
      && m'.starts == [] && m'.f.listeners == m.f.listeners + [Item(l, false)] && m'.f.calls == m.f.calls
      && m'.f.latest == Some(n) && m'.f.interval.Some? && m'.f.timers != {}
  {
    var m1 := Step(m, On(l, false));
    assert m1.starts == [AwaitNetwork];
    var m2 := Step(m1, StartResumes(0, Network(false)));
    assert m2.starts == [AwaitNumber(false)] && m2.f.listeners != [];
    assert m.f.nextTimer in m.f.timers + {m.f.nextTimer};
  }

  lemma ThreeSteps(m: Machine, a: Event, b: Event, c: Event, rest: seq<Event>)
    ensures Run(m, [a, b, c] + rest) == Run(Step(Step(Step(m, a), b), c), rest)
  {
    assert ([a, b, c] + rest)[1..] == [b, c] + rest && ([b, c] + rest)[1..] == [c] + rest && ([c] + rest)[1..] == rest;
    assert Run(Step(Step(m, a), b), [c] + rest) == Run(Step(Step(Step(m, a), b), c), rest);
    assert Run(Step(m, a), [b, c] + rest) == Run(Step(Step(m, a), b), [c] + rest);
  }
}
