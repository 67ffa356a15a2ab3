/**
 Transaction-hash listeners of the ethers provider: the twin of the block
 listeners, with a list of listeners for each hash. A poll asks for one receipt
 after the other and drops once-listeners at its end, so what it drops may be
 outdated by then; the machine lets it drop anything.
 */
module TransactionEvents {
  import opened Wrappers
  import opened BlockEvents

  type Hash = nat

  datatype TxFields = TxFields(
    listeners: map<Hash, seq<Item>>,
    interval: Option<nat>,
    timers: set<nat>,
    nextTimer: nat
  )

  // ------------------------------------------------------ uninterrupted pieces

  /** `_stopTransactionHashPolling` */
  function StopTx(f: TxFields): TxFields {
    if f.interval.None? then f
    else f.(interval := None, timers := f.timers - {f.interval.value})
  }

  function StopIfUnused(f: TxFields): TxFields {
    if f.listeners == map[] then StopTx(f) else f
  }

  /** The first half of `_onTransactionHash`. */
  function AddTx(f: TxFields, hash: Hash, l: Listener, once: bool): TxFields {
    var items := if hash in f.listeners then f.listeners[hash] else [];
    f.(listeners := f.listeners[hash := items + [Item(l, once)]])
  }

  /** `_clearTransactionHashListeners(hash, listener)` */
  function ClearTx(f: TxFields, hash: Hash, l: Listener): TxFields {
    if hash !in f.listeners then StopIfUnused(f)
    else
      var items := RemoveFirst(f.listeners[hash], l);
      StopIfUnused(f.(listeners := if items == [] then f.listeners - {hash} else f.listeners[hash := items]))
  }

  /** `_clearTransactionHashListeners(hash)` */
  function ClearHash(f: TxFields, hash: Hash): TxFields {
    StopIfUnused(f.(listeners := f.listeners - {hash}))
  }

  /** `_clearTransactionHashListeners()` */
  function ClearAllTx(f: TxFields): TxFields {
    StopIfUnused(f.(listeners := map[]))
  }

  datatype Removal = Removal(hash: Hash, listener: Listener)

  function ClearEachTx(f: TxFields, removals: seq<Removal>): TxFields
    decreases removals
  {
    if removals == [] then f
    else ClearEachTx(ClearTx(f, removals[0].hash, removals[0].listener), removals[1..])
  }

  function OnceRemovals(hash: Hash, items: seq<Item>): seq<Removal> {
    if items == [] then []
    else (if items[0].once then [Removal(hash, items[0].listener)] else []) + OnceRemovals(hash, items[1..])
  }

  /** `_emitTransactionHash` */
  function EmitTx(f: TxFields, hash: Hash): TxFields {
    if hash !in f.listeners then f else ClearEachTx(f, OnceRemovals(hash, f.listeners[hash]))
  }

  /** The end of `_startTransactionHashPolling`. */
  function FinishTxStart(f: TxFields): TxFields {
    if f.listeners == map[] || f.interval.Some? then f
    else f.(interval := Some(f.nextTimer), timers := f.timers + {f.nextTimer}, nextTimer := f.nextTimer + 1)
  }

  // ---------------------------------------------------------------- the machine

  datatype TxStart = TxAwaitNetwork | TxAwaitReceipts | TxAwaitPollDone

  datatype TxReply = TxNetwork(isHardhat: bool) | PollEnds(removals: seq<Removal>) | TxDone

  datatype TxMachine = TxMachine(f: TxFields, starts: seq<TxStart>, polls: nat)

  datatype TxEvent =
    | OnTx(hash: Hash, listener: Listener, once: bool)
    | OffTx(hash: Hash, listener: Listener)
    | OffHash(hash: Hash)
    | OffAllTx
    | EmitsTx(hash: Hash)
    | TxTick
    | TxStartResumes(k: nat, reply: TxReply)
    | TxPollEnds(removals: seq<Removal>)

  function WithoutTxStart(m: TxMachine, k: nat): seq<TxStart>
    requires k < |m.starts|
  {
    m.starts[..k] + m.starts[k + 1..]
  }

  /** The network check and the poll both swallow errors, so no start is ever lost. */
  function ResumeTxStart(m: TxMachine, k: nat, reply: TxReply): TxMachine
    requires k < |m.starts|
  {
    match (m.starts[k], reply)
    case (TxAwaitNetwork, TxNetwork(true)) => m.(starts := m.starts[k := TxAwaitReceipts])
    case (TxAwaitNetwork, TxNetwork(false)) => m.(f := FinishTxStart(m.f), starts := WithoutTxStart(m, k))
    case (TxAwaitReceipts, PollEnds(removals)) =>
      m.(f := ClearEachTx(m.f, removals), starts := m.starts[k := TxAwaitPollDone])
    case (TxAwaitPollDone, TxDone) => m.(f := FinishTxStart(m.f), starts := WithoutTxStart(m, k))
    case _ => m
  }

  function TxStep(m: TxMachine, e: TxEvent): TxMachine {
    match e
    case OnTx(hash, l, once) => m.(f := AddTx(m.f, hash, l, once), starts := m.starts + [TxAwaitNetwork])
    case OffTx(hash, l) => m.(f := ClearTx(m.f, hash, l))
    case OffHash(hash) => m.(f := ClearHash(m.f, hash))
    case OffAllTx => m.(f := ClearAllTx(m.f))
    case EmitsTx(hash) => m.(f := EmitTx(m.f, hash))
    case TxTick => if m.f.timers == {} then m else m.(polls := m.polls + 1)
    case TxStartResumes(k, reply) => if k < |m.starts| then ResumeTxStart(m, k, reply) else m
    case TxPollEnds(removals) =>
      if m.polls > 0 then m.(f := ClearEachTx(m.f, removals), polls := m.polls - 1) else m
  }

  function TxRun(m: TxMachine, events: seq<TxEvent>): TxMachine
    decreases events
  {
    if events == [] then m else TxRun(TxStep(m, events[0]), events[1..])
  }

  const TX_INITIAL := TxMachine(TxFields(map[], None, {}, 0), [], 0)

  // ---------------------------------------------------------------------- the law

  ghost predicate TxSound(f: TxFields) {
    && f.timers == (if f.interval.Some? then {f.interval.value} else {})
    && (f.interval.Some? ==> f.listeners != map[])
    && (forall h :: h in f.listeners ==> f.listeners[h] != [])
  }

  ghost predicate TxShrunk(f: TxFields, f': TxFields) {
    TxSound(f') && (f'.listeners != map[] ==> f.listeners != map[] && f'.interval == f.interval)
  }

  lemma ClearTxShrinks(f: TxFields, hash: Hash, l: Listener)
    requires TxSound(f)
    ensures TxShrunk(f, ClearTx(f, hash, l))
  {}

  lemma {:induction false} ClearEachTxShrinks(f: TxFields, removals: seq<Removal>)
    requires TxSound(f)
    ensures TxShrunk(f, ClearEachTx(f, removals))
    decreases removals
  {
    if removals != [] {
      ClearTxShrinks(f, removals[0].hash, removals[0].listener);
      ClearEachTxShrinks(ClearTx(f, removals[0].hash, removals[0].listener), removals[1..]);
    }
  }

  /** With this event a start ends; none is ever lost. */
  predicate TxEnds(m: TxMachine, e: TxEvent) {
    e.TxStartResumes? && e.k < |m.starts| &&
    ((m.starts[e.k].TxAwaitNetwork? && e.reply == TxNetwork(false)) || (m.starts[e.k].TxAwaitPollDone? && e.reply.TxDone?))
  }

  lemma TxStepLaw(m: TxMachine, e: TxEvent)
    requires TxSound(m.f)
    ensures
      var m' := TxStep(m, e);
      && TxSound(m'.f)
      && (m'.f.interval.Some? <==> m'.f.listeners != map[] && (m.f.interval.Some? || TxEnds(m, e)))
      && (m'.f.listeners != map[] && m'.f.interval.None? && m'.starts == [] ==>
            m.f.listeners != map[] && m.f.interval.None? && m.starts == [])
  {
    match e
    case OffTx(hash, l) => ClearTxShrinks(m.f, hash, l);
    case EmitsTx(hash) =>
      if hash in m.f.listeners { ClearEachTxShrinks(m.f, OnceRemovals(hash, m.f.listeners[hash])); }
    case TxStartResumes(k, reply) =>
      if k < |m.starts| && m.starts[k].TxAwaitReceipts? && reply.PollEnds? {
        ClearEachTxShrinks(m.f, reply.removals);
      }
    case TxPollEnds(removals) => ClearEachTxShrinks(m.f, removals);
    case _ =>
  }

  lemma {:induction false} TxRunSnoc(m: TxMachine, events: seq<TxEvent>, e: TxEvent)
    ensures TxRun(m, events + [e]) == TxStep(TxRun(m, events), e)
    decreases events
  {
    if events == [] {
      assert [e][1..] == [] && [] + [e] == [e];
      assert TxRun(m, [e]) == TxRun(TxStep(m, e), []);
    } else {
      assert (events + [e])[1..] == events[1..] + [e];
      TxRunSnoc(TxStep(m, events[0]), events[1..], e);
    }
  }

  ghost predicate TxEndedAt(events: seq<TxEvent>, k: nat) {
    k < |events| && TxEnds(TxRun(TX_INITIAL, events[..k]), events[k])
  }

  ghost predicate TxHeardAt(events: seq<TxEvent>, j: nat) {
    j <= |events| && TxRun(TX_INITIAL, events[..j]).f.listeners != map[]
  }

  /** Some start has ended since nobody listened to any transaction. */
  ghost predicate TxEndedSinceEmpty(events: seq<TxEvent>) {
    Since((k: nat) => TxEndedAt(events, k), (j: nat) => TxHeardAt(events, j), |events|)
  }

  lemma TxPrefixesStay(events: seq<TxEvent>, e: TxEvent, k: nat)
    ensures k <= |events| ==> TxHeardAt(events, k) == TxHeardAt(events + [e], k)
    ensures k < |events| ==> TxEndedAt(events, k) == TxEndedAt(events + [e], k)
  {
    if k <= |events| {
      assert (events + [e])[..k] == events[..k];
    }
  }

  lemma TxLastEvent(events: seq<TxEvent>, e: TxEvent)
    ensures TxEndedAt(events + [e], |events|) == TxEnds(TxRun(TX_INITIAL, events), e)
    ensures TxHeardAt(events + [e], |events| + 1) == (TxRun(TX_INITIAL, events + [e]).f.listeners != map[])
  {
    var all := events + [e];
    assert all[..|events|] == events && all[..|events| + 1] == all;
  }

  lemma TxEndedStep(events: seq<TxEvent>, e: TxEvent)
    ensures TxEndedSinceEmpty(events + [e]) <==>
      && TxRun(TX_INITIAL, events + [e]).f.listeners != map[]
      && (TxEndedSinceEmpty(events) || TxEnds(TxRun(TX_INITIAL, events), e))
  {
    var all, n := events + [e], |events|;
    forall k: nat ensures k <= n ==> TxHeardAt(events, k) == TxHeardAt(all, k)
                  ensures k < n ==> TxEndedAt(events, k) == TxEndedAt(all, k)
    {
      TxPrefixesStay(events, e, k);
    }
    SinceSame((k: nat) => TxEndedAt(events, k), (k: nat) => TxEndedAt(all, k),
              (j: nat) => TxHeardAt(events, j), (j: nat) => TxHeardAt(all, j), n);
    SinceStep((k: nat) => TxEndedAt(all, k), (j: nat) => TxHeardAt(all, j), n);
    TxLastEvent(events, e);
  }

  lemma {:induction false} TxRunLaw(events: seq<TxEvent>)
    ensures
      var m := TxRun(TX_INITIAL, events);
      && TxSound(m.f)
      && (m.f.interval.Some? <==> TxEndedSinceEmpty(events))
      && !(m.f.listeners != map[] && m.f.interval.None? && m.starts == [])
  {
    if events != [] {
      var before, e := events[..|events| - 1], events[|events| - 1];
      assert events == before + [e];
      TxRunLaw(before);
      TxRunSnoc(TX_INITIAL, before, e);
      TxStepLaw(TxRun(TX_INITIAL, before), e);
      TxEndedStep(before, e);
    }
  }

  /**
   Under every interleaving there is at most one interval, there is one exactly if some
   start has ended since nobody listened, no hash is kept with an empty list, and once no
   start is pending somebody listens exactly if there is an interval.
   */
  lemma TransactionIntervalLaw(events: seq<TxEvent>)
    ensures
      var m := TxRun(TX_INITIAL, events);
      && |m.f.timers| <= 1
      && (m.f.timers != {} <==> TxEndedSinceEmpty(events))
      && (m.f.timers != {} ==> m.f.listeners != map[])
      && (forall h :: h in m.f.listeners ==> m.f.listeners[h] != [])
      && (m.starts == [] ==> (m.f.listeners != map[] <==> m.f.timers != {}))
  {
    TxRunLaw(events);
  }

  // ------------------------------------------------------ one undisturbed poll

  /** The listeners of a transaction, none if it is unknown. */
  function ItemsAt(f: TxFields, hash: Hash): seq<Item> {
    if hash in f.listeners then f.listeners[hash] else []
  }

  /** A callback was called with the receipt of a transaction. */
  datatype TxCall = TxCall(hash: Hash, listener: Listener)

  function TxCallsOf(hash: Hash, items: seq<Item>): (calls: seq<TxCall>)
    ensures |calls| == |items| && forall i :: 0 <= i < |items| ==> calls[i] == TxCall(hash, items[i].listener)
  {
    seq(|items|, i requires 0 <= i < |items| => TxCall(hash, items[i].listener))
  }

  /** The calls of a poll that asks for the receipts of `hashes` in this order and finds those of `mined`. */
  function PollCalls(f: TxFields, hashes: seq<Hash>, mined: set<Hash>): seq<TxCall> {
    if hashes == [] then []
    else (if hashes[0] in mined then TxCallsOf(hashes[0], ItemsAt(f, hashes[0])) else []) + PollCalls(f, hashes[1..], mined)
  }

  /** The once-listeners it remembers to drop at its end. */
  function PollRemovals(f: TxFields, hashes: seq<Hash>, mined: set<Hash>): seq<Removal> {
    if hashes == [] then []
    else (if hashes[0] in mined then OnceRemovals(hashes[0], ItemsAt(f, hashes[0])) else []) + PollRemovals(f, hashes[1..], mined)
  }

  function PolledTx(f: TxFields, hashes: seq<Hash>, mined: set<Hash>): TxFields {
    ClearEachTx(f, PollRemovals(f, hashes, mined))
  }

  /** Which listeners of a hash are to be removed, in order. */
  function RemovedFrom(hash: Hash, removals: seq<Removal>): seq<Listener> {
    if removals == [] then []
    else (if removals[0].hash == hash then [removals[0].listener] else []) + RemovedFrom(hash, removals[1..])
  }

  lemma {:induction false} RemovedFromConcat(hash: Hash, a: seq<Removal>, b: seq<Removal>)
    ensures RemovedFrom(hash, a + b) == RemovedFrom(hash, a) + RemovedFrom(hash, b)
  {
    if a == [] {
      assert a + b == b;
    } else {
      assert (a + b)[0] == a[0] && (a + b)[1..] == a[1..] + b;
      RemovedFromConcat(hash, a[1..], b);
      var first := if a[0].hash == hash then [a[0].listener] else [];
      Assoc(first, RemovedFrom(hash, a[1..]), RemovedFrom(hash, b));
    }
  }

  /** Removals act on the lists of their hashes independently. */
  lemma {:induction false} ClearEachTxAt(f: TxFields, removals: seq<Removal>, hash: Hash)
    ensures ItemsAt(ClearEachTx(f, removals), hash) == RemoveEach(ItemsAt(f, hash), RemovedFrom(hash, removals))
    decreases removals
  {
    if removals != [] {
      var next := ClearTx(f, removals[0].hash, removals[0].listener);
      ClearEachTxAt(next, removals[1..], hash);
      ClearTxAt(f, removals[0].hash, removals[0].listener, hash);
      var here, rest := removals[0].listener, RemovedFrom(hash, removals[1..]);
      if removals[0].hash == hash {
        assert RemovedFrom(hash, removals) == [here] + rest;
        assert ([here] + rest)[0] == here && ([here] + rest)[1..] == rest;
      } else {
        assert RemovedFrom(hash, removals) == [] + rest == rest;
      }
    }
  }

  lemma ClearTxAt(f: TxFields, h: Hash, l: Listener, hash: Hash)
    ensures ItemsAt(ClearTx(f, h, l), hash) == if h == hash then RemoveFirst(ItemsAt(f, hash), l) else ItemsAt(f, hash)
  {}

  /**
   Exactly what registrations and removals do to the listeners of each hash: a registration
   comes last under its own hash; a removal takes away the first registration of its
   listener under its hash, all of a hash, or everything; an emission drops the
   once-listeners of its hash; and nothing else changes.
   */
  lemma TxRegistrationsAre(f: TxFields, hash: Hash, l: Listener, once: bool, h: Hash)
    ensures ItemsAt(AddTx(f, hash, l, once), h) == if h == hash then ItemsAt(f, h) + [Item(l, once)] else ItemsAt(f, h)
    ensures
      if h == hash then WithoutFirst(ItemsAt(f, h), l, ItemsAt(ClearTx(f, hash, l), h))
      else ItemsAt(ClearTx(f, hash, l), h) == ItemsAt(f, h)
    ensures ItemsAt(ClearHash(f, hash), h) == if h == hash then [] else ItemsAt(f, h)
    ensures ItemsAt(ClearAllTx(f), h) == []
    ensures Distinct(ItemsAt(f, hash)) ==>
      ItemsAt(EmitTx(f, hash), h) == if h == hash then Persistent(ItemsAt(f, h)) else ItemsAt(f, h)
  {
    ClearTxAt(f, hash, l, h);
    RemoveFirstRemoves(ItemsAt(f, h), l);
    if Distinct(ItemsAt(f, hash)) {
      var items := ItemsAt(f, hash);
      if hash in f.listeners {
        ClearEachTxAt(f, OnceRemovals(hash, items), h);
        OnceRemovalsAre(hash, items, h);
        DroppingOnceListeners(items);
      }
    }
  }

  lemma {:induction false} OnceRemovalsAre(hash: Hash, items: seq<Item>, other: Hash)
    ensures RemovedFrom(other, OnceRemovals(hash, items)) == if other == hash then OnceListeners(items) else []
  {
    if items != [] {
      OnceRemovalsAre(hash, items[1..], other);
      var first := if items[0].once then [Removal(hash, items[0].listener)] else [];
      RemovedFromConcat(other, first, OnceRemovals(hash, items[1..]));
      assert first != [] ==> first[1..] == [];
      assert RemovedFrom(other, []) == [];
    }
  }

  /** What a poll removes for one hash comes from that hash only. */
  lemma FirstRemovals(f: TxFields, h: Hash, mined: set<Hash>, hash: Hash)
    ensures RemovedFrom(hash, if h in mined then OnceRemovals(h, ItemsAt(f, h)) else []) ==
      if hash == h && hash in mined then OnceListeners(ItemsAt(f, hash)) else []
  {
    OnceRemovalsAre(h, ItemsAt(f, h), hash);
  }

  lemma {:induction false} PollRemovalsAt(f: TxFields, hashes: seq<Hash>, mined: set<Hash>, hash: Hash)
    requires forall i, j :: 0 <= i < j < |hashes| ==> hashes[i] != hashes[j]
    ensures RemovedFrom(hash, PollRemovals(f, hashes, mined)) ==
      if hash in hashes && hash in mined then OnceListeners(ItemsAt(f, hash)) else []
  {
    if hashes != [] {
      var rest := hashes[1..];
      PollRemovalsAt(f, rest, mined, hash);
      assert hashes[0] !in rest && (hash in hashes <==> hash == hashes[0] || hash in rest);
      var first := if hashes[0] in mined then OnceRemovals(hashes[0], ItemsAt(f, hashes[0])) else [];
      RemovedFromConcat(hash, first, PollRemovals(f, rest, mined));
      FirstRemovals(f, hashes[0], mined, hash);
    }
  }

  /** How often a listener of a hash was called. */
  function TimesCalled(calls: seq<TxCall>, call: TxCall): nat {
    if calls == [] then 0 else (if calls[0] == call then 1 else 0) + TimesCalled(calls[1..], call)
  }

  lemma {:induction false} TimesCalledConcat(a: seq<TxCall>, b: seq<TxCall>, call: TxCall)
    ensures TimesCalled(a + b, call) == TimesCalled(a, call) + TimesCalled(b, call)
  {
    if a == [] {
      assert a + b == b;
    } else {
      assert (a + b)[1..] == a[1..] + b;
      TimesCalledConcat(a[1..], b, call);
    }
  }

  lemma {:induction false} TimesCalledInRound(hash: Hash, items: seq<Item>, call: TxCall)
    requires Distinct(items)
    ensures TimesCalled(TxCallsOf(hash, items), call) ==
      if call.hash == hash && Listens(items, call.listener) then 1 else 0
  {
    if items != [] {
      var rest := items[1..];
      assert TxCallsOf(hash, items)[1..] == TxCallsOf(hash, rest);
      TimesCalledInRound(hash, rest, call);
      ListensTail(items, call.listener);
    }
  }

  lemma ListensTail(items: seq<Item>, l: Listener)
    requires items != []
    ensures Listens(items, l) <==> items[0].listener == l || Listens(items[1..], l)
  {
    if Listens(items[1..], l) {
      var i :| 0 <= i < |items[1..]| && items[1..][i].listener == l;
      assert items[i + 1].listener == l;
    }
    if Listens(items, l) && items[0].listener != l {
      var i :| 0 <= i < |items| && items[i].listener == l;
      assert items[1..][i - 1].listener == l;
    }
  }

  lemma {:induction false} PollCallsEach(f: TxFields, hashes: seq<Hash>, mined: set<Hash>, call: TxCall)
    requires forall i, j :: 0 <= i < j < |hashes| ==> hashes[i] != hashes[j]
    requires forall h :: Distinct(ItemsAt(f, h))
    ensures TimesCalled(PollCalls(f, hashes, mined), call) ==
      if call.hash in hashes && call.hash in mined && Listens(ItemsAt(f, call.hash), call.listener) then 1 else 0
  {
    if hashes != [] {
      var rest := hashes[1..];
      PollCallsEach(f, rest, mined, call);
      assert hashes[0] !in rest && (call.hash in hashes <==> call.hash == hashes[0] || call.hash in rest);
      var first := if hashes[0] in mined then TxCallsOf(hashes[0], ItemsAt(f, hashes[0])) else [];
      TimesCalledConcat(first, PollCalls(f, hashes[1..], mined), call);
      TimesCalledInRound(hashes[0], ItemsAt(f, hashes[0]), call);
    }
  }

  /**
   A poll that nothing interferes with, of all hashes in any order: every listener of a mined
   transaction is called exactly once and nobody else, and then exactly the once-listeners
   of mined transactions are gone.
   */
  lemma UndisturbedPollDelivers(f: TxFields, hashes: seq<Hash>, mined: set<Hash>)
    requires forall i, j :: 0 <= i < j < |hashes| ==> hashes[i] != hashes[j]
    requires forall h :: h in f.listeners <==> h in hashes
    requires forall h :: Distinct(ItemsAt(f, h))
    ensures forall call: TxCall ::
      TimesCalled(PollCalls(f, hashes, mined), call) ==
      if call.hash in mined && Listens(ItemsAt(f, call.hash), call.listener) then 1 else 0
    ensures forall h ::
      ItemsAt(PolledTx(f, hashes, mined), h) == if h in mined then Persistent(ItemsAt(f, h)) else ItemsAt(f, h)
  {
    forall call: TxCall
      ensures TimesCalled(PollCalls(f, hashes, mined), call) ==
        if call.hash in mined && Listens(ItemsAt(f, call.hash), call.listener) then 1 else 0
    {
      PollCallsEach(f, hashes, mined, call);
    }
    forall h
      ensures ItemsAt(PolledTx(f, hashes, mined), h) == if h in mined then Persistent(ItemsAt(f, h)) else ItemsAt(f, h)
    {
      ClearEachTxAt(f, PollRemovals(f, hashes, mined), h);
      PollRemovalsAt(f, hashes, mined, h);
      DroppingOnceListeners(ItemsAt(f, h));
    }
  }
}
