/**
 The event-emitter half of `HardhatEthersProvider`: the methods that update its
 fields between two awaits, each proved against the piece of the machine it is.
 */
module EthersProvider {
  import opened Wrappers
  import opened BlockEvents
  import opened TransactionEvents

  class HardhatEthersProvider {
    var blockListeners: seq<Item>
    var blockPollingInterval: Option<nat>
    var latestBlockNumberPolled: Option<nat>
    var transactionHashListeners: map<Hash, seq<Item>>
    var transactionHashPollingInterval: Option<nat>

    // The runtime around the object.
    var calls: seq<Call>
    var blockTimers: set<nat>
    var nextBlockTimer: nat
    var transactionTimers: set<nat>
    var nextTransactionTimer: nat

    ghost function Blocks(): Fields
      reads this
    {
      Fields(blockListeners, blockPollingInterval, latestBlockNumberPolled, calls, blockTimers, nextBlockTimer)
    }

    ghost function Transactions(): TxFields
      reads this
    {
      TxFields(transactionHashListeners, transactionHashPollingInterval, transactionTimers, nextTransactionTimer)
    }

    constructor ()
      ensures Blocks() == INITIAL.f && Transactions() == TX_INITIAL.f
    {
      blockListeners, blockPollingInterval, latestBlockNumberPolled := [], None, None;
      transactionHashListeners, transactionHashPollingInterval := map[], None;
      calls, blockTimers, nextBlockTimer, transactionTimers, nextTransactionTimer := [], {}, 0, {}, 0;
    }

    // ------------------------------------------------------------------- blocks

    /** `_onBlock` up to its await. */
    method OnBlock(listener: Listener, once: bool)
      modifies this`blockListeners
      ensures blockListeners == old(blockListeners) + [Item(listener, once)]
    {
      blockListeners := blockListeners + [Item(listener, once)];
    }

    method StopBlockPolling()
      modifies this`blockPollingInterval, this`blockTimers
      ensures Blocks() == Stop(old(Blocks()))
    {
      if blockPollingInterval.Some? {
        blockTimers := blockTimers - {blockPollingInterval.value};
        blockPollingInterval := None;
      }
    }

    /** `findIndex` by identity and, if found, `splice`. */
    static method SpliceOut(items: seq<Item>, listener: Listener) returns (rest: seq<Item>)
      ensures rest == RemoveFirst(items, listener)
    {
      var index := 0;
      while index < |items|
        invariant 0 <= index <= |items|
        invariant RemoveFirst(items, listener) == items[..index] + RemoveFirst(items[index..], listener)
      {
        assert items[index..][1..] == items[index + 1..];
        if items[index].listener == listener {
          return items[..index] + items[index + 1..];
        }
        assert items[..index] + [items[index]] == items[..index + 1];
        index := index + 1;
      }
      assert items[..index] == items;
      return items;
    }

    method ClearBlockListeners(listener: Option<Listener>)
      modifies this`blockListeners, this`blockPollingInterval, this`blockTimers
      ensures Blocks() == if listener.None? then ClearAll(old(Blocks())) else Clear(old(Blocks()), listener.value)
    {
      if listener.None? {
        blockListeners := [];
        StopBlockPolling();
      } else {
        blockListeners := SpliceOut(blockListeners, listener.value);
        if |blockListeners| == 0 {
          StopBlockPolling();
        }
      }
    }

    method RemoveBlockListeners(toRemove: seq<Listener>)
      modifies this`blockListeners, this`blockPollingInterval, this`blockTimers
      ensures Blocks() == ClearEach(old(Blocks()), toRemove)
    {
      for i := 0 to |toRemove|
        invariant ClearEach(Blocks(), toRemove[i..]) == ClearEach(old(Blocks()), toRemove)
      {
        assert toRemove[i..][0] == toRemove[i] && toRemove[i..][1..] == toRemove[i + 1..];
        ClearBlockListeners(Some(toRemove[i]));
      }
    }

    /** The inner loop: calls every listener and remembers the once-listeners. */
    static method CallEach(listeners: seq<Item>, argument: nat) returns (called: seq<Call>, toRemove: seq<Listener>)
      ensures called == CallsOf(listeners, argument) && toRemove == OnceListeners(listeners)
    {
      called, toRemove := [], [];
      for i := 0 to |listeners|
        invariant called == CallsOf(listeners[..i], argument)
        invariant toRemove + OnceListeners(listeners[i..]) == OnceListeners(listeners)
      {
        assert CallsOf(listeners[..i + 1], argument) == CallsOf(listeners[..i], argument) + [Call(listeners[i].listener, argument)];
        assert listeners[i..][0] == listeners[i] && listeners[i..][1..] == listeners[i + 1..];
        called := called + [Call(listeners[i].listener, argument)];
        ghost var rest := OnceListeners(listeners[i + 1..]);
        if listeners[i].once {
          Assoc(toRemove, [listeners[i].listener], rest);
          toRemove := toRemove + [listeners[i].listener];
        } else {
          assert OnceListeners(listeners[i..]) == [] + rest == rest;
        }
      }
      assert listeners[..|listeners|] == listeners;
    }

    /** Calls every listener and then drops the once-listeners: `_emitBlock` and the body of the poll loop. */
    method CallBlockListeners(number: nat)
      modifies this`blockListeners, this`blockPollingInterval, this`blockTimers, this`calls
      ensures Blocks() == Deliver(old(Blocks()), number)
    {
      var called, toRemove := CallEach(blockListeners, number);
      calls := calls + called;
      RemoveBlockListeners(toRemove);
    }

    /** `_pollBlocks` after its await. */
    method PollBlocks(currentBlockNumber: nat)
      modifies this`blockListeners, this`blockPollingInterval, this`blockTimers, this`calls, this`latestBlockNumberPolled
      ensures Blocks() == Polled(old(Blocks()), currentBlockNumber)
    {
      var previousBlockNumber := if latestBlockNumberPolled.Some? then latestBlockNumberPolled.value else 0;
      if currentBlockNumber == previousBlockNumber {
        return;
      } else if currentBlockNumber < previousBlockNumber {
        latestBlockNumberPolled := Some(currentBlockNumber);
        return;
      }
      latestBlockNumberPolled := Some(currentBlockNumber);
      ghost var started := Blocks();
      var blockNumber := previousBlockNumber + 1;
      while blockNumber <= currentBlockNumber
        invariant previousBlockNumber < blockNumber <= currentBlockNumber + 1
        invariant DeliverRange(Blocks(), blockNumber, currentBlockNumber)
               == DeliverRange(started, previousBlockNumber + 1, currentBlockNumber)
      {
        CallBlockListeners(blockNumber);
        blockNumber := blockNumber + 1;
      }
    }

    /** `_startBlockPolling` after its last await. */
    method FinishBlockPollingStart()
      modifies this`blockPollingInterval, this`blockTimers, this`nextBlockTimer
      ensures Blocks() == FinishStart(old(Blocks()))
    {
      if |blockListeners| == 0 {
        return;
      }
      if blockPollingInterval.None? {
        blockPollingInterval := Some(nextBlockTimer);
        blockTimers := blockTimers + {nextBlockTimer};
        nextBlockTimer := nextBlockTimer + 1;
      }
    }

    // -------------------------------------------------------- transaction hashes

    /** `_onTransactionHash` up to its await. */
    method OnTransactionHash(hash: Hash, listener: Listener, once: bool)
      modifies this`transactionHashListeners
      ensures Transactions() == AddTx(old(Transactions()), hash, listener, once)
    {
      var listeners := if hash in transactionHashListeners then transactionHashListeners[hash] else [];
      transactionHashListeners := transactionHashListeners[hash := listeners + [Item(listener, once)]];
    }

    method StopTransactionHashPolling()
      modifies this`transactionHashPollingInterval, this`transactionTimers
      ensures Transactions() == StopTx(old(Transactions()))
    {
      if transactionHashPollingInterval.Some? {
        transactionTimers := transactionTimers - {transactionHashPollingInterval.value};
        transactionHashPollingInterval := None;
      }
    }

    method ClearTransactionHashListeners(hash: Option<Hash>, listener: Option<Listener>)
      modifies this`transactionHashListeners, this`transactionHashPollingInterval, this`transactionTimers
      ensures Transactions() ==
        if hash.None? then ClearAllTx(old(Transactions()))
        else if listener.None? then ClearHash(old(Transactions()), hash.value)
        else ClearTx(old(Transactions()), hash.value, listener.value)
    {
      if hash.None? {
        transactionHashListeners := map[];
      } else if listener.None? {
        transactionHashListeners := transactionHashListeners - {hash.value};
      } else if hash.value in transactionHashListeners {
        var listeners := SpliceOut(transactionHashListeners[hash.value], listener.value);
        transactionHashListeners := transactionHashListeners[hash.value := listeners];
        if |listeners| == 0 {
          transactionHashListeners := transactionHashListeners - {hash.value};
          assert transactionHashListeners == old(transactionHashListeners) - {hash.value};
        }
      }
      if |transactionHashListeners| == 0 {
        StopTransactionHashPolling();
      }
    }

    /** The last loop of `_pollTransactionHashes`. */
    method RemoveTransactionHashListeners(removals: seq<Removal>)
      modifies this`transactionHashListeners, this`transactionHashPollingInterval, this`transactionTimers
      ensures Transactions() == ClearEachTx(old(Transactions()), removals)
    {
      for i := 0 to |removals|
        invariant ClearEachTx(Transactions(), removals[i..]) == ClearEachTx(old(Transactions()), removals)
      {
        assert removals[i..][0] == removals[i] && removals[i..][1..] == removals[i + 1..];
        ClearTransactionHashListeners(Some(removals[i].hash), Some(removals[i].listener));
      }
    }

    /** `_emitTransactionHash`; the calls themselves are logged as for blocks. */
    method EmitTransactionHash(hash: Hash, argument: nat) returns (heard: bool)
      modifies this`transactionHashListeners, this`transactionHashPollingInterval, this`transactionTimers, this`calls
      ensures heard == (hash in old(transactionHashListeners))
      ensures Transactions() == EmitTx(old(Transactions()), hash)
      ensures calls == old(calls) + if heard then CallsOf(old(transactionHashListeners)[hash], argument) else []
    {
      if hash !in transactionHashListeners {
        return false;
      }
      var called, toRemove := CallEach(transactionHashListeners[hash], argument);
      calls := calls + called;
      var removals := seq(|toRemove|, i requires 0 <= i < |toRemove| => Removal(hash, toRemove[i]));
      OnceRemovalsOf(hash, transactionHashListeners[hash]);
      assert removals == OnceRemovals(hash, transactionHashListeners[hash]);
      RemoveTransactionHashListeners(removals);
      return true;
    }

    static lemma {:induction false} OnceRemovalsOf(hash: Hash, items: seq<Item>)
      ensures |OnceRemovals(hash, items)| == |OnceListeners(items)|
      ensures forall i :: 0 <= i < |OnceListeners(items)| ==> OnceRemovals(hash, items)[i] == Removal(hash, OnceListeners(items)[i])
    {
      if items != [] {
        OnceRemovalsOf(hash, items[1..]);
        var removals, listeners := OnceRemovals(hash, items[1..]), OnceListeners(items[1..]);
        if items[0].once {
          var l := items[0].listener;
          assert OnceRemovals(hash, items) == [Removal(hash, l)] + removals;
          assert OnceListeners(items) == [l] + listeners;
          forall i | 0 <= i < |OnceListeners(items)|
            ensures OnceRemovals(hash, items)[i] == Removal(hash, OnceListeners(items)[i])
          {
            if i > 0 { assert removals[i - 1] == Removal(hash, listeners[i - 1]); }
          }
        } else {
          assert OnceRemovals(hash, items) == [] + removals == removals;
          assert OnceListeners(items) == [] + listeners == listeners;
        }
      }
    }

    /** `_pollTransactionHashes`, when nothing interferes: `hashes` are the keys, `mined` those with a receipt. */
    method PollTransactionHashes(hashes: seq<Hash>, mined: set<Hash>) returns (made: seq<TxCall>)
      requires forall h :: h in hashes ==> h in transactionHashListeners
      modifies this`transactionHashListeners, this`transactionHashPollingInterval, this`transactionTimers
      ensures made == PollCalls(old(Transactions()), hashes, mined)
      ensures Transactions() == PolledTx(old(Transactions()), hashes, mined)
    {
      var listenersToRemove: seq<Removal> := [];
      made := [];
      ghost var f := Transactions();
      for i := 0 to |hashes|
        invariant Transactions() == f
        invariant made + PollCalls(f, hashes[i..], mined) == PollCalls(f, hashes, mined)
        invariant listenersToRemove + PollRemovals(f, hashes[i..], mined) == PollRemovals(f, hashes, mined)
      {
        assert hashes[i..][0] == hashes[i] && hashes[i..][1..] == hashes[i + 1..] && hashes[i] in hashes;
        if hashes[i] in mined {
          var called, removals := CallWithReceipt(hashes[i], transactionHashListeners[hashes[i]]);
          Assoc(made, called, PollCalls(f, hashes[i + 1..], mined));
          Assoc(listenersToRemove, removals, PollRemovals(f, hashes[i + 1..], mined));
          made := made + called;
          listenersToRemove := listenersToRemove + removals;
        } else {
          assert [] + PollCalls(f, hashes[i + 1..], mined) == PollCalls(f, hashes[i + 1..], mined);
          assert [] + PollRemovals(f, hashes[i + 1..], mined) == PollRemovals(f, hashes[i + 1..], mined);
        }
      }
      assert listenersToRemove == PollRemovals(f, hashes, mined);
      RemoveTransactionHashListeners(listenersToRemove);
    }

    /** The inner loop: calls every listener of a mined transaction and remembers the once-listeners. */
    static method CallWithReceipt(hash: Hash, listeners: seq<Item>) returns (called: seq<TxCall>, removals: seq<Removal>)
      ensures called == TxCallsOf(hash, listeners) && removals == OnceRemovals(hash, listeners)
    {
      called, removals := [], [];
      for i := 0 to |listeners|
        invariant called == TxCallsOf(hash, listeners[..i])
        invariant removals + OnceRemovals(hash, listeners[i..]) == OnceRemovals(hash, listeners)
      {
        assert TxCallsOf(hash, listeners[..i + 1]) == TxCallsOf(hash, listeners[..i]) + [TxCall(hash, listeners[i].listener)];
        assert listeners[i..][0] == listeners[i] && listeners[i..][1..] == listeners[i + 1..];
        called := called + [TxCall(hash, listeners[i].listener)];
        ghost var rest := OnceRemovals(hash, listeners[i + 1..]);
        if listeners[i].once {
          Assoc(removals, [Removal(hash, listeners[i].listener)], rest);
          removals := removals + [Removal(hash, listeners[i].listener)];
        } else {
          assert OnceRemovals(hash, listeners[i..]) == [] + rest == rest;
        }
      }
      assert listeners[..|listeners|] == listeners;
    }

    /** `_startTransactionHashPolling` after its last await. */
    method FinishTransactionHashPollingStart()
      modifies this`transactionHashPollingInterval, this`transactionTimers, this`nextTransactionTimer
      ensures Transactions() == FinishTxStart(old(Transactions()))
    {
      if |transactionHashListeners| == 0 {
        return;
      }
      if transactionHashPollingInterval.None? {
        transactionHashPollingInterval := Some(nextTransactionTimer);
        transactionTimers := transactionTimers + {nextTransactionTimer};
        nextTransactionTimer := nextTransactionTimer + 1;
      }
    }
  }
}
