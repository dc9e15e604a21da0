/**
 The nonce manager shared by everything that sends transactions. Each operation runs under
 one mutex, so an interleaving of callers is a sequence of these operations. `ReserveNext`
 holds the mutex across its RPC call; `ObservePending` reads the chain before taking it, so
 the value it merges may be arbitrarily stale.
 */
module NonceManager {
  import opened NatArith
  import opened Options

  type u64 = x: nat | x <= U64_MAX

  datatype NonceKey = NonceKey(chainId: u64, address: string)

  /** The nonce after this one; the counter saturates at its limit. */
  function Following(nonce: u64): u64 {
    Least(nonce + 1, U64_MAX)
  }

  /** The next nonce of each key that has been touched; `None` when it was never synced. */
  type States = map<NonceKey, Option<u64>>

  function Next(s: States, key: NonceKey): Option<u64> {
    if key in s then s[key] else None
  }

  // ----- One key ---------------------------------------------------------------

  /** The nonce a reservation gets; `rpc` is what the chain answers if it has to be asked. */
  function NonceFor(next: Option<u64>, rpc: Option<u64>): Option<u64> {
    if next.Some? then next else rpc
  }

  function NextAfterReserve(next: Option<u64>, rpc: Option<u64>): Option<u64> {
    var nonce := NonceFor(next, rpc);
    if nonce.Some? then Some(Following(nonce.value)) else None
  }

  function NextAfterObserve(next: Option<u64>, pending: u64): Option<u64> {
    if next.None? || next.value < pending then Some(pending) else next
  }

  function NextAfterFailure(next: Option<u64>, nonce: u64): Option<u64> {
    if next == Some(Following(nonce)) then Some(nonce) else next
  }

  // ----- All keys ---------------------------------------------------------------

  class Manager {
    var states: States

    constructor ()
      ensures states == map[]
    {
      states := map[];
    }

    method ReserveNext(key: NonceKey, rpc: Option<u64>) returns (nonce: Option<u64>)
      modifies this
      ensures nonce == NonceFor(Next(old(states), key), rpc)
      ensures states == old(states)[key := NextAfterReserve(Next(old(states), key), rpc)]
      ensures nonce.None? <==> Next(old(states), key).None? && rpc.None?
      ensures nonce.None? ==> states == old(states)[key := None]
      ensures nonce.Some? ==>
        && nonce == (if Next(old(states), key).Some? then Next(old(states), key) else rpc)
        && states == old(states)[key := Some(if nonce.value == U64_MAX then U64_MAX else nonce.value + 1)]
    {
      if key !in states {
        states := states[key := None];
      }
      match states[key] {
        case Some(next) => nonce := Some(next);
        case None =>
          if rpc.None? {
            return None;
          }
          nonce := rpc;
      }
      states := states[key := Some(Following(nonce.value))];
    }

    method ObservePending(key: NonceKey, rpc: Option<u64>) returns (pending: Option<u64>)
      modifies this
      ensures pending == rpc
      ensures states == if rpc.None? then old(states)
                        else old(states)[key := NextAfterObserve(Next(old(states), key), rpc.value)]
      ensures rpc.Some? ==>
        && key in states && states[key].Some? && rpc.value <= states[key].value
        && (states[key] == rpc || states[key] == Next(old(states), key))
        && (Next(old(states), key).Some? ==> Next(old(states), key).value <= states[key].value)
    {
      if rpc.None? {
        return None;
      }
      if key !in states {
        states := states[key := None];
      }
      if states[key].None? || states[key].value < rpc.value {
        states := states[key := rpc];
      }
      pending := rpc;
    }

    method MarkFailed(key: NonceKey, nonce: u64)
      modifies this
      ensures states == if key in old(states)
                        then old(states)[key := NextAfterFailure(old(states)[key], nonce)] else old(states)
      ensures states ==
        if key in old(states) && old(states)[key] == Some(if nonce == U64_MAX then U64_MAX else nonce + 1)
        then old(states)[key := Some(nonce)] else old(states)
    {
      if key in states && states[key] == Some(Following(nonce)) {
        states := states[key := Some(nonce)];
      }
    }

    method Reset(key: NonceKey)
      modifies this
      ensures states == old(states) - {key}
    {
      states := states - {key};
    }
  }

  /**
   The nonce discipline of the two senders (wrapping ETH, and transferring from the wallet to
   the exchange): reserve, sign, send, and give the nonce back once if signing or sending
   fails. Run without interference, a failure leaves the next caller the same nonce.
   */
  method SubmitWithNonce(manager: Manager, key: NonceKey, rpc: Option<u64>, signs: bool, sends: bool)
    returns (sent: Option<u64>)
    modifies manager
    ensures sent.Some? <==> (Next(old(manager.states), key).Some? || rpc.Some?) && signs && sends
    ensures sent.Some? ==>
      sent == (if Next(old(manager.states), key).Some? then Next(old(manager.states), key) else rpc)
    ensures forall k :: k != key ==> Next(manager.states, k) == Next(old(manager.states), k)
    ensures var nonce := NonceFor(Next(old(manager.states), key), rpc);
      && (sent.Some? ==> sent == nonce)
      && NonceFor(Next(manager.states, key), None) ==
           if sent.Some? then Some(Following(nonce.value)) else nonce
  {
    var nonce := manager.ReserveNext(key, rpc);
    if nonce.None? {
      return None;
    }
    if !signs {
      manager.MarkFailed(key, nonce.value);
      return None;
    }
    if !sends {
      manager.MarkFailed(key, nonce.value);
      return None;
    }
    sent := nonce;
  }
}
