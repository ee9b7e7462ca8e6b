/** The main-thread side: numbered calls, pending promises, and what settles them. */
module EngineClient {
  import opened Common
  import opened KeyManagement
  import opened EngineWorker

  datatype Failure =
    | WorkerError(error: EngineError)
    | WorkerCrashed(message: string)
    | WorkerTerminated
    | NotCloneable

  datatype Settlement = Unsettled | Resolved(value: EngineValue) | Rejected(failure: Failure)

  /** A promise: how it settled, and how often anything tried to settle it. */
  datatype Promise = Promise(settlement: Settlement, attempts: nat)

  const NEW_PROMISE := Promise(Unsettled, 0)

  /** Only the first attempt has an effect. */
  function Settle(p: Promise, s: Settlement): Promise {
    Promise(if p.settlement.Unsettled? then s else p.settlement, p.attempts + 1)
  }

  /** The promises handed out (call `id` holds the one at `id - 1`), and the ids the client still waits for. */
  datatype Client = Client(promises: seq<Promise>, pending: set<nat>)

  ghost predicate ClientOk(c: Client) {
    forall id :: id in c.pending ==> 1 <= id <= |c.promises|
  }

  /** `posted` is false when `postMessage` throws: the runtime then rejects the promise, but the id stays pending. */
  function Call(c: Client, posted: bool): Client {
    Client(c.promises + [if posted then NEW_PROMISE else Settle(NEW_PROMISE, Rejected(NotCloneable))],
           c.pending + {|c.promises| + 1})
  }

  function OutcomeOf(r: Response): Settlement {
    if r.outcome.Ok? then Resolved(r.outcome.value) else Rejected(WorkerError(r.outcome.error))
  }

  function HandleResponse(c: Client, r: Response): Client
    requires ClientOk(c)
  {
    if r.id !in c.pending then c
    else Client(c.promises[r.id - 1 := Settle(c.promises[r.id - 1], OutcomeOf(r))], c.pending - {r.id})
  }

  function RejectAll(c: Client, failure: Failure): Client {
    Client(seq(|c.promises|, i requires 0 <= i < |c.promises| =>
                 Rejecting(c.promises[i], i + 1 in c.pending, failure)),
           {})
  }

  // ---- the code ----

  class Deferred {
    var settlement: Settlement
    var attempts: nat

    constructor ()
      ensures Value() == NEW_PROMISE
    {
      settlement, attempts := Unsettled, 0;
    }

    ghost function Value(): Promise
      reads this
    {
      Promise(settlement, attempts)
    }

    method SettleAs(s: Settlement)
      modifies this
      ensures Value() == Settle(old(Value()), s)
    {
      if settlement.Unsettled? {
        settlement := s;
      }
      attempts := attempts + 1;
    }
  }

  class Engine {
    var nextId: nat
    var pending: JsMap<nat, Deferred>
    var outgoing: seq<Request>
    ghost var issued: seq<Deferred>

    constructor ()
      ensures Valid() && View() == Client([], {}) && outgoing == []
    {
      nextId := 1;
      pending := JsMap([], map[]);
      outgoing := [];
      issued := [];
    }

    ghost predicate Valid()
      reads this
    {
      && nextId == |issued| + 1
      && pending.Valid()
      && (forall i, j :: 0 <= i < j < |issued| ==> issued[i] != issued[j])
      && (forall id :: id in pending.entries ==> 1 <= id <= |issued| && pending.entries[id] == issued[id - 1])
    }

    ghost function View(): Client
      reads this, issued
    {
      Client(seq(|issued|, i requires 0 <= i < |issued| reads this, issued => issued[i].Value()), pending.entries.Keys)
    }

    /** Hands out the next id; `cloneable` says whether the payload can cross to the worker. */
    method CallOp(op: EngineOp, cloneable: bool) returns (promise: Deferred)
      requires Valid()
      modifies this
      ensures Valid() && fresh(promise) && issued == old(issued) + [promise]
      ensures View() == Call(old(View()), cloneable)
      ensures outgoing == old(outgoing) + if cloneable then [Request(|issued|, op)] else []
    {
      var id := nextId;
      nextId := nextId + 1;
      promise := new Deferred();
      pending := pending.Set(id, promise);
      issued := issued + [promise];
      if cloneable {
        outgoing := outgoing + [Request(id, op)];
      } else {
        promise.SettleAs(Rejected(NotCloneable));
      }
      assert View().promises == old(View()).promises + [promise.Value()];
    }

    method OnResponse(response: Response)
      requires Valid()
      modifies `pending, issued
      ensures Valid() && ClientOk(old(View()))
      ensures View() == HandleResponse(old(View()), response)
    {
      var deferred := pending.Get(response.id);
      if deferred.None? {
        return;
      }
      pending := Remove(pending, response.id);
      deferred.value.SettleAs(OutcomeOf(response));
    }

    method RejectPending(failure: Failure)
      requires Valid()
      modifies `pending, issued
      ensures Valid() && View() == RejectAll(old(View()), failure)
    {
      RejectEach(pending.order, failure);
      pending := JsMap([], map[]);
    }

    /** The loop over the pending calls, in the order they were made. */
    method RejectEach(ids: seq<nat>, failure: Failure)
      requires Valid() && ids == pending.order
      modifies issued
      ensures forall i :: 0 <= i < |issued| ==>
                issued[i].Value() == Rejecting(old(issued[i].Value()), i + 1 in pending.entries, failure)
    {
      ghost var before := View().promises;
      ghost var done: set<nat> := {};
      for k := 0 to |ids|
        invariant forall j :: 0 <= j < |ids| ==> (ids[j] in done <==> j < k)
        invariant forall id :: id in done ==> id in ids
        invariant forall i :: 0 <= i < |issued| ==>
                    issued[i].Value() == Rejecting(before[i], i + 1 in done, failure)
      {
        var id := ids[k];
        var deferred := pending.entries[id];
        assert deferred == issued[id - 1] && id !in done;
        deferred.SettleAs(Rejected(failure));
        done := done + {id};
      }
    }
  }

  function Rejecting(p: Promise, pending: bool, failure: Failure): Promise {
    if pending then Settle(p, Rejected(failure)) else p
  }

  function Remove<V>(m: JsMap<nat, V>, key: nat): (r: JsMap<nat, V>)
    ensures m.Valid() ==> r.Valid() && r.entries == m.entries - {key}
  {
    RemoveKeepsOrder(m.order, key);
    JsMap(Without(m.order, key), m.entries - {key})
  }

  function Without(keys: seq<nat>, key: nat): seq<nat> {
    if keys == [] then []
    else (if keys[0] == key then [] else [keys[0]]) + Without(keys[1..], key)
  }

  lemma {:induction false} RemoveKeepsOrder(keys: seq<nat>, key: nat)
    ensures forall k :: k in Without(keys, key) <==> k in keys && k != key
    ensures (forall i, j :: 0 <= i < j < |keys| ==> keys[i] != keys[j]) ==>
              forall i, j :: 0 <= i < j < |Without(keys, key)| ==> Without(keys, key)[i] != Without(keys, key)[j]
  {
    if keys != [] {
      RemoveKeepsOrder(keys[1..], key);
      assert forall k :: k in keys <==> k == keys[0] || k in keys[1..];
      if forall i, j :: 0 <= i < j < |keys| ==> keys[i] != keys[j] {
        assert keys[0] !in keys[1..];
        var rest := Without(keys[1..], key);
        forall i, j | 0 <= i < j < |Without(keys, key)| ensures Without(keys, key)[i] != Without(keys, key)[j] {
          if keys[0] != key && i == 0 {
            assert Without(keys, key)[j] == rest[j - 1];
          }
        }
      }
    }
  }
}
