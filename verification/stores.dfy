/** The store side of the forwarder: the append-only registration list of a message
    source, the sequential fan-out of one decoded message to every registered store, and
    the InfluxDB store, which turns one call into one point. */
module MessageStores {
  import opened Types

  /** What a store receives as its third argument: a dict of fields, or (from a caller
      other than the message handler) some other Python value. */
  datatype Data = DictData(fields: Fields) | NonDict(v: Value)

  /** The arguments of one `store_msg` call. */
  datatype StoreCall = StoreCall(node: string, measurement: string, data: Data)

  /** How a `store_msg` call ended. */
  datatype StoreOutcome = Returned | Raised(error: Error)

  // ---------------------------------------------------------------------------
  // Registration

  /** A message source's store list; None until the first registration, because the
      source creates its list lazily. */
  datatype Source<S> = Source(registered: Option<seq<S>>)

  function Unregistered<S>(): Source<S> {
    Source(None)
  }

  /** The `stores` property: a copy of the registrations, or AttributeError when nothing
      was ever registered. */
  function Stores<S>(src: Source<S>): (r: Result<seq<S>, Error>)
    ensures src.registered.None? <==> r == Failure(AttributeError)
    ensures src.registered.Some? ==> r == Success(src.registered.value)
  {
    match src.registered
    case None => Failure(AttributeError)
    case Some(list) => Success(list)
  }

  /** `register_store`: append, keeping order and duplicates. */
  function RegisterStore<S>(src: Source<S>, store: S): (r: Source<S>)
    ensures Stores(r).Success?
    ensures Stores(r).value == (if src.registered.None? then [] else src.registered.value) + [store]
  {
    match src.registered
    case None => Source(Some([store]))
    case Some(list) => Source(Some(list + [store]))
  }

  /** Registering each of `stores` in turn. */
  function RegisterAll<S>(src: Source<S>, stores: seq<S>): Source<S>
    decreases |stores|
  {
    if stores == [] then src
    else RegisterAll(RegisterStore(src, stores[0]), stores[1..])
  }

  /** Registrations accumulate in order: after registering `more`, the store list is the
      earlier list followed by `more`, duplicates included. */
  lemma {:induction false} RegisterAllAppends<S>(src: Source<S>, more: seq<S>)
    requires src.registered.Some?
    ensures Stores(RegisterAll(src, more)) == Success(src.registered.value + more)
    decreases |more|
  {
    if more == [] {
      assert src.registered.value + more == src.registered.value;
    } else {
      var next := RegisterStore(src, more[0]);
      assert next.registered == Some(src.registered.value + [more[0]]);
      assert RegisterAll(src, more) == RegisterAll(next, more[1..]);
      RegisterAllAppends(next, more[1..]);
      assert src.registered.value + [more[0]] + more[1..] == src.registered.value + more;
    }
  }

  /** From a fresh source, the store list is exactly what was registered, in order; with
      nothing registered, reading it fails. */
  lemma RegisterAllFromFresh<S>(stores: seq<S>)
    ensures stores == [] ==> Stores(RegisterAll(Unregistered<S>(), stores)) == Failure(AttributeError)
    ensures stores != [] ==> Stores(RegisterAll(Unregistered<S>(), stores)) == Success(stores)
  {
    if stores != [] {
      var first := RegisterStore(Unregistered<S>(), stores[0]);
      RegisterAllAppends(first, stores[1..]);
      assert [stores[0]] + stores[1..] == stores;
    }
  }

  // ---------------------------------------------------------------------------
  // Dispatch

  /** One `store_msg` call as it happened. */
  datatype Invocation<S> = Invocation(store: S, call: StoreCall)

  /** The calls made for one message and the exception, if any, that ended the loop. */
  datatype Dispatched<S> = Dispatched(invoked: seq<Invocation<S>>, error: Option<Error>)

  /** The loop `for store in self.stores: store.store_msg(...)`. Stores are opaque; `behave`
      says how each call ends. An exception is not caught, so it ends the loop. */
  function Dispatch<S>(stores: seq<S>, call: StoreCall, behave: (S, StoreCall) -> StoreOutcome)
    : (r: Dispatched<S>)
    // The calls are made in registration order, each with the same arguments.
    ensures |r.invoked| <= |stores|
    ensures forall i {:trigger r.invoked[i]} :: 0 <= i < |r.invoked| ==> r.invoked[i] == Invocation(stores[i], call)
    // The loop ends without an exception exactly when no store raises, and then every
    // store was called.
    ensures r.error.None? <==> forall i :: 0 <= i < |stores| ==> behave(stores[i], call).Returned?
    ensures r.error.None? ==> |r.invoked| == |stores|
    // Otherwise the loop stops right after the first store that raises.
    ensures r.error.Some? ==>
      && |r.invoked| > 0
      && behave(stores[|r.invoked| - 1], call) == Raised(r.error.value)
      && forall i :: 0 <= i < |r.invoked| - 1 ==> behave(stores[i], call).Returned?
    decreases |stores|
  {
    if stores == [] then Dispatched([], None)
    else
      match behave(stores[0], call)
      case Raised(e) => Dispatched([Invocation(stores[0], call)], Some(e))
      case Returned =>
        var rest := Dispatch(stores[1..], call, behave);
        Dispatched([Invocation(stores[0], call)] + rest.invoked, rest.error)
  }

  /** Dispatch's contract pins its result down: any record of calls and outcome that keeps
      the order, the arguments and the stop-at-the-first-raise rule is the one `Dispatch`
      returns. */
  lemma DispatchUnique<S>(stores: seq<S>, call: StoreCall, behave: (S, StoreCall) -> StoreOutcome,
                          d: Dispatched<S>)
    requires |d.invoked| <= |stores|
    requires forall i {:trigger d.invoked[i]} :: 0 <= i < |d.invoked| ==> d.invoked[i] == Invocation(stores[i], call)
    requires d.error.None? <==> forall i :: 0 <= i < |stores| ==> behave(stores[i], call).Returned?
    requires d.error.None? ==> |d.invoked| == |stores|
    requires d.error.Some? ==>
      && |d.invoked| > 0
      && behave(stores[|d.invoked| - 1], call) == Raised(d.error.value)
      && forall i :: 0 <= i < |d.invoked| - 1 ==> behave(stores[i], call).Returned?
    ensures d == Dispatch(stores, call, behave)
  {
    var r := Dispatch(stores, call, behave);
    assert |d.invoked| == |r.invoked|;
    assert forall i :: 0 <= i < |d.invoked| ==> d.invoked[i] == r.invoked[i];
  }

  /** The same loop, written as the source writes it. */
  method DispatchLoop<S>(stores: seq<S>, call: StoreCall, behave: (S, StoreCall) -> StoreOutcome)
    returns (invoked: seq<Invocation<S>>, error: Option<Error>)
    ensures Dispatched(invoked, error) == Dispatch(stores, call, behave)
  {
    invoked := [];
    error := None;
    var i := 0;
    while i < |stores|
      invariant 0 <= i <= |stores|
      invariant |invoked| == i
      invariant forall j {:trigger invoked[j]} :: 0 <= j < i ==> invoked[j] == Invocation(stores[j], call)
      invariant forall j :: 0 <= j < i ==> behave(stores[j], call).Returned?
    {
      var outcome := behave(stores[i], call);
      invoked := invoked + [Invocation(stores[i], call)];
      if outcome.Raised? {
        error := Some(outcome.error);
        DispatchUnique(stores, call, behave, Dispatched(invoked, error));
        return;
      }
      i := i + 1;
    }
    DispatchUnique(stores, call, behave, Dispatched(invoked, error));
  }

  // ---------------------------------------------------------------------------
  // InfluxDB store

  /** An InfluxDB point as the store builds it. */
  datatype Point = Point(measurement: string, tags: map<string, string>, fields: Fields)

  /** How the client's `write_points` call ended. */
  datatype WriteOutcome = WriteOk | WriteFailed(error: Error)

  /** The batches passed to `write_points` by one call, and how the call ended. */
  datatype InfluxCall = InfluxCall(written: seq<seq<Point>>, outcome: StoreOutcome)

  /** `InfluxStore.store_msg`; `write` stands for the client's `write_points`. */
  function InfluxStoreMsg(write: seq<Point> -> WriteOutcome, call: StoreCall): (r: InfluxCall)
    // A non-dict is refused before anything is written.
    ensures call.data.NonDict? ==> r == InfluxCall([], Raised(ValueError))
    // A dict becomes exactly one point, written in a batch of one.
    ensures call.data.DictData? ==>
      && |r.written| == 1
      && r.written[0] == [Point(call.measurement, map["sensor_node" := call.node], call.data.fields)]
    // A connection failure is swallowed; any other write failure escapes unchanged.
    ensures call.data.DictData? ==>
      (r.outcome.Returned? <==> write(r.written[0]) in {WriteOk, WriteFailed(ConnectionError)})
    ensures call.data.DictData? && r.outcome.Raised? ==> write(r.written[0]) == WriteFailed(r.outcome.error)
  {
    match call.data
    case NonDict(_) => InfluxCall([], Raised(ValueError))
    case DictData(fields) =>
      var batch := [Point(call.measurement, map["sensor_node" := call.node], fields)];
      match write(batch)
      case WriteOk => InfluxCall([batch], Returned)
      case WriteFailed(ConnectionError) => InfluxCall([batch], Returned)
      case WriteFailed(e) => InfluxCall([batch], Raised(e))
  }

  /** A source whose stores are all InfluxDB stores, each with its own `write_points`. */
  function InfluxBehaviour<S>(writeOf: S -> (seq<Point> -> WriteOutcome)): (S, StoreCall) -> StoreOutcome {
    (s: S, c: StoreCall) => InfluxStoreMsg(writeOf(s), c).outcome
  }

  /** When every store is an InfluxDB store whose writes either succeed or fail with a
      connection error, a dict message reaches every store: connection failures are the
      only ones the stores isolate. */
  lemma InfluxConnectionFailuresDoNotStopDispatch<S>(
    stores: seq<S>, call: StoreCall, writeOf: S -> (seq<Point> -> WriteOutcome))
    requires call.data.DictData?
    requires forall i :: 0 <= i < |stores| ==>
      writeOf(stores[i])([Point(call.measurement, map["sensor_node" := call.node], call.data.fields)])
        in {WriteOk, WriteFailed(ConnectionError)}
    ensures Dispatch(stores, call, InfluxBehaviour(writeOf)).error.None?
    ensures |Dispatch(stores, call, InfluxBehaviour(writeOf)).invoked| == |stores|
  {
    var behave := InfluxBehaviour(writeOf);
    forall i | 0 <= i < |stores|
      ensures behave(stores[i], call).Returned?
    {
      var r := InfluxStoreMsg(writeOf(stores[i]), call);
      assert behave(stores[i], call) == r.outcome;
    }
  }
}
