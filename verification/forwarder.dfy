/** The MQTT source's message handler: parse the topic, decode the payload, read the
    store list and hand the result to every store in turn. Log calls become warnings in
    the result; an exception that leaves the handler becomes its `raised` field. */
module Forwarder {
  import opened Types
  import opened Topic
  import opened Payload
  import opened MessageStores

  /** The source's configuration once `_setup_handlers` has run: the normalised topic
      prefix, the expected node names and the measurements whose values are stringified. */
  datatype Config = Config(prefix: string, nodes: seq<string>, stringify: seq<string>)

  /** Build the configuration from the values given to the source: the node list and the
      stringify list are kept as given, and the prefix is normalised, so it is empty only
      for `""` and `"/"` and otherwise starts with `/`. */
  function Configure(prefix: string, nodes: seq<string>, stringify: seq<string>): (c: Config)
    ensures c.prefix == NormalizePrefix(prefix)
    ensures c.nodes == nodes && c.stringify == stringify
    ensures c.prefix == "" <==> (prefix == "" || prefix == "/")
    ensures c.prefix != "" ==> c.prefix[0] == '/'
  {
    Config(NormalizePrefix(prefix), nodes, stringify)
  }

  /** The filters `on_connect` subscribes to: one multi-level filter per configured node,
      in the configured order, under the normalised prefix. */
  function Subscriptions(cfg: Config): (r: seq<string>)
    ensures |r| == |cfg.nodes|
    ensures forall i :: 0 <= i < |cfg.nodes| ==> r[i] == cfg.prefix + "/" + cfg.nodes[i] + "/#"
  {
    SubscriptionFilters(cfg.prefix, cfg.nodes)
  }

  /** What the handler logs at warning level. */
  datatype Warning = UnparsableTopic(topic: string) | UnexpectedNode(node: string)

  /** The warnings, the `store_msg` calls made, and the exception that escaped, if any. */
  datatype Handled<S> = Handled(warnings: seq<Warning>, invoked: seq<Invocation<S>>, raised: Option<Error>)

  /** `on_message` for one message with the given topic and payload. */
  function HandleMessage<S>(cfg: Config, prims: Primitives, src: Source<S>,
                            behave: (S, StoreCall) -> StoreOutcome, topic: string, payload: Bytes)
    : (h: Handled<S>)
    // A topic of the wrong shape is dropped with a warning and reaches no store.
    ensures ParseTopic(cfg.prefix, topic).Failure? ==> h == Handled([UnparsableTopic(topic)], [], None)
    // A parsed topic logs nothing but one warning for a node outside the configured list.
    ensures ParseTopic(cfg.prefix, topic).Success? ==>
      h.warnings == (if ParseTopic(cfg.prefix, topic).value.node in cfg.nodes then []
                     else [UnexpectedNode(ParseTopic(cfg.prefix, topic).value.node)])
    // Every store call carries the parsed identity and the decoded dict, in registration order.
    ensures h.invoked != [] ==>
      && ParseTopic(cfg.prefix, topic).Success?
      && DecodePayload(prims, ParseTopic(cfg.prefix, topic).value.measurement, cfg.stringify, payload).Success?
      && Stores(src).Success?
      && |h.invoked| <= |Stores(src).value|
      && forall i :: 0 <= i < |h.invoked| ==>
           h.invoked[i] == Invocation(Stores(src).value[i],
             StoreCall(ParseTopic(cfg.prefix, topic).value.node,
                       ParseTopic(cfg.prefix, topic).value.measurement,
                       DictData(DecodePayload(prims, ParseTopic(cfg.prefix, topic).value.measurement,
                                              cfg.stringify, payload).value)))
    // Every store called before the last one returned normally.
    ensures forall i :: 0 <= i < |h.invoked| - 1 ==> behave(h.invoked[i].store, h.invoked[i].call).Returned?
    // Once the stores are reached, the handler either calls them all, every call returning,
    // or stops at the first store that raises and re-raises that store's exception.
    ensures (&& ParseTopic(cfg.prefix, topic).Success?
             && DecodePayload(prims, ParseTopic(cfg.prefix, topic).value.measurement, cfg.stringify, payload).Success?
             && Stores(src).Success?) ==>
      && (h.raised.None? ==>
            && |h.invoked| == |Stores(src).value|
            && forall i :: 0 <= i < |h.invoked| ==> behave(h.invoked[i].store, h.invoked[i].call).Returned?)
      && (h.raised.Some? ==>
            && |h.invoked| > 0
            && behave(h.invoked[|h.invoked| - 1].store, h.invoked[|h.invoked| - 1].call) == Raised(h.raised.value))
  {
    match ParseTopic(cfg.prefix, topic)
    case Failure(_) => Handled([UnparsableTopic(topic)], [], None)
    case Success(id) =>
      var warnings := if id.node in cfg.nodes then [] else [UnexpectedNode(id.node)];
      match DecodePayload(prims, id.measurement, cfg.stringify, payload)
      case Failure(e) => Handled(warnings, [], Some(e))
      case Success(fields) =>
        match Stores(src)
        case Failure(e) => Handled(warnings, [], Some(e))
        case Success(stores) =>
          var d := Dispatch(stores, StoreCall(id.node, id.measurement, DictData(fields)), behave);
          Handled(warnings, d.invoked, d.error)
  }

  /** A decoding TypeError (a null, array or object member in a JSON object) escapes the
      handler before any store is called. */
  lemma TypeErrorDispatchesNothing<S>(cfg: Config, prims: Primitives, src: Source<S>,
                                      behave: (S, StoreCall) -> StoreOutcome, topic: string, payload: Bytes)
    requires ParseTopic(cfg.prefix, topic).Success?
    requires DecodesToObject(prims, payload)
    requires exists k :: k in prims.jsonLoads(payload).value.members
                      && RaisesTypeError(prims.jsonLoads(payload).value.members[k])
    ensures HandleMessage(cfg, prims, src, behave, topic, payload).invoked == []
    ensures HandleMessage(cfg, prims, src, behave, topic, payload).raised == Some(TypeError)
  {
  }

  /** With no store ever registered, reading the store list raises AttributeError for
      every message that parses and decodes. */
  lemma NoStoreRaisesAttributeError<S>(cfg: Config, prims: Primitives,
                                       behave: (S, StoreCall) -> StoreOutcome, topic: string, payload: Bytes)
    requires ParseTopic(cfg.prefix, topic).Success?
    requires DecodePayload(prims, ParseTopic(cfg.prefix, topic).value.measurement, cfg.stringify, payload).Success?
    ensures HandleMessage(cfg, prims, Unregistered<S>(), behave, topic, payload).raised == Some(AttributeError)
    ensures HandleMessage(cfg, prims, Unregistered<S>(), behave, topic, payload).invoked == []
  {
  }

  /** The node list gates nothing: a message from an unexpected node reaches exactly the
      same stores, with the same arguments and outcome, as it would if the node were
      expected. */
  lemma NodeListOnlyWarns<S>(cfg: Config, others: seq<string>, prims: Primitives, src: Source<S>,
                             behave: (S, StoreCall) -> StoreOutcome, topic: string, payload: Bytes)
    ensures HandleMessage(cfg, prims, src, behave, topic, payload).invoked
         == HandleMessage(cfg.(nodes := others), prims, src, behave, topic, payload).invoked
    ensures HandleMessage(cfg, prims, src, behave, topic, payload).raised
         == HandleMessage(cfg.(nodes := others), prims, src, behave, topic, payload).raised
  {
  }

  /** A conforming topic with a decodable payload reaches every registered store, in
      registration order, with the topic's own node and measurement, as long as no store
      raises. */
  lemma ConformingMessageReachesEveryStore<S>(cfg: Config, prims: Primitives, stores: seq<S>,
                                              behave: (S, StoreCall) -> StoreOutcome,
                                              topic: string, id: TopicId, payload: Bytes)
    requires Conforms(cfg.prefix, topic, id)
    requires stores != []
    requires DecodePayload(prims, id.measurement, cfg.stringify, payload).Success?
    requires forall i :: 0 <= i < |stores| ==>
      behave(stores[i], StoreCall(id.node, id.measurement,
        DictData(DecodePayload(prims, id.measurement, cfg.stringify, payload).value))).Returned?
    ensures var h := HandleMessage(cfg, prims, RegisterAll(Unregistered<S>(), stores), behave, topic, payload);
      && h.raised.None?
      && |h.invoked| == |stores|
      && forall i :: 0 <= i < |stores| ==>
           h.invoked[i] == Invocation(stores[i], StoreCall(id.node, id.measurement,
             DictData(DecodePayload(prims, id.measurement, cfg.stringify, payload).value)))
  {
    ParseTopicComplete(cfg.prefix, topic, id);
    RegisterAllFromFresh(stores);
    var fields := DecodePayload(prims, id.measurement, cfg.stringify, payload).value;
    var d := Dispatch(stores, StoreCall(id.node, id.measurement, DictData(fields)), behave);
    assert d.error.None?;
  }

  /** End to end from the source's own settings: with the prefix as configured, a message
      published under the normalised prefix, `<prefix>/<node>/<measurement>` optionally
      followed by a non-token character and anything else, is received through the
      node's subscription when the node is configured, raises no unexpected-node warning
      exactly then, and reaches every registered store with that node and measurement as
      long as no store raises. */
  lemma ConfiguredMessageReachesEveryStore<S>(prefix: string, nodes: seq<string>, stringify: seq<string>,
                                              prims: Primitives, stores: seq<S>,
                                              behave: (S, StoreCall) -> StoreOutcome,
                                              node: string, measurement: string, rest: string, payload: Bytes)
    requires IsToken(node) && IsToken(measurement)
    requires rest == "" || !IsTokenChar(rest[0])
    requires stores != []
    requires DecodePayload(prims, measurement, stringify, payload).Success?
    requires forall i :: 0 <= i < |stores| ==>
      behave(stores[i], StoreCall(node, measurement,
        DictData(DecodePayload(prims, measurement, stringify, payload).value))).Returned?
    ensures var cfg := Configure(prefix, nodes, stringify);
      var topic := NormalizePrefix(prefix) + "/" + node + "/" + measurement + rest;
      var h := HandleMessage(cfg, prims, RegisterAll(Unregistered<S>(), stores), behave, topic, payload);
      && (forall i :: 0 <= i < |nodes| && nodes[i] == node ==> FilterMatches(Subscriptions(cfg)[i], topic))
      && (h.warnings == [] <==> node in nodes)
      && h.raised.None?
      && |h.invoked| == |stores|
      && forall i :: 0 <= i < |stores| ==>
           h.invoked[i] == Invocation(stores[i], StoreCall(node, measurement,
             DictData(DecodePayload(prims, measurement, stringify, payload).value)))
  {
    var cfg := Configure(prefix, nodes, stringify);
    var topic := NormalizePrefix(prefix) + "/" + node + "/" + measurement + rest;
    ParseTopicRoundTrip(cfg.prefix, node, measurement, rest);
    forall i | 0 <= i < |nodes| && nodes[i] == node
      ensures FilterMatches(Subscriptions(cfg)[i], topic)
    {
      SubscriptionCoversParsedTopic(cfg.prefix, cfg.nodes, topic, i);
    }
    RegisterAllFromFresh(stores);
    var fields := DecodePayload(prims, measurement, stringify, payload).value;
    var d := Dispatch(stores, StoreCall(node, measurement, DictData(fields)), behave);
    assert d.error.None?;
  }

  /** The handler hands stores nothing but dicts, so the InfluxDB store's ValueError for
      non-dict data is never raised on its behalf. */
  lemma HandlerNeverTriggersInfluxValueError<S>(cfg: Config, prims: Primitives, src: Source<S>,
                                                behave: (S, StoreCall) -> StoreOutcome,
                                                topic: string, payload: Bytes,
                                                write: seq<Point> -> WriteOutcome)
    ensures forall i :: 0 <= i < |HandleMessage(cfg, prims, src, behave, topic, payload).invoked| ==>
      InfluxStoreMsg(write, HandleMessage(cfg, prims, src, behave, topic, payload).invoked[i].call).written != []
  {
  }

  /** A message whose topic is one of the subscribed node filters and parses is
      attributed to that node. */
  lemma SubscribedTopicKeepsItsNode<S>(cfg: Config, prims: Primitives, src: Source<S>,
                                       behave: (S, StoreCall) -> StoreOutcome,
                                       topic: string, payload: Bytes, i: nat)
    requires i < |cfg.nodes| && IsToken(cfg.nodes[i])
    requires FilterMatches(Subscriptions(cfg)[i], topic)
    requires ParseTopic(cfg.prefix, topic).Success?
    ensures UnexpectedNode(cfg.nodes[i]) !in HandleMessage(cfg, prims, src, behave, topic, payload).warnings
    ensures forall j :: 0 <= j < |HandleMessage(cfg, prims, src, behave, topic, payload).invoked| ==>
      HandleMessage(cfg, prims, src, behave, topic, payload).invoked[j].call.node == cfg.nodes[i]
  {
    FilterMatchParsesToNode(cfg.prefix, cfg.nodes, topic, i);
  }
}
