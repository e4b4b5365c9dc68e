# MQTT-to-InfluxDB forwarder: the message-translation core

This project models, in Dafny, the part of `forwarder.py` that turns an MQTT message
into InfluxDB writes, and proves properties of that model:

- **Topic handling** (`topic.dfy`, module `Topic`): the configured prefix gains a leading
  `/` and loses one trailing `/`; one subscription filter `<prefix>/<node>/#` is built per
  configured node; a topic is parsed with the anchored pattern
  `<prefix>/(token)/(token)/?`, token = `(?:\w|-|\.)+`, written out as a scan of maximal
  token runs.
- **Payload decoding** (`payload.dfy`, module `Payload`): a payload that `json.loads`
  turns into an object keeps its keys and has each value passed through `float()`, with
  ValueError ignored and TypeError escaping; any other payload becomes `{"value": v}`,
  where `v` is decided from the raw bytes (stringify list, then `float()`, then the bytes
  unchanged).
- **Stores** (`stores.dfy`, module `MessageStores`): the lazily created, append-only
  store list of `MessageSource`, the `stores` property (AttributeError before the first
  registration), the sequential `for store in self.stores` fan-out in which an exception
  ends the loop, and `InfluxStore.store_msg`, which refuses non-dicts, writes one point
  tagged `sensor_node`, and swallows only connection errors.
- **Message handler** (`forwarder.dfy`, module `Forwarder`): `on_message` composed from
  the above. Log calls at warning level become `Warning` values; an exception that leaves
  the handler becomes its `raised` field.

Shared datatypes (JSON documents, field values, Python exceptions) are in `types.dfy`.

The Python builtins the decoder relies on — `json.loads`, `float()` on text and on bytes,
`str()` on bytes — are not modelled internally: they are the fields of a `Primitives`
value passed in, so every property holds whatever those functions return. Each store's
behaviour is likewise a parameter (`behave`), and the InfluxDB client's `write_points` is
a parameter `write`.

Behaviour of `forwarder.py` that the model keeps:

- A store that raises stops the fan-out; later stores are not called
  (`MessageStores.Dispatch`). Only `InfluxStore` isolates itself, and only from connection
  errors (`MessageStores.InfluxConnectionFailuresDoNotStopDispatch`).
- The normalised prefix can still end in `/`: `"//"` becomes `"/"`, and normalising is not
  idempotent on prefixes ending in `//` (`Topic.NormalizePrefixIdempotentIff`).
- A stringified single value is `str()` of the raw payload, which on Python 3 is a byte
  string, so the value is its `b'...'` rendering; the model keeps `str()` abstract. This
  branch is taken only when the stringify setting lists the measurement; the setting
  `main` passes by default, `""`, never does (see "Left out").
- `float()` accepts JSON booleans (`true` becomes `1.0`), and a JSON `null`, array or
  object member raises TypeError, which escapes the handler before any store is called.
- With no store registered, reading `stores` raises AttributeError, so such a message
  ends in that exception.

## Model

| member | source | states |
|---|---|---|
| Topic.NormalizePrefix | forwarder.py:98-102 | empty stays empty; otherwise the result is empty or starts with `/`, and it is the input with a leading `/` ensured and exactly one trailing `/` removed when present |
| Topic.NormalizePrefixExamples | forwarder.py:98-102 | `"/"` becomes `""`, `"a/"` becomes `"/a"`, `"//"` becomes `"/"`, `"a"` and `"/a"` become `"/a"` |
| Topic.NormalizePrefixIdempotentIff | forwarder.py:98-102 | normalising twice equals normalising once exactly when the input does not end in `//` |
| Topic.SubscriptionFilters | forwarder.py:108-112 | one filter per configured node, same order, each `prefix + "/" + node + "/#"` |
| Topic.SubscriptionCoversParsedTopic | forwarder.py:108-126 | every topic the parser attributes to a configured node is matched (MQTT multi-level wildcard) by that node's filter |
| Topic.FilterMatchParsesToNode | forwarder.py:108-126 | a topic matched by a token node's filter either does not parse (the bare `<prefix>/<node>` never does) or parses to that node |
| Topic.TokenLength | forwarder.py:117-119 | the length of the maximal run of token characters at the start of the string |
| Topic.TokenLengthUnique | forwarder.py:117-119 | any token run ending at the end of the string or before a non-token character is that maximal run |
| Topic.ParseTopic | forwarder.py:117-125 | a topic not starting with `prefix + "/"` fails; a success yields two non-empty tokens |
| Topic.ParseTopicSound | forwarder.py:117-131 | a successful parse returns `(n, m)` such that the topic starts with `prefix/n/m`, both are tokens, and no token character follows `m` |
| Topic.ParseTopicComplete | forwarder.py:117-131 | every topic of that shape parses to exactly that `(n, m)`, so success and the shape are equivalent and the result is unique |
| Topic.ParseTopicRoundTrip | forwarder.py:117-131 | `prefix + "/" + n + "/" + m + rest` parses to `(n, m)` for tokens `n`, `m` and a `rest` that is empty or starts with a non-token character |
| Topic.ParseTopicRejectsEmptyTokens | forwarder.py:117-125 | an empty node token or an empty measurement token makes the parse fail |
| Topic.ParseTopicEmptyPrefixNeedsSlash | forwarder.py:117-125 | with the empty prefix a topic that does not start with `/` fails to parse |
| Payload.CoerceMember | forwarder.py:143-147 | `float()` of a JSON member: booleans give 1.0/0.0, numbers themselves, strings their parse or themselves unchanged; null, arrays and objects raise TypeError |
| Payload.CoerceObject | forwarder.py:142-147 | the object's key set is kept exactly and each value is coerced; TypeError exactly when some member is null, an array or an object |
| Payload.DecodePayload | forwarder.py:133-157 | object payloads: same keys, coerced values, TypeError as above; every other payload: exactly the key `"value"`, holding `str(raw)` for a stringified measurement, else `float(raw)` if it parses, else the raw bytes |
| Payload.DictDecodeIgnoresStringify | forwarder.py:142-150 | for an object payload the result does not depend on the measurement name or the stringify list |
| Payload.NonObjectJsonIsIgnored | forwarder.py:135-157 | a payload that parses as a JSON scalar or array decodes exactly as one that is not JSON |
| Payload.DecodeExamples | forwarder.py:133-157 | `{"a": "1.5", "b": "x"}` decodes to `{"a": 1.5, "b": "x"}` even for a stringified measurement; a scalar `23.4` decodes to the number 23.4, or to `str()` of the raw bytes when stringified |
| Payload.DecodedDictHoldsNoRawBytes | forwarder.py:142-147 | a decoded object never holds the raw-bytes value |
| MessageStores.Stores | forwarder.py:69-72 | AttributeError exactly when nothing was registered; otherwise the registered list |
| MessageStores.RegisterStore | forwarder.py:64-67 | the store list afterwards is the earlier one (empty if none) with the new store appended |
| MessageStores.RegisterAllAppends | forwarder.py:64-72 | registering several stores appends them in order, duplicates included |
| MessageStores.RegisterAllFromFresh | forwarder.py:64-72 | from a fresh source the store list is exactly the registered sequence; with none registered, reading it fails |
| MessageStores.Dispatch | forwarder.py:159-160 | calls go to the stores in registration order, all with the same arguments; the loop ends without an exception exactly when no store raises, and then every store was called; otherwise the calls stop right after the first store that raises, whose exception is returned |
| MessageStores.DispatchUnique | forwarder.py:159-160 | any record of calls and outcome that keeps registration order and the shared arguments, ends without an exception exactly when no store raises (and then has called every store), and otherwise stops right after the first raising store with its exception, is the fan-out's result: that description determines the loop's behaviour completely |
| MessageStores.DispatchLoop | forwarder.py:159-160 | the iterative loop makes the same calls and ends with the same exception as `Dispatch` |
| MessageStores.InfluxStoreMsg | forwarder.py:46-60 | a non-dict raises ValueError and writes nothing; a dict writes exactly one point `{measurement, tags: {sensor_node: node}, fields: data}`; a connection error is swallowed and any other write error escapes |
| MessageStores.InfluxConnectionFailuresDoNotStopDispatch | forwarder.py:57-60 | when all stores are InfluxDB stores whose writes succeed or fail by connection error, a dict message reaches every store |
| Forwarder.Configure | forwarder.py:87-102 | the node and stringify lists are kept; the prefix is the normalised one (`Topic.NormalizePrefix`): empty exactly for `""` and `"/"`, and otherwise starts with `/` |
| Forwarder.Subscriptions | forwarder.py:108-112 | one filter per configured node, in order, each `prefix + "/" + node + "/#"` under the configuration's prefix |
| Forwarder.HandleMessage | forwarder.py:114-160 | an unparsable topic gives one warning and no store call; a parsed topic logs exactly one warning, for its node, when that node is not configured, and none otherwise; every store call carries the parsed node, measurement and decoded dict in registration order; every store called before the last returned; once the stores are reached, either all are called and return, or the last one called raised and its exception leaves the handler |
| Forwarder.TypeErrorDispatchesNothing | forwarder.py:142-160 | a TypeError while coercing an object member escapes before any store is called |
| Forwarder.NoStoreRaisesAttributeError | forwarder.py:159-160 | with no store registered, a message that parses and decodes raises AttributeError and calls nothing |
| Forwarder.NodeListOnlyWarns | forwarder.py:126-131 | the configured node list does not change which stores are called or what is raised |
| Forwarder.ConformingMessageReachesEveryStore | forwarder.py:117-160 | a well-shaped topic with a decodable payload reaches every registered store in order with its own node and measurement when no store raises |
| Forwarder.ConfiguredMessageReachesEveryStore | forwarder.py:87-160 | under the configuration built from the given prefix, `<normalised prefix>/<node>/<measurement>` plus an admissible rest is matched by the node's subscription filter, warns exactly when the node is not configured, and reaches every registered store with that node and measurement when no store raises |
| Forwarder.HandlerNeverTriggersInfluxValueError | forwarder.py:46-48 | the handler only ever passes dicts, so `InfluxStore.store_msg` always gets to write |
| Forwarder.SubscribedTopicKeepsItsNode | forwarder.py:108-131 | a parsed message received through a token node's filter is attributed to that node and raises no unexpected-node warning |

## Left out

- MQTT client construction, credentials, `connect`, `loop_forever` and `start`
  (forwarder.py:93-95, 162-171): network I/O and a library event loop. What the client
  library does with an exception that leaves the handler is not modelled.
- InfluxDB client construction and password-file reads (forwarder.py:40-43, 83-84): file
  and network I/O.
- `main`, argument parsing and logging setup (forwarder.py:174-216), the debug/info log
  calls, and the error-level `self.logger.exception(e)` that records a swallowed connection
  error (forwarder.py:60): startup glue and log output without decisions. Warning-level
  logs are kept as `Warning` values.
- `json.loads`, `float()` and `str()` of bytes are parameters (`Payload.Primitives`), not
  models of Python's parsers; numbers are Dafny reals, so IEEE rounding, NaN and
  infinities are not represented.
- Payload.DecodePayload: `json.loads` is taken to either return or raise ValueError, the
  one exception the source catches (forwarder.py:136-140). Anything else it raises, such
  as RecursionError on a deeply nested payload, escapes the handler before any store is
  called; the model instead treats such a payload as not JSON.
- Payload.CoerceMember: treats `float()` of a JSON integer as always succeeding, while
  Python raises OverflowError for integers beyond the double range.
- Payload.CoerceObject: a map has no key order, so which member's TypeError is reported
  first, and the members already coerced in place before it, are not modelled.
- Payload.DecodePayload: the stringify setting is a list of measurement names tested by
  membership (forwarder.py:150). `main` passes argparse's value for
  `--stringify-values-for-measurements` (forwarder.py:193-194, 210), whose default is the
  string `""`; there `in` is a substring test, false for every non-empty measurement, so
  `""` behaves as the empty list and the command-line program never takes the stringify
  branch. The command line with the option given is not modelled.
- MessageStores.Dispatch: every store receives the same mutable `data` dict
  (forwarder.py:159-160), so a store that changed it would change what later stores
  receive; `behave` returns only an outcome and cannot express that. `InfluxStore` itself
  does not change the dict (forwarder.py:46-60); what the InfluxDB client library does
  with it is not part of this model.
- MessageStores.Dispatch: a store's outcome is a function of the store and the call, so a
  store registered twice ends both of its calls for one message the same way, whereas a
  real InfluxDB write can succeed once and fail the next time.
- Topic.IsWordChar: `\w` is taken over ASCII letters, digits and underscore; Python 3
  also counts other Unicode letters and digits.
- Topic.ParseTopic: assumes a prefix without regular-expression metacharacters and
  matches it literally. The source inserts the prefix into the pattern unescaped and
  compiles it for every message (forwarder.py:118-120), so a metacharacter can widen the
  match (`.` or `|`), narrow it (with prefix `/a+` the topic `/a+/n/m` does not match;
  with `/$SYS` nothing does), or make `re.compile` raise on every message (an unbalanced
  `(` or `[`).
- Topic.FilterMatches: only the trailing multi-level wildcard is interpreted; a node name
  holding `+` or `#` is compared literally.
- The `stores` property returns a copy (forwarder.py:72); with immutable Dafny sequences
  that holds by construction and needs no statement.
