/** Topic handling of the MQTT source: normalising the configured prefix, building the
    per-node subscription filters and extracting (node, measurement) from a topic name
    with the pattern `<prefix>/(token)/(token)/?`, anchored at the start of the topic. */
module Topic {
  import opened Types

  /** `\w` of Python's `re` module, over ASCII: letters, digits and underscore. */
  predicate IsWordChar(c: char) {
    ('a' <= c <= 'z') || ('A' <= c <= 'Z') || ('0' <= c <= '9') || c == '_'
  }

  /** One character of the token pattern `(?:\w|-|\.)+`. */
  predicate IsTokenChar(c: char) {
    IsWordChar(c) || c == '-' || c == '.'
  }

  /** A string the token pattern matches completely. */
  predicate IsToken(s: string) {
    |s| > 0 && forall i :: 0 <= i < |s| ==> IsTokenChar(s[i])
  }

  predicate StartsWith(s: string, head: string) {
    |head| <= |s| && s[..|head|] == head
  }

  predicate EndsWithSlash(s: string) {
    |s| > 0 && s[|s| - 1] == '/'
  }

  // ---------------------------------------------------------------------------
  // Prefix normalisation

  /** The prefix with a `/` put in front when it lacks one. */
  function WithLeadingSlash(p: string): (q: string)
    ensures StartsWith(q, "/")
  {
    if StartsWith(p, "/") then p else "/" + p
  }

  /** The prefix as the source keeps it: a non-empty prefix gains a leading `/` if it has
      none, then loses ONE trailing `/` if it has one; the empty prefix stays empty. */
  function NormalizePrefix(p: string): (r: string)
    ensures p == "" ==> r == ""
    ensures r == "" || r[0] == '/'
    ensures p != "" && EndsWithSlash(p) ==> r + "/" == WithLeadingSlash(p)
    ensures p != "" && !EndsWithSlash(p) ==> r == WithLeadingSlash(p)
  {
    if p == "" then ""
    else
      var q := WithLeadingSlash(p);
      if EndsWithSlash(q) then q[..|q| - 1] else q
  }

  /** The boundary cases: exactly one trailing slash goes. */
  lemma NormalizePrefixExamples()
    ensures NormalizePrefix("") == ""
    ensures NormalizePrefix("/") == ""
    ensures NormalizePrefix("a/") == "/a"
    ensures NormalizePrefix("//") == "/"
    ensures NormalizePrefix("a") == "/a"
    ensures NormalizePrefix("/a") == "/a"
  {
    assert !StartsWith("a/", "/") by { assert "a/"[..1][0] == 'a'; }
    assert !StartsWith("a", "/") by { assert "a"[..1][0] == 'a'; }
    assert "/" + "a/" == "/a/" && "/" + "a" == "/a";
    assert WithLeadingSlash("/") == "/";
    assert WithLeadingSlash("a/") == "/a/";
    assert WithLeadingSlash("//") == "//";
    assert WithLeadingSlash("a") == "/a";
    assert WithLeadingSlash("/a") == "/a";
  }

  /** Normalising again changes nothing exactly when the input does not end with `//`;
      in particular "//" becomes "/" and then "". */
  lemma NormalizePrefixIdempotentIff(p: string)
    ensures NormalizePrefix(NormalizePrefix(p)) == NormalizePrefix(p)
        <==> !(|p| >= 2 && p[|p| - 2] == '/' && p[|p| - 1] == '/')
  {
    var r := NormalizePrefix(p);
    if p == "" {
    } else {
      var q := WithLeadingSlash(p);
      assert |q| >= 1 && q[|q| - 1] == p[|p| - 1];
      if |p| >= 2 {
        assert q[|q| - 2] == p[|p| - 2];
      } else {
        assert p[0] == '/' ==> q == "/";
      }
      if EndsWithSlash(q) {
        assert r == q[..|q| - 1];
        if |q| >= 2 {
          assert r[|r| - 1] == q[|q| - 2];
        }
      }
    }
  }

  // ---------------------------------------------------------------------------
  // Subscription filters

  /** One MQTT filter `<prefix>/<node>/#` per configured node, in configuration order. */
  function SubscriptionFilters(prefix: string, nodes: seq<string>): (r: seq<string>)
    ensures |r| == |nodes|
    ensures forall i :: 0 <= i < |nodes| ==> r[i] == prefix + "/" + nodes[i] + "/#"
  {
    if nodes == [] then []
    else [prefix + "/" + nodes[0] + "/#"] + SubscriptionFilters(prefix, nodes[1..])
  }

  /** Whether an MQTT topic filter ending in the multi-level wildcard matches a topic name:
      by section 4.7.1.2 of MQTT 3.1.1, `base/#` matches `base` itself and every topic
      below `base/`. Other filters match only the identical topic. */
  predicate FilterMatches(filter: string, topic: string) {
    if |filter| >= 2 && filter[|filter| - 2..] == "/#" then
      var base := filter[..|filter| - 2];
      topic == base || StartsWith(topic, base + "/")
    else
      topic == filter
  }

  // ---------------------------------------------------------------------------
  // Topic parsing

  /** The topic's node and measurement names. */
  datatype TopicId = TopicId(node: string, measurement: string)

  /** The topic does not have the expected shape. */
  datatype ParseError = NoMatch

  /** Length of the longest run of token characters at the start of `s`. */
  function TokenLength(s: string): (n: nat)
    ensures n <= |s|
    ensures forall i :: 0 <= i < n ==> IsTokenChar(s[i])
    ensures n < |s| ==> !IsTokenChar(s[n])
  {
    if |s| == 0 || !IsTokenChar(s[0]) then 0 else 1 + TokenLength(s[1..])
  }

  /** The longest token run is unique: any run of token characters that ends at the end
      of `s` or before a non-token character is the one `TokenLength` measures. */
  lemma TokenLengthUnique(s: string, k: nat)
    requires k <= |s|
    requires forall i :: 0 <= i < k ==> IsTokenChar(s[i])
    requires k == |s| || !IsTokenChar(s[k])
    ensures TokenLength(s) == k
  {
  }

  /** A string starts with a concatenation exactly when it starts with the first part
      and the rest starts with the second. */
  lemma StartsWithConcat(s: string, a: string, b: string)
    ensures StartsWith(s, a + b) <==> StartsWith(s, a) && StartsWith(s[|a|..], b)
  {
    if |a| + |b| <= |s| {
      assert s[..|a| + |b|] == s[..|a|] + s[|a|..][..|b|];
      if s[..|a| + |b|] == a + b {
        assert s[..|a|] == (a + b)[..|a|] == a;
        assert s[|a|..][..|b|] == (a + b)[|a|..] == b;
      }
    }
  }

  /** A token at the start of `s` makes its characters token characters of `s`. */
  lemma StartsWithToken(s: string, token: string)
    requires StartsWith(s, token) && IsToken(token)
    ensures forall i :: 0 <= i < |token| ==> IsTokenChar(s[i])
  {
    forall i | 0 <= i < |token|
      ensures IsTokenChar(s[i])
    {
      assert s[i] == s[..|token|][i];
    }
  }

  /** Two maximal token runs at the start of the same string are the same string. */
  lemma MaximalTokensAgree(s: string, a: string, b: string)
    requires IsToken(a) && StartsWith(s, a) && (|s| == |a| || !IsTokenChar(s[|a|]))
    requires IsToken(b) && StartsWith(s, b) && (|s| == |b| || !IsTokenChar(s[|b|]))
    ensures a == b
  {
    StartsWithToken(s, a);
    StartsWithToken(s, b);
    TokenLengthUnique(s, |a|);
    TokenLengthUnique(s, |b|);
  }

  /** What a successful match of `(token)/(token)` at the start of `s` means: `s` begins
      with `<node>/<measurement>`, both names are tokens, and the measurement token is not
      followed by a further token character. */
  ghost predicate TailConforms(s: string, id: TopicId) {
    var head := id.node + "/" + id.measurement;
    && IsToken(id.node)
    && IsToken(id.measurement)
    && StartsWith(s, head)
    && (|s| == |head| || !IsTokenChar(s[|head|]))
  }

  /** The same, for a whole topic under `prefix`. */
  ghost predicate Conforms(prefix: string, topic: string, id: TopicId) {
    StartsWith(topic, prefix + "/") && TailConforms(topic[|prefix| + 1..], id)
  }

  /** The part of the pattern after `<prefix>/`: a maximal token run, a `/`, and a second
      maximal token run. */
  function ParseTail(s: string): (r: Result<TopicId, ParseError>)
    ensures r.Success? ==> IsToken(r.value.node) && IsToken(r.value.measurement)
  {
    var n := TokenLength(s);
    if n == 0 || n == |s| || s[n] != '/' then Failure(NoMatch)
    else
      var t := s[n + 1..];
      var m := TokenLength(t);
      if m == 0 then Failure(NoMatch)
      else Success(TopicId(s[..n], t[..m]))
  }

  /** The regular-expression match of the source, written out. The greedy token groups
      can only match maximal runs (the node run must be followed by `/`, the measurement
      run by anything), so scanning maximal runs finds the same match. */
  function ParseTopic(prefix: string, topic: string): (r: Result<TopicId, ParseError>)
    ensures !StartsWith(topic, prefix + "/") ==> r == Failure(NoMatch)
    ensures r.Success? ==> IsToken(r.value.node) && IsToken(r.value.measurement)
  {
    if StartsWith(topic, prefix + "/") then ParseTail(topic[|prefix| + 1..])
    else Failure(NoMatch)
  }

  lemma ParseTailSound(s: string)
    requires ParseTail(s).Success?
    ensures TailConforms(s, ParseTail(s).value)
  {
    var n := TokenLength(s);
    var t := s[n + 1..];
    var m := TokenLength(t);
    var node, measurement := s[..n], t[..m];
    assert ParseTail(s).value == TopicId(node, measurement);
    assert s[n..][..1] == "/";
    StartsWithConcat(s, node, "/");
    StartsWithConcat(s, node + "/", measurement);
    var head := node + "/" + measurement;
    if |s| != |head| {
      assert s[|head|] == t[m];
    }
  }

  /** Every identity the parser returns is one the topic conforms to. */
  lemma ParseTopicSound(prefix: string, topic: string)
    requires ParseTopic(prefix, topic).Success?
    ensures Conforms(prefix, topic, ParseTopic(prefix, topic).value)
  {
    ParseTailSound(topic[|prefix| + 1..]);
  }

  lemma ParseTailComplete(s: string, id: TopicId)
    requires TailConforms(s, id)
    ensures ParseTail(s) == Success(id)
  {
    var node, measurement := id.node, id.measurement;
    StartsWithConcat(s, node + "/", measurement);
    StartsWithConcat(s, node, "/");
    assert s[|node|] == s[|node|..][..1][0] == '/';
    StartsWithToken(s, node);
    TokenLengthUnique(s, |node|);
    var t := s[|node| + 1..];
    StartsWithToken(t, measurement);
    var head := node + "/" + measurement;
    if |t| != |measurement| {
      assert t[|measurement|] == s[|head|];
    }
    TokenLengthUnique(t, |measurement|);
  }

  /** Parsing is complete for conforming topics: it returns the identity they conform to,
      so `Conforms` characterises success in both directions and the identity is unique. */
  lemma ParseTopicComplete(prefix: string, topic: string, id: TopicId)
    requires Conforms(prefix, topic, id)
    ensures ParseTopic(prefix, topic) == Success(id)
  {
    ParseTailComplete(topic[|prefix| + 1..], id);
  }

  /** Round trip: a topic built from two tokens and a tail that does not continue the
      measurement token parses back to exactly those tokens. */
  lemma ParseTopicRoundTrip(prefix: string, node: string, measurement: string, rest: string)
    requires IsToken(node) && IsToken(measurement)
    requires rest == "" || !IsTokenChar(rest[0])
    ensures ParseTopic(prefix, prefix + "/" + node + "/" + measurement + rest)
         == Success(TopicId(node, measurement))
  {
    var head := node + "/" + measurement;
    var s := head + rest;
    var topic := (prefix + "/") + s;
    assert prefix + "/" + node + "/" + measurement + rest == topic;
    StartsWithConcat(topic, prefix + "/", s);
    assert topic[|prefix| + 1..] == s;
    StartsWithConcat(s, head, rest);
    if rest != "" {
      assert s[|head|] == rest[0];
    }
    ParseTopicComplete(prefix, topic, TopicId(node, measurement));
  }

  /** Rejection: an empty node token (nothing, or a non-token character, right after
      `<prefix>/`) or an empty measurement token makes the parse fail. */
  lemma ParseTopicRejectsEmptyTokens(prefix: string, topic: string)
    requires StartsWith(topic, prefix + "/")
    requires var s := topic[|prefix| + 1..];
             var n := TokenLength(s);
             n == 0 || (n < |s| && s[n] == '/' && TokenLength(s[n + 1..]) == 0)
    ensures ParseTopic(prefix, topic) == Failure(NoMatch)
  {
  }

  /** With the empty prefix, only topics that start with `/` can parse. */
  lemma ParseTopicEmptyPrefixNeedsSlash(topic: string)
    requires topic == "" || topic[0] != '/'
    ensures ParseTopic("", topic) == Failure(NoMatch)
  {
    assert !StartsWith(topic, "" + "/");
  }

  // ---------------------------------------------------------------------------
  // Filters versus parsing

  /** Every topic the parser attributes to configured node `nodes[i]` is delivered by
      that node's subscription filter. */
  lemma SubscriptionCoversParsedTopic(prefix: string, nodes: seq<string>, topic: string, i: nat)
    requires i < |nodes|
    requires ParseTopic(prefix, topic).Success?
    requires ParseTopic(prefix, topic).value.node == nodes[i]
    ensures FilterMatches(SubscriptionFilters(prefix, nodes)[i], topic)
  {
    var id := ParseTopic(prefix, topic).value;
    ParseTopicSound(prefix, topic);
    var filter := SubscriptionFilters(prefix, nodes)[i];
    var base := prefix + "/" + nodes[i];
    assert filter == base + "/#";
    assert filter[|filter| - 2..] == "/#";
    assert filter[..|filter| - 2] == base;
    var s := topic[|prefix| + 1..];
    StartsWithConcat(s, id.node + "/", id.measurement);
    StartsWithConcat(topic, prefix + "/", id.node + "/");
    assert base + "/" == (prefix + "/") + (id.node + "/");
  }

  /** Conversely, a topic delivered by the filter of a node whose name is a token parses,
      if at all, to that node. */
  lemma FilterMatchParsesToNode(prefix: string, nodes: seq<string>, topic: string, i: nat)
    requires i < |nodes| && IsToken(nodes[i])
    requires FilterMatches(SubscriptionFilters(prefix, nodes)[i], topic)
    ensures ParseTopic(prefix, topic).Success? ==> ParseTopic(prefix, topic).value.node == nodes[i]
  {
    var node := nodes[i];
    var filter := SubscriptionFilters(prefix, nodes)[i];
    var base := (prefix + "/") + node;
    assert filter == base + "/#";
    assert filter[..|filter| - 2] == base;
    var s := topic[|prefix| + 1..];
    if topic == base {
      // The bare filter base `<prefix>/<node>` has no measurement and never parses.
      StartsWithConcat(topic, prefix + "/", node);
      assert s == node;
      StartsWithToken(s, node);
      TokenLengthUnique(s, |s|);
    } else if ParseTopic(prefix, topic).Success? {
      var id := ParseTopic(prefix, topic).value;
      ParseTopicSound(prefix, topic);
      // The parsed node is a maximal token run of `s` followed by `/`.
      StartsWithConcat(s, id.node + "/", id.measurement);
      StartsWithConcat(s, id.node, "/");
      assert s[|id.node|] == s[|id.node|..][..1][0] == '/';
      // So is the filter's node.
      assert base + "/" == (prefix + "/") + (node + "/");
      StartsWithConcat(topic, prefix + "/", node + "/");
      StartsWithConcat(s, node, "/");
      assert s[|node|] == s[|node|..][..1][0] == '/';
      MaximalTokensAgree(s, id.node, node);
    }
  }
}
