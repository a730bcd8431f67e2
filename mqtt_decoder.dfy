/** Decoding of the MQTT control messages the scoreboard listens to
    (MqttManager.kt): the topic prefix is normalised to end in '/', the
    client subscribes to everything under `<prefix>control/`, and each
    arriving message becomes at most one event for the screen. */
module MqttDecoder {
  import opened Optional

  /** The events of lines 118-126. */
  datatype MqttEvent =
    | PointLeft
    | PointRight
    | RemovePoint
    | SetP1Name(name: string)
    | SetP2Name(name: string)
    | SetChangeSides(enabled: bool)
    | SetChangeSidesAnim(enabled: bool)

  predicate EndsWithSlash(s: string) {
    |s| > 0 && s[|s| - 1] == '/'
  }

  /** Lines 34, 72 and 94: the prefix with a '/' appended unless it already
      ends with one. */
  function CleanPrefix(prefix: string): (clean: string)
    ensures EndsWithSlash(clean)
    ensures prefix <= clean && |clean| <= |prefix| + 1
    ensures EndsWithSlash(prefix) ==> clean == prefix
  {
    if EndsWithSlash(prefix) then prefix else prefix + "/"
  }

  /** Normalising twice is normalising once. */
  lemma CleanPrefixIdempotent(prefix: string)
    ensures CleanPrefix(CleanPrefix(prefix)) == CleanPrefix(prefix)
  {
  }

  /** An MQTT filter of the form `<levels>/#`: it takes every topic that
      starts with the text before the '#'. */
  predicate Covers(filter: string, topic: string) {
    |filter| > 0 && filter[|filter| - 1] == '#' && filter[..|filter| - 1] <= topic
  }

  /** Line 73: the one subscription the client makes. */
  function SubscriptionFilter(prefix: string): (filter: string)
    ensures prefix <= filter
    ensures |filter| > 0 && filter[|filter| - 1] == '#'
  {
    CleanPrefix(prefix) + "control/#"
  }

  /** Every control topic under the prefix is delivered, and nothing
      outside `<prefix>control/` is. */
  lemma SubscriptionCovers(prefix: string, topic: string)
    ensures Covers(SubscriptionFilter(prefix), topic) <==> CleanPrefix(prefix) + "control/" <= topic
  {
    var filter := SubscriptionFilter(prefix);
    assert filter[..|filter| - 1] == CleanPrefix(prefix) + "control/";
  }

  /** Kotlin's `removePrefix`: the text after `p` when `s` starts with it,
      otherwise `s` unchanged. */
  function RemovePrefix(s: string, p: string): (r: string)
    ensures p <= s ==> s == p + r
    ensures !(p <= s) ==> r == s
  {
    if p <= s then s[|p|..] else s
  }

  function AsciiLower(c: char): char {
    if 'A' <= c <= 'Z' then (c - 'A' + 'a') as char else c
  }

  /** Kotlin's `lowercase()` on ASCII letters. */
  function Lowercase(s: string): (r: string)
    ensures |r| == |s|
    ensures forall i :: 0 <= i < |s| ==> r[i] == AsciiLower(s[i])
  {
    if s == [] then [] else [AsciiLower(s[0])] + Lowercase(s[1..])
  }

  /** Lines 103-104: the payload of the two side-change switches. */
  function ParseFlag(payload: string): bool {
    Lowercase(payload) == "on" || payload == "true" || payload == "1"
  }

  /** The payloads that switch a flag on, written out: "on" in any letter
      case, "true" and "1" exactly; every other payload switches it off. */
  lemma FlagTruth(payload: string)
    ensures ParseFlag(payload) <==> payload in {"on", "On", "oN", "ON", "true", "1"}
  {
    if Lowercase(payload) == "on" {
      assert |payload| == 2;
      assert AsciiLower(payload[0]) == 'o' && AsciiLower(payload[1]) == 'n';
      assert payload == [payload[0], payload[1]];
    }
    if payload in {"on", "On", "oN", "ON"} {
      assert Lowercase(payload) == [AsciiLower(payload[0]), AsciiLower(payload[1])];
    }
  }

  /** The sub-topics the decoder knows. */
  const KnownSubTopics: set<string> :=
    {"point_left", "point_right", "remove_point", "p1_name", "p2_name", "change_sides", "change_sides_anim"}

  /** Lines 97-106: the event for a sub-topic, or none for an unknown one. */
  function EventFor(subTopic: string, payload: string): (event: Option<MqttEvent>)
    ensures event.None? <==> subTopic !in KnownSubTopics
    ensures event.Some? ==> SubTopicOf(event.value) == subTopic
    ensures event.Some? && (event.value.SetP1Name? || event.value.SetP2Name?) ==> event.value.name == payload
    ensures event.Some? && (event.value.SetChangeSides? || event.value.SetChangeSidesAnim?) ==>
              event.value.enabled == ParseFlag(payload)
  {
    match subTopic
    case "point_left" => Some(PointLeft)
    case "point_right" => Some(PointRight)
    case "remove_point" => Some(RemovePoint)
    case "p1_name" => Some(SetP1Name(payload))
    case "p2_name" => Some(SetP2Name(payload))
    case "change_sides" => Some(SetChangeSides(ParseFlag(payload)))
    case "change_sides_anim" => Some(SetChangeSidesAnim(ParseFlag(payload)))
    case _ => None
  }

  /** Lines 93-107: the event a message on `topic` produces, if any. The
      normalised prefix and then "control/" are stripped, each only when
      present. */
  function HandleMessage(topic: string, payload: string, prefix: string): Option<MqttEvent> {
    EventFor(RemovePrefix(RemovePrefix(topic, CleanPrefix(prefix)), "control/"), payload)
  }

  /** A reference encoding of each event as the sub-topic and payload a
      controller sends for it. */
  function SubTopicOf(e: MqttEvent): string {
    match e
    case PointLeft => "point_left"
    case PointRight => "point_right"
    case RemovePoint => "remove_point"
    case SetP1Name(_) => "p1_name"
    case SetP2Name(_) => "p2_name"
    case SetChangeSides(_) => "change_sides"
    case SetChangeSidesAnim(_) => "change_sides_anim"
  }

  function PayloadOf(e: MqttEvent): string {
    match e
    case SetP1Name(name) => name
    case SetP2Name(name) => name
    case SetChangeSides(enabled) => if enabled then "on" else "off"
    case SetChangeSidesAnim(enabled) => if enabled then "on" else "off"
    case _ => ""
  }

  /** Every event is produced by its sub-topic and payload: the decoder
      loses nothing, names pass through unchanged. */
  lemma EventForEncoding(e: MqttEvent)
    ensures EventFor(SubTopicOf(e), PayloadOf(e)) == Some(e)
  {
    match e
    case SetChangeSides(enabled) =>
      FlagTruth(PayloadOf(e));
    case SetChangeSidesAnim(enabled) =>
      FlagTruth(PayloadOf(e));
    case _ =>
  }

  /** A message on `<clean prefix>control/<sub>` is decoded from `<sub>`. */
  lemma DecodeUnderPrefix(prefix: string, sub: string, payload: string)
    ensures HandleMessage(CleanPrefix(prefix) + "control/" + sub, payload, prefix) == EventFor(sub, payload)
  {
    var clean := CleanPrefix(prefix);
    var topic := clean + "control/" + sub;
    assert clean <= topic;
    assert topic[|clean|..] == "control/" + sub;
    assert RemovePrefix("control/" + sub, "control/") == sub;
  }

  /** The command round trip through the broker: the event sent on its
      topic under the prefix is the event decoded. */
  lemma HandleMessageRoundTrip(prefix: string, e: MqttEvent)
    ensures HandleMessage(CleanPrefix(prefix) + "control/" + SubTopicOf(e), PayloadOf(e), prefix) == Some(e)
  {
    DecodeUnderPrefix(prefix, SubTopicOf(e), PayloadOf(e));
    EventForEncoding(e);
  }

  /** Both prefixes are optional: a bare sub-topic is decoded as such. */
  lemma DecodeBare(prefix: string, sub: string, payload: string)
    requires '/' !in sub
    ensures HandleMessage(sub, payload, prefix) == EventFor(sub, payload)
  {
  }

  /** As is `control/<sub>` without the prefix. */
  lemma DecodeControlOnly(prefix: string, sub: string, payload: string)
    requires '/' !in sub
    ensures HandleMessage("control/" + sub, payload, prefix) == EventFor(sub, payload)
  {
    var topic := "control/" + sub;
    var clean := CleanPrefix(prefix);
    forall k | 8 <= k < |topic|
      ensures topic[k] != '/'
    {
      assert topic[k] == sub[k - 8];
    }
    assert clean <= topic ==> clean == topic[..8];
    assert topic[8..] == sub;
    assert "control/" <= sub ==> sub[7] == '/';
  }
}
