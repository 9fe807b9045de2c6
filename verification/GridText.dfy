/** A grid's text is the canonical JSON of the grid's members (src/MQTTBridge/epggrid.py, bridge.py). */
module GridText {
  import opened Options
  import opened Decimal
  import opened Json
  import GridJson

  // ---------------------------------------------------------------- the values

  lemma {:induction false} DigitsAreWord(n: nat)
    ensures forall i :: 0 <= i < |Digits(n)| ==> !EndsWord(Digits(n)[i])
  {
    if n < 10 {
    } else {
      DigitsAreWord(n / 10);
    }
  }

  function Whole(n: int): Value {
    DigitsAreWord(if n < 0 then -n else n);
    Bare(Str(n))
  }

  function TextOrNull(text: Option<string>): Value {
    match text
    case None => Bare("null")
    case Some(value) => Quoted(value)
  }

  function EventValue(e: GridJson.Event): Value {
    Members(map["title" := Quoted(e.title), "begin" := Whole(e.begin), "end" := Whole(e.end),
                "event_id" := Whole(e.eventId)])
  }

  function EventItems(events: seq<GridJson.Event>): Value {
    Items(seq(|events|, i requires 0 <= i < |events| => EventValue(events[i])))
  }

  function ChannelValue(c: GridJson.Channel): Value {
    Members(map["sref" := Quoted(c.sref), "name" := TextOrNull(c.name),
                "events" := EventItems(c.events)])
  }

  function ChannelItems(channels: seq<GridJson.Channel>): Value {
    Items(seq(|channels|, i requires 0 <= i < |channels| => ChannelValue(channels[i])))
  }

  function GridValue(g: GridJson.Grid): Value {
    Members(map["bouquet" := TextOrNull(g.bouquet), "generated" := Whole(g.generated),
                "events_per_channel" := Whole(g.eventsPerChannel),
                "channels" := ChannelItems(g.channels)])
  }

  // ---------------------------------------------------------------- the order of the keys

  lemma {:induction false} BeforeOneWay(a: string, b: string)
    requires Before(a, b)
    ensures !Before(b, a)
  {
    if a != "" && a[0] == b[0] { BeforeOneWay(a[1..], b[1..]); }
  }

  ghost predicate Rises(order: seq<string>) {
    forall i, j :: 0 <= i < j < |order| ==> Before(order[i], order[j])
  }

  lemma {:induction false} OneFirst(keys: set<string>, a: string, b: string)
    requires IsFirst(keys, a) && IsFirst(keys, b)
    ensures a == b
  {
    if a != b { BeforeOneWay(a, b); }
  }

  function Places(order: seq<string>): set<string> {
    set key | key in order
  }

  lemma {:induction false} FirstOfRising(order: seq<string>)
    requires Rises(order) && order != []
    ensures IsFirst(Places(order), order[0]) && Rises(order[1..])
    ensures Places(order) - {order[0]} == Places(order[1..])
  {
    var rest := order[1..];
    forall key | key in rest ensures Before(order[0], key) && key != order[0] {
      var j :| 0 <= j < |rest| && rest[j] == key;
      assert Before(order[0], order[j + 1]);
      BeforeOneWay(order[0], key);
    }
    assert order == [order[0]] + rest;
  }

  /** Rising keys are the order of their set. */
  lemma {:induction false} InOrderIs(order: seq<string>)
    requires Rises(order)
    ensures InOrder(Places(order)) == order
  {
    if order == [] {
    } else {
      hide Before, Rises;
      FirstOfRising(order);
      InOrderSplits(Places(order));
      OneFirst(Places(order), order[0], InOrder(Places(order))[0]);
      InOrderIs(order[1..]);
      assert order == [order[0]] + order[1..];
    }
  }

  const EVENT_KEYS := ["begin", "end", "event_id", "title"]
  const CHANNEL_KEYS := ["events", "name", "sref"]
  const GRID_KEYS := ["bouquet", "channels", "events_per_channel", "generated"]

  lemma {:induction false} FourRise(a: string, b: string, c: string, d: string)
    requires Before(a, b) && Before(b, c) && Before(c, d)
    ensures Rises([a, b, c, d]) && Rises([a, b, c])
  {
    hide Before;
    BeforeChains(a, b, c);
    BeforeChains(a, c, d);
    BeforeChains(b, c, d);
  }

  lemma {:induction false} KeysRise()
    ensures Rises(EVENT_KEYS) && Rises(CHANNEL_KEYS) && Rises(GRID_KEYS)
  {
    hide Rises;
    assert "end"[1..] == "nd" && "event_id"[1..] == "vent_id";
    assert Before("nd", "vent_id");
    FourRise("begin", "end", "event_id", "title");
    FourRise("events", "name", "sref", "title");
    FourRise("bouquet", "channels", "events_per_channel", "generated");
  }

  lemma {:induction false} KeysInOrder(e: GridJson.Event, c: GridJson.Channel, g: GridJson.Grid)
    ensures InOrder(EventValue(e).members.Keys) == EVENT_KEYS
    ensures InOrder(ChannelValue(c).members.Keys) == CHANNEL_KEYS
    ensures InOrder(GridValue(g).members.Keys) == GRID_KEYS
  {
    KeysRise();
    hide Before, Rises, InOrder;
    InOrderIs(EVENT_KEYS);
    InOrderIs(CHANNEL_KEYS);
    InOrderIs(GRID_KEYS);
    assert EventValue(e).members.Keys == Places(EVENT_KEYS);
    assert ChannelValue(c).members.Keys == Places(CHANNEL_KEYS);
    assert GridValue(g).members.Keys == Places(GRID_KEYS);
  }

  // ---------------------------------------------------------------- the text

  predicate PlainChar(c: char) {
    'a' <= c <= 'z' || c == '_'
  }

  predicate IsPlain(text: string) {
    forall i :: 0 <= i < |text| ==> PlainChar(text[i])
  }

  lemma {:induction false} PlainCharIsItself(c: char)
    requires PlainChar(c)
    ensures EscapeChar(c) == [c]
  {
  }

  lemma {:induction false} PlainIsItself(text: string)
    requires IsPlain(text)
    ensures Escape(text) == text
  {
    if text == "" {
    } else {
      hide EscapeChar, PlainChar;
      PlainIsItself(text[..|text| - 1]);
      PlainCharIsItself(text[|text| - 1]);
      assert text == text[..|text| - 1] + [text[|text| - 1]];
    }
  }

  /** What stands in front of a member's value. */
  function Lead(first: bool, key: string): string {
    Comma(first) + ("\"" + key + "\"" + ":")
  }

  /** A member whose key needs no escape, and what comes after it. */
  lemma {:induction false} MemberText(v: Value, keys: seq<string>, first: bool)
    requires v.Members? && keys != [] && IsPlain(keys[0]) && forall key :: key in keys ==> key in v.members
    ensures EncodeMembers(v, keys, first) ==
            Lead(first, keys[0]) + (Encode(v.members[keys[0]]) + EncodeMembers(v, keys[1..], false))
  {
    PlainIsItself(keys[0]);
    hide Encode, Escape, IsPlain, Comma;
    var rest := Encode(v.members[keys[0]]) + EncodeMembers(v, keys[1..], false);
    var quoted := "\"" + keys[0] + "\"";
    Regroup(quoted, ":", rest);
    Regroup(Comma(first), quoted + ":", rest);
  }

  lemma {:induction false} ObjectText(v: Value, keys: seq<string>)
    requires v.Members? && InOrder(v.members.Keys) == keys
    ensures Encode(v) == "{" + EncodeMembers(v, keys, true)
  {
  }

  lemma {:induction false} LeafText(n: int, text: string, name: Option<string>)
    ensures Encode(Whole(n)) == Str(n)
    ensures Encode(Quoted(text)) == Quote(text)
    ensures Encode(TextOrNull(name)) == GridJson.QuoteOrNull(name)
  {
  }

  // ---------------------------------------------------------------- an event

  lemma {:induction false} EventText(e: GridJson.Event)
    ensures Encode(EventValue(e)) == GridJson.EventJson(e)
  {
    hide Encode, EncodeMembers, InOrder, Whole, Quote, Str;
    var v := EventValue(e);
    KeysInOrder(e, GridJson.Channel("", None, []), GridJson.Grid(None, 0, 0, []));
    ObjectText(v, EVENT_KEYS);
    LeafText(e.begin, e.title, None);
    LeafText(e.end, e.title, None);
    LeafText(e.eventId, e.title, None);
    EventMembers(v);
    EventParts(Str(e.begin), Str(e.end), Str(e.eventId), Quote(e.title));
  }

  lemma {:induction false} EventLeads()
    ensures "{" + Lead(true, "begin") == "{\"begin\":" && Lead(false, "end") == ",\"end\":"
    ensures Lead(false, "event_id") == ",\"event_id\":" && Lead(false, "title") == ",\"title\":"
    ensures IsPlain("begin") && IsPlain("end") && IsPlain("event_id") && IsPlain("title")
  {
  }

  lemma {:induction false} EventMembers(v: Value)
    requires v.Members? && v.members.Keys == Places(EVENT_KEYS)
    ensures "{" + EncodeMembers(v, EVENT_KEYS, true) == "{\"begin\":" + (Encode(v.members["begin"]) + (
              ",\"end\":" + (Encode(v.members["end"]) + (
              ",\"event_id\":" + (Encode(v.members["event_id"]) + (
              ",\"title\":" + (Encode(v.members["title"]) + "}")))))))
  {
    hide Encode, EncodeMembers, Lead, IsPlain;
    var keys := EVENT_KEYS;
    Tails(keys);
    EventLeads();
    MemberText(v, keys, true);
    MemberText(v, keys[1..], false);
    MemberText(v, keys[2..], false);
    MemberText(v, keys[3..], false);
    NoMembers(v);
    Regroup("{", Lead(true, "begin"), Encode(v.members["begin"]) + EncodeMembers(v, keys[1..], false));
  }

  lemma {:induction false} NoMembers(v: Value)
    requires v.Members?
    ensures EncodeMembers(v, [], false) == "}"
  {
  }

  lemma {:induction false} Tails(keys: seq<string>)
    requires |keys| >= 3
    ensures keys[1..][1..] == keys[2..] && keys[2..][1..] == keys[3..]
    ensures |keys| >= 4 ==> keys[3..][1..] == keys[4..]
    ensures keys[|keys|..] == []
  {
  }

  lemma {:induction false} EventParts(b: string, n: string, i: string, t: string)
    ensures "{\"begin\":" + (b + (",\"end\":" + (n + (",\"event_id\":" + (i + (",\"title\":" + (t + "}"))))))) ==
            ("{\"begin\":" + b) + (",\"end\":" + n) + (",\"event_id\":" + i) + (",\"title\":" + t + "}")
  {
    var m3 := ",\"title\":" + (t + "}");
    var m2 := ",\"event_id\":" + (i + m3);
    var m1 := ",\"end\":" + (n + m2);
    Regroup(",\"title\":", t, "}");
    Regroup(",\"event_id\":", i, m3);
    Regroup(",\"end\":", n, m2);
    Regroup("{\"begin\":", b, m1);
    var n1, n2, n3 := "{\"begin\":" + b, ",\"end\":" + n, ",\"event_id\":" + i;
    Regroup(n1, n2, n3 + m3);
    Regroup(n1 + n2, n3, m3);
  }

  // ---------------------------------------------------------------- a channel

  lemma {:induction false} ItemNext(v: Value, i: nat, so: string, text: string)
    requires v.Items? && i < |v.items| && Encode(v.items[i]) == text
    ensures so + EncodeItems(v, i) == so + Comma(i == 0) + text + EncodeItems(v, i + 1)
  {
    hide Encode, Comma;
    Regroup(so + Comma(i == 0), text, EncodeItems(v, i + 1));
    Regroup(so, Comma(i == 0), text + EncodeItems(v, i + 1));
  }

  lemma {:induction false} EventsNext(events: seq<GridJson.Event>, i: nat)
    requires i < |events|
    ensures GridJson.EventsJson(events[..i + 1]) ==
            GridJson.EventsJson(events[..i]) + Comma(i == 0) + GridJson.EventJson(events[i])
  {
    hide GridJson.EventJson;
    assert events[..i + 1][..i] == events[..i];
  }

  /** The events written out so far, and the rest of the list. */
  lemma {:induction false} EventsText(events: seq<GridJson.Event>, v: Value, i: nat)
    requires v == EventItems(events) && i <= |events|
    ensures GridJson.EventsJson(events[..i]) + EncodeItems(v, i) == GridJson.EventsJson(events) + "]"
    decreases |events| - i
  {
    if i == |events| {
      assert events[..i] == events;
    } else {
      hide GridJson.EventsJson, GridJson.EventJson, EventValue, EncodeItems;
      EventText(events[i]);
      EventsText(events, v, i + 1);
      EventsNext(events, i);
      ItemNext(v, i, GridJson.EventsJson(events[..i]), GridJson.EventJson(events[i]));
    }
  }

  lemma {:induction false} ChannelLeads()
    ensures "{" + Lead(true, "events") == "{\"events\":" && Lead(false, "name") == ",\"name\":"
    ensures Lead(false, "sref") == ",\"sref\":" && IsPlain("events") && IsPlain("name") && IsPlain("sref")
  {
  }

  lemma {:induction false} ChannelMembers(v: Value)
    requires v.Members? && v.members.Keys == Places(CHANNEL_KEYS)
    ensures "{" + EncodeMembers(v, CHANNEL_KEYS, true) == "{\"events\":" + (Encode(v.members["events"]) + (
              ",\"name\":" + (Encode(v.members["name"]) + (
              ",\"sref\":" + (Encode(v.members["sref"]) + "}")))))
  {
    hide Encode, EncodeMembers, Lead, IsPlain;
    var keys := CHANNEL_KEYS;
    Tails(keys);
    ChannelLeads();
    MemberText(v, keys, true);
    MemberText(v, keys[1..], false);
    MemberText(v, keys[2..], false);
    NoMembers(v);
    Regroup("{", Lead(true, "events"), Encode(v.members["events"]) + EncodeMembers(v, keys[1..], false));
  }

  lemma {:induction false} ChannelParts(e: string, n: string, r: string)
    ensures "{\"events\":" + (("[" + (e + "]")) + (",\"name\":" + (n + (",\"sref\":" + (r + "}"))))) ==
            "{\"events\":[" + e + ("],\"name\":" + n + (",\"sref\":" + r + "}"))
  {
    var m2 := ",\"sref\":" + (r + "}");
    var m1 := ",\"name\":" + (n + m2);
    Regroup("[", e + "]", m1);
    Regroup(e, "]", m1);
    Regroup("{\"events\":", "[", e + ("]" + m1));
    assert "{\"events\":" + "[" == "{\"events\":[";
    Regroup("{\"events\":[", e, "]" + m1);
    Regroup("]", ",\"name\":", n + m2);
    assert "]" + ",\"name\":" == "],\"name\":";
    Regroup("],\"name\":", n, m2);
    Regroup(",\"sref\":", r, "}");
  }

  lemma {:induction false} EventItemsText(events: seq<GridJson.Event>)
    ensures Encode(EventItems(events)) == "[" + (GridJson.EventsJson(events) + "]")
  {
    EventsText(events, EventItems(events), 0);
    assert GridJson.EventsJson(events[..0]) + EncodeItems(EventItems(events), 0) == EncodeItems(EventItems(events), 0);
  }

  lemma {:induction false} ChannelFields(c: GridJson.Channel)
    ensures ChannelValue(c).Members? && ChannelValue(c).members.Keys == Places(CHANNEL_KEYS)
    ensures var members := ChannelValue(c).members;
      && "events" in members && members["events"] == EventItems(c.events)
      && "name" in members && members["name"] == TextOrNull(c.name)
      && "sref" in members && members["sref"] == Quoted(c.sref)
  {
    hide EventItems, TextOrNull;
  }

  lemma {:induction false} ChannelText(c: GridJson.Channel)
    ensures Encode(ChannelValue(c)) == GridJson.ChannelJson(c)
  {
    hide Encode, EncodeMembers, EncodeItems, InOrder, EventItems, ChannelValue, TextOrNull, Quote, Places,
      GridJson.EventsJson, GridJson.QuoteOrNull;
    EventItemsText(c.events);
    LeafText(0, c.sref, c.name);
    KeysInOrder(GridJson.Event("", 0, 0, 0), c, GridJson.Grid(None, 0, 0, []));
    ChannelFields(c);
    ObjectText(ChannelValue(c), CHANNEL_KEYS);
    ChannelMembers(ChannelValue(c));
    ChannelParts(GridJson.EventsJson(c.events), GridJson.QuoteOrNull(c.name), Quote(c.sref));
  }

  // ---------------------------------------------------------------- the grid

  lemma {:induction false} ChannelsNext(channels: seq<GridJson.Channel>, i: nat)
    requires i < |channels|
    ensures GridJson.ChannelsJson(channels[..i + 1]) ==
            GridJson.ChannelsJson(channels[..i]) + Comma(i == 0) + GridJson.ChannelJson(channels[i])
  {
    hide GridJson.ChannelJson;
    assert channels[..i + 1][..i] == channels[..i];
  }

  lemma {:induction false} ChannelsText(channels: seq<GridJson.Channel>, v: Value, i: nat)
    requires v == ChannelItems(channels) && i <= |channels|
    ensures GridJson.ChannelsJson(channels[..i]) + EncodeItems(v, i) == GridJson.ChannelsJson(channels) + "]"
    decreases |channels| - i
  {
    if i == |channels| {
      assert channels[..i] == channels;
    } else {
      hide GridJson.ChannelsJson, GridJson.ChannelJson, ChannelValue, EncodeItems;
      ChannelText(channels[i]);
      ChannelsText(channels, v, i + 1);
      ChannelsNext(channels, i);
      ItemNext(v, i, GridJson.ChannelsJson(channels[..i]), GridJson.ChannelJson(channels[i]));
    }
  }

  lemma {:induction false} GridLeads()
    ensures "{" + Lead(true, "bouquet") == "{\"bouquet\":" && Lead(false, "channels") == ",\"channels\":"
    ensures Lead(false, "generated") == ",\"generated\":"
  {
  }

  lemma {:induction false} CountLead()
    ensures Lead(false, "events_per_channel") == ",\"events_per_channel\":"
  {
    var lead := Lead(false, "events_per_channel");
    var text := ",\"events_per_channel\":";
    assert |lead| == |text|;
    assert lead[..12] == text[..12];
    assert lead[12..] == text[12..];
    assert lead == lead[..12] + lead[12..] && text == text[..12] + text[12..];
  }

  lemma {:induction false} GridKeysArePlain()
    ensures IsPlain("bouquet") && IsPlain("channels") && IsPlain("events_per_channel") && IsPlain("generated")
  {
  }

  lemma {:induction false} Brackets()
    ensures ",\"channels\":" + "[" == ",\"channels\":["
    ensures "]" + ",\"events_per_channel\":" == "],\"events_per_channel\":"
  {
  }

  lemma {:induction false} GridMembers(v: Value)
    requires v.Members? && v.members.Keys == Places(GRID_KEYS)
    ensures "{" + EncodeMembers(v, GRID_KEYS, true) == "{\"bouquet\":" + (Encode(v.members["bouquet"]) + (
              ",\"channels\":" + (Encode(v.members["channels"]) + (
              ",\"events_per_channel\":" + (Encode(v.members["events_per_channel"]) + (
              ",\"generated\":" + (Encode(v.members["generated"]) + "}")))))))
  {
    hide Encode, EncodeMembers, Lead, IsPlain;
    var keys := GRID_KEYS;
    Tails(keys);
    GridLeads();
    CountLead();
    GridKeysArePlain();
    MemberText(v, keys, true);
    MemberText(v, keys[1..], false);
    MemberText(v, keys[2..], false);
    MemberText(v, keys[3..], false);
    NoMembers(v);
    Regroup("{", Lead(true, "bouquet"), Encode(v.members["bouquet"]) + EncodeMembers(v, keys[1..], false));
  }

  lemma {:induction false} GridParts(lead: string, list: string, count: string, stamp: string, b: string, c: string,
      p: string, g: string)
    ensures lead + (b + (list + (("[" + (c + "]")) + (count + (p + (stamp + (g + "}"))))))) ==
            lead + b + (list + "[") + c + ((("]" + count) + p) + (stamp + g) + "}")
  {
    var m3 := stamp + (g + "}");
    var m2 := count + (p + m3);
    Regroup("[", c + "]", m2);
    Regroup(c, "]", m2);
    Regroup(list, "[", c + ("]" + m2));
    Regroup(lead, b, (list + "[") + (c + ("]" + m2)));
    Regroup(lead + b, list + "[", c + ("]" + m2));
    Regroup(lead + b + (list + "["), c, "]" + m2);
    Regroup("]", count, p + m3);
    Regroup("]" + count, p, m3);
    Regroup(stamp, g, "}");
    Regroup("]" + count + p, stamp + g, "}");
  }

  lemma {:induction false} ChannelItemsText(channels: seq<GridJson.Channel>)
    ensures Encode(ChannelItems(channels)) == "[" + (GridJson.ChannelsJson(channels) + "]")
  {
    var v := ChannelItems(channels);
    ChannelsText(channels, v, 0);
    assert GridJson.ChannelsJson(channels[..0]) + EncodeItems(v, 0) == EncodeItems(v, 0);
  }

  lemma {:induction false} GridFields(g: GridJson.Grid)
    ensures GridValue(g).Members? && GridValue(g).members.Keys == Places(GRID_KEYS)
    ensures var members := GridValue(g).members;
      && "bouquet" in members && members["bouquet"] == TextOrNull(g.bouquet)
      && "channels" in members && members["channels"] == ChannelItems(g.channels)
      && "events_per_channel" in members && members["events_per_channel"] == Whole(g.eventsPerChannel)
      && "generated" in members && members["generated"] == Whole(g.generated)
  {
    hide ChannelItems, TextOrNull, Whole;
  }

  /** The text measured for a grid is the canonical JSON of its members. */
  lemma {:induction false} GridIsCanonical(g: GridJson.Grid)
    ensures Encode(GridValue(g)) == GridJson.Encode(g)
  {
    hide Encode, EncodeMembers, EncodeItems, InOrder, ChannelItems, GridValue, TextOrNull, Whole, Str, Places,
      GridJson.ChannelsJson, GridJson.QuoteOrNull;
    ChannelItemsText(g.channels);
    LeafText(g.generated, "", g.bouquet);
    LeafText(g.eventsPerChannel, "", g.bouquet);
    KeysInOrder(GridJson.Event("", 0, 0, 0), GridJson.Channel("", None, []), g);
    GridFields(g);
    ObjectText(GridValue(g), GRID_KEYS);
    GridMembers(GridValue(g));
    Brackets();
    GridParts("{\"bouquet\":", ",\"channels\":", ",\"events_per_channel\":", ",\"generated\":",
              GridJson.QuoteOrNull(g.bouquet), GridJson.ChannelsJson(g.channels), Str(g.eventsPerChannel),
              Str(g.generated));
  }
}
