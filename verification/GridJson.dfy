/** A grid and its canonical JSON: keys in order, no spaces, characters as they are (src/MQTTBridge/epggrid.py). */
module GridJson {
  import opened Options
  import opened Decimal
  import opened Json
  import opened Packet

  datatype Event = Event(title: string, begin: int, end: int, eventId: int)

  datatype Channel = Channel(sref: string, name: Option<string>, events: seq<Event>)

  datatype Grid = Grid(bouquet: Option<string>, generated: int, eventsPerChannel: int, channels: seq<Channel>)

  // ---------------------------------------------------------------- the text

  function QuoteOrNull(text: Option<string>): string {
    match text
    case None => "null"
    case Some(value) => Quote(value)
  }

  function NumberField(key: string, n: int): string {
    key + Str(n)
  }

  function EventNumbers(e: Event): string {
    NumberField("{\"begin\":", e.begin) + NumberField(",\"end\":", e.end) + NumberField(",\"event_id\":", e.eventId)
  }

  function EventTitle(title: string): string {
    ",\"title\":" + Quote(title) + "}"
  }

  function EventJson(e: Event): string {
    EventNumbers(e) + EventTitle(e.title)
  }

  function EventsJson(events: seq<Event>): string {
    if events == [] then ""
    else
      var n := |events| - 1;
      EventsJson(events[..n]) + (if n == 0 then "" else ",") + EventJson(events[n])
  }

  function ChannelTail(c: Channel): string {
    "],\"name\":" + QuoteOrNull(c.name) + (",\"sref\":" + Quote(c.sref) + "}")
  }

  function ChannelJson(c: Channel): string {
    "{\"events\":[" + EventsJson(c.events) + ChannelTail(c)
  }

  function ChannelsJson(channels: seq<Channel>): string {
    if channels == [] then ""
    else
      var n := |channels| - 1;
      ChannelsJson(channels[..n]) + (if n == 0 then "" else ",") + ChannelJson(channels[n])
  }

  function Encode(g: Grid): string {
    ("{\"bouquet\":" + QuoteOrNull(g.bouquet) + ",\"channels\":[") + ChannelsJson(g.channels)
    + (NumberField("],\"events_per_channel\":", g.eventsPerChannel) + NumberField(",\"generated\":", g.generated) + "}")
  }

  // ---------------------------------------------------------------- cutting

  function First(events: seq<Event>, count: nat): seq<Event> {
    if count < |events| then events[..count] else events
  }

  function CutChannel(c: Channel, count: nat): Channel {
    c.(events := First(c.events, count))
  }

  function CutChannels(channels: seq<Channel>, count: nat): (r: seq<Channel>)
    ensures |r| == |channels|
  {
    if channels == [] then []
    else
      var n := |channels| - 1;
      CutChannels(channels[..n], count) + [CutChannel(channels[n], count)]
  }

  /** `_cut`: a finished grid with at most `count` events on each channel - the earliest. */
  function Cut(g: Grid, count: nat): Grid {
    g.(eventsPerChannel := count, channels := CutChannels(g.channels, count))
  }

  /** What an event takes besides its title and the digits of its numbers, with the comma in front of it. */
  const EVENT_LEAST := 41

  lemma {:induction false} EventLeastIsFixedText()
    ensures EVENT_LEAST == |",{\"begin\":,\"end\":,\"event_id\":,\"title\":\"\"}"|
  {
  }

  function EventAdds(e: Event): nat {
    EVENT_LEAST + |e.title| + StrLength(e.begin) + StrLength(e.end) + StrLength(e.eventId)
  }

  /** `_least_added`: the least a grid's JSON grows by when a channel may carry one event more than `count`. */
  function LeastAdded(channels: seq<Channel>, count: nat): nat {
    if channels == [] then 0
    else
      var n := |channels| - 1;
      LeastAdded(channels[..n], count)
      + (if |channels[n].events| > count then EventAdds(channels[n].events[count]) else 0)
  }

  // ---------------------------------------------------------------- sizes, counted without encoding

  function EscapedSize(text: string): (n: nat)
    ensures n >= |text|
  {
    if text == "" then 0
    else
      Utf8Bounds(EscapeChar(text[|text| - 1]));
      EscapedSize(text[..|text| - 1]) + Utf8Length(EscapeChar(text[|text| - 1]))
  }

  function QuoteSize(text: string): nat {
    2 + EscapedSize(text)
  }

  function QuoteOrNullSize(text: Option<string>): nat {
    match text
    case None => 4
    case Some(value) => QuoteSize(value)
  }

  function EventSize(e: Event): nat {
    EVENT_LEAST - 3 + StrLength(e.begin) + StrLength(e.end) + StrLength(e.eventId) + QuoteSize(e.title)
  }

  function EventsSize(events: seq<Event>): nat {
    if events == [] then 0
    else
      var n := |events| - 1;
      EventsSize(events[..n]) + (if n == 0 then 0 else 1) + EventSize(events[n])
  }

  function ChannelSize(c: Channel): nat {
    29 + EventsSize(c.events) + QuoteOrNullSize(c.name) + QuoteSize(c.sref)
  }

  function ChannelsSize(channels: seq<Channel>): nat {
    if channels == [] then 0
    else
      var n := |channels| - 1;
      ChannelsSize(channels[..n]) + (if n == 0 then 0 else 1) + ChannelSize(channels[n])
  }

  function Size(g: Grid): nat {
    61 + QuoteOrNullSize(g.bouquet) + ChannelsSize(g.channels) + StrLength(g.eventsPerChannel) + StrLength(g.generated)
  }

  // ---------------------------------------------------------------- the count is the encoding's length

  lemma {:induction false} AsciiSize(text: string)
    requires forall i :: 0 <= i < |text| ==> text[i] as int < 0x80
    ensures Utf8Length(text) == |text|
  {
    if text == "" {
    } else {
      AsciiSize(text[..|text| - 1]);
    }
  }

  lemma {:induction false} ThreeSizes(a: string, b: string, c: string)
    ensures Utf8Length(a + b + c) == Utf8Length(a) + Utf8Length(b) + Utf8Length(c)
  {
    Utf8Adds(a, b);
    Utf8Adds(a + b, c);
  }

  lemma {:induction false} AroundIsSized(a: string, text: string, b: string)
    requires forall i :: 0 <= i < |a| ==> a[i] as int < 0x80
    requires forall i :: 0 <= i < |b| ==> b[i] as int < 0x80
    ensures Utf8Length(a + text + b) == |a| + Utf8Length(text) + |b|
  {
    AsciiSize(a);
    AsciiSize(b);
    ThreeSizes(a, text, b);
  }

  lemma {:induction false} QuoteIsSized(text: string)
    ensures Utf8Length(Quote(text)) == QuoteSize(text)
  {
    EscapeIsSized(text);
    AroundIsSized("\"", Escape(text), "\"");
  }

  lemma {:induction false} EscapeIsSized(text: string)
    ensures Utf8Length(Escape(text)) == EscapedSize(text)
  {
    if text == "" {
    } else {
      EscapeIsSized(text[..|text| - 1]);
      Utf8Adds(Escape(text[..|text| - 1]), EscapeChar(text[|text| - 1]));
    }
  }

  lemma {:induction false} QuoteOrNullIsSized(text: Option<string>)
    ensures Utf8Length(QuoteOrNull(text)) == QuoteOrNullSize(text)
  {
    match text
    case None => AsciiSize("null");
    case Some(value) => QuoteIsSized(value);
  }

  lemma {:induction false} DigitsAreAscii(n: nat)
    ensures forall i :: 0 <= i < |Digits(n)| ==> Digits(n)[i] as int < 0x80
  {
    if n < 10 {
    } else {
      DigitsAreAscii(n / 10);
    }
  }

  lemma {:induction false} NumberIsSized(key: string, n: int)
    requires forall i :: 0 <= i < |key| ==> key[i] as int < 0x80
    ensures Utf8Length(NumberField(key, n)) == |key| + StrLength(n)
  {
    DigitsAreAscii(if n < 0 then -n else n);
    StrIsCounted(n);
    AsciiSize(NumberField(key, n));
  }

  lemma {:induction false} TitleIsSized(title: string)
    ensures Utf8Length(EventTitle(title)) == 10 + QuoteSize(title)
  {
    QuoteIsSized(title);
    AroundIsSized(",\"title\":", Quote(title), "}");
  }

  lemma {:induction false} NumbersAreSized(e: Event)
    ensures Utf8Length(EventNumbers(e)) == 28 + StrLength(e.begin) + StrLength(e.end) + StrLength(e.eventId)
  {
    hide NumberField, StrLength, Utf8Length;
    NumberIsSized("{\"begin\":", e.begin);
    NumberIsSized(",\"end\":", e.end);
    NumberIsSized(",\"event_id\":", e.eventId);
    ThreeSizes(NumberField("{\"begin\":", e.begin), NumberField(",\"end\":", e.end),
               NumberField(",\"event_id\":", e.eventId));
  }

  lemma {:induction false} EventIsSized(e: Event)
    ensures Utf8Length(EventJson(e)) == EventSize(e)
  {
    NumbersAreSized(e);
    TitleIsSized(e.title);
    Utf8Adds(EventNumbers(e), EventTitle(e.title));
  }

  lemma {:induction false} CommaIsSized(first: bool)
    ensures Utf8Length(if first then "" else ",") == if first then 0 else 1
  {
  }

  lemma {:induction false} EventsAreSized(events: seq<Event>)
    ensures Utf8Length(EventsJson(events)) == EventsSize(events)
  {
    if events == [] {
    } else {
      var n := |events| - 1;
      EventsAreSized(events[..n]);
      CommaIsSized(n == 0);
      EventIsSized(events[n]);
      ThreeSizes(EventsJson(events[..n]), if n == 0 then "" else ",", EventJson(events[n]));
    }
  }

  lemma {:induction false} SrefIsSized(sref: string)
    ensures Utf8Length(",\"sref\":" + Quote(sref) + "}") == 9 + QuoteSize(sref)
  {
    QuoteIsSized(sref);
    AroundIsSized(",\"sref\":", Quote(sref), "}");
  }

  lemma {:induction false} ChannelTailIsSized(c: Channel)
    ensures Utf8Length(ChannelTail(c)) == 18 + QuoteOrNullSize(c.name) + QuoteSize(c.sref)
  {
    QuoteOrNullIsSized(c.name);
    SrefIsSized(c.sref);
    AsciiSize("],\"name\":");
    ThreeSizes("],\"name\":", QuoteOrNull(c.name), ",\"sref\":" + Quote(c.sref) + "}");
  }

  lemma {:induction false} AroundEvents(c: Channel, events: string)
    ensures Utf8Length("{\"events\":[" + events + ChannelTail(c))
      == 29 + Utf8Length(events) + QuoteOrNullSize(c.name) + QuoteSize(c.sref)
  {
    ChannelTailIsSized(c);
    AsciiSize("{\"events\":[");
    ThreeSizes("{\"events\":[", events, ChannelTail(c));
  }

  lemma {:induction false} ChannelIsSized(c: Channel)
    ensures Utf8Length(ChannelJson(c)) == ChannelSize(c)
  {
    EventsAreSized(c.events);
    AroundEvents(c, EventsJson(c.events));
  }

  lemma {:induction false} ChannelsAreSized(channels: seq<Channel>)
    ensures Utf8Length(ChannelsJson(channels)) == ChannelsSize(channels)
  {
    if channels == [] {
    } else {
      var n := |channels| - 1;
      ChannelsAreSized(channels[..n]);
      CommaIsSized(n == 0);
      ChannelIsSized(channels[n]);
      ThreeSizes(ChannelsJson(channels[..n]), if n == 0 then "" else ",", ChannelJson(channels[n]));
    }
  }

  lemma {:induction false} StartIsSized(bouquet: Option<string>)
    ensures Utf8Length("{\"bouquet\":" + QuoteOrNull(bouquet) + ",\"channels\":[") == 24 + QuoteOrNullSize(bouquet)
  {
    QuoteOrNullIsSized(bouquet);
    AroundIsSized("{\"bouquet\":", QuoteOrNull(bouquet), ",\"channels\":[");
  }

  lemma {:induction false} EndIsSized(count: int, generated: int)
    ensures Utf8Length(
              NumberField("],\"events_per_channel\":", count) + NumberField(",\"generated\":", generated) + "}")
      == 37 + StrLength(count) + StrLength(generated)
  {
    NumberIsSized("],\"events_per_channel\":", count);
    NumberIsSized(",\"generated\":", generated);
    AsciiSize("}");
    ThreeSizes(NumberField("],\"events_per_channel\":", count), NumberField(",\"generated\":", generated), "}");
  }

  /** The count is the length, in UTF-8 bytes, of the grid's JSON. */
  lemma {:induction false} GridIsSized(g: Grid)
    ensures Utf8Length(Encode(g)) == Size(g)
  {
    var start := "{\"bouquet\":" + QuoteOrNull(g.bouquet) + ",\"channels\":[";
    var end :=
      NumberField("],\"events_per_channel\":", g.eventsPerChannel) + NumberField(",\"generated\":", g.generated) + "}";
    StartIsSized(g.bouquet);
    ChannelsAreSized(g.channels);
    EndIsSized(g.eventsPerChannel, g.generated);
    ThreeSizes(start, ChannelsJson(g.channels), end);
  }

  // ---------------------------------------------------------------- how the size grows with the count

  lemma {:induction false} CountedIsLess(e: Event)
    ensures EventAdds(e) <= 1 + EventSize(e)
  {
  }

  lemma {:induction false} EventsGrow(events: seq<Event>, count: nat)
    requires 1 <= count < |events|
    ensures EventsSize(First(events, count + 1)) == EventsSize(First(events, count)) + 1 + EventSize(events[count])
  {
    var more := First(events, count + 1);
    assert more[..count] == First(events, count) && more[count] == events[count] && |more| == count + 1;
  }

  /** What one event more adds to a channel. */
  lemma {:induction false} ChannelGrows(c: Channel, count: nat)
    requires count >= 1
    ensures ChannelSize(CutChannel(c, count + 1)) >= ChannelSize(CutChannel(c, count))
      + (if |c.events| > count then EventAdds(c.events[count]) else 0)
  {
    if |c.events| > count {
      EventsGrow(c.events, count);
      CountedIsLess(c.events[count]);
    }
  }

  lemma {:induction false} ChannelsGrow(channels: seq<Channel>, count: nat)
    requires count >= 1
    ensures ChannelsSize(CutChannels(channels, count + 1)) >=
      ChannelsSize(CutChannels(channels, count)) + LeastAdded(channels, count)
  {
    if channels == [] {
    } else {
      var n := |channels| - 1;
      var less, more := CutChannels(channels, count), CutChannels(channels, count + 1);
      assert less[..n] == CutChannels(channels[..n], count) && more[..n] == CutChannels(channels[..n], count + 1);
      ChannelsGrow(channels[..n], count);
      ChannelGrows(channels[n], count);
    }
  }

  lemma {:induction false} SizeSteps(g: Grid, count: nat)
    requires count >= 1
    ensures Size(Cut(g, count + 1)) >= Size(Cut(g, count)) + LeastAdded(g.channels, count)
  {
    ChannelsGrow(g.channels, count);
    LongerWhenLarger(count, count + 1);
  }

  /** The floor is a true one: one event more adds at least what is counted - from one event on. */
  lemma {:induction false} LeastAddedIsLeast(g: Grid, count: nat)
    requires count >= 1
    ensures Utf8Length(Encode(Cut(g, count + 1))) >= |Encode(Cut(g, count))| + LeastAdded(g.channels, count)
  {
    SizeSteps(g, count);
    GridIsSized(Cut(g, count));
    GridIsSized(Cut(g, count + 1));
    Utf8Bounds(Encode(Cut(g, count)));
  }

  lemma {:induction false} OneMoreIsNoSmaller(g: Grid, count: nat)
    requires count >= 1
    ensures Size(Cut(g, count)) <= Size(Cut(g, count + 1))
  {
    SizeSteps(g, count);
  }

  lemma {:induction false} SizeGrows(g: Grid, a: nat, b: nat)
    requires 1 <= a <= b
    ensures Size(Cut(g, a)) <= Size(Cut(g, b))
    decreases b - a
  {
    hide Size, Cut;
    if a == b {
    } else {
      OneMoreIsNoSmaller(g, a);
      SizeGrows(g, a + 1, b);
    }
  }

  /** The JSON only gets shorter as events are cut. */
  lemma {:induction false} CuttingShortens(g: Grid, a: nat, b: nat)
    requires 1 <= a <= b
    ensures Utf8Length(Encode(Cut(g, a))) <= Utf8Length(Encode(Cut(g, b)))
  {
    SizeGrows(g, a, b);
    GridIsSized(Cut(g, a));
    GridIsSized(Cut(g, b));
  }

  /** What the first events' escapes add over the commas that are counted and not there. */
  function Slack(channels: seq<Channel>): int {
    if channels == [] then 0
    else
      var n := |channels| - 1;
      Slack(channels[..n]) + (if channels[n].events == [] then 0 else TitleSlack(channels[n].events[0].title))
  }

  function TitleSlack(title: string): int {
    EscapedSize(title) - |title| - 1
  }

  lemma {:induction false} FirstEventAdds(c: Channel)
    ensures ChannelSize(CutChannel(c, 1)) == ChannelSize(CutChannel(c, 0))
      + (if c.events == [] then 0 else EventAdds(c.events[0]) + TitleSlack(c.events[0].title))
  {
    if c.events != [] {
      assert First(c.events, 1) == [c.events[0]] && First(c.events, 0) == [];
      OneEventSize(c.events[0]);
    }
  }

  lemma {:induction false} OneEventSize(e: Event)
    ensures EventsSize([e]) == EventAdds(e) + TitleSlack(e.title)
  {
    assert [e][..0] == [];
  }

  lemma {:induction false} FirstEventsAdd(channels: seq<Channel>)
    ensures ChannelsSize(CutChannels(channels, 1)) ==
      ChannelsSize(CutChannels(channels, 0)) + LeastAdded(channels, 0) + Slack(channels)
  {
    if channels == [] {
    } else {
      var n := |channels| - 1;
      var none, first := CutChannels(channels, 0), CutChannels(channels, 1);
      assert none[..n] == CutChannels(channels[..n], 0) && first[..n] == CutChannels(channels[..n], 1);
      FirstEventsAdd(channels[..n]);
      FirstEventAdds(channels[n]);
    }
  }

  /**
   From no event to the first, where the code never asks, each list's first event takes no comma: the floor holds
   exactly when the titles' escapes, and the characters of more than one byte measured before, make up for the commas.
   */
  lemma {:induction false} FloorFromNoneExactly(g: Grid)
    ensures var none := Encode(Cut(g, 0));
      Utf8Length(Encode(Cut(g, 1))) >= |none| + LeastAdded(g.channels, 0) <==>
      Slack(g.channels) + (Utf8Length(none) - |none|) >= 0
  {
    FirstEventsAdd(g.channels);
    GridIsSized(Cut(g, 0));
    GridIsSized(Cut(g, 1));
    assert StrLength(0) == StrLength(1);
  }
}
