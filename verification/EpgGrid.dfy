/** Building a grid at once and in batches (src/MQTTBridge/epggrid.py). */
module EpgGrid {
  import opened Options
  import opened GridJson
  import EpgFitting

  /** One row of a lookup, as `_event` reads it: a reference and an event, or nothing usable. */
  datatype Row = Usable(sref: string, event: Event) | Unusable

  datatype Listed = Listed(sref: string, name: Option<string>)

  datatype Bouquet = Bouquet(name: Option<string>, channels: seq<Listed>)

  /** The EPG cache's answer for a list of services and a number of minutes. */
  type Lookup = (seq<string>, int) -> seq<Row>

  type Identity = string -> string

  const CHANNELS_PER_STEP := 4
  const MINUTES_PER_EVENT := 90
  const EXTRA_MINUTES := 60

  // ---------------------------------------------------------------- rows into channels

  function Blank(channels: seq<Listed>): (r: seq<Channel>)
    ensures |r| == |channels|
  {
    seq(|channels|, i requires 0 <= i < |channels| => Channel(channels[i].sref, channels[i].name, []))
  }

  function Srefs(channels: seq<Channel>): (r: seq<string>)
    ensures |r| == |channels|
  {
    seq(|channels|, i requires 0 <= i < |channels| => channels[i].sref)
  }

  /** The first of these names that is `name`. */
  function FirstOf(names: seq<string>, name: string): (r: Option<nat>)
    ensures r.Some? ==> r.value < |names| && names[r.value] == name && forall j :: 0 <= j < r.value ==> names[j] != name
    ensures r.None? ==> name !in names
  {
    if names == [] then None
    else
      match FirstOf(names[..|names| - 1], name)
      case Some(i) => Some(i)
      case None =>
        assert names == names[..|names| - 1] + [names[|names| - 1]];
        if names[|names| - 1] == name then Some(|names| - 1) else None
  }

  function Identities(identity: Identity, srefs: seq<string>): (r: seq<string>)
    ensures |r| == |srefs|
  {
    seq(|srefs|, i requires 0 <= i < |srefs| => identity(srefs[i]))
  }

  /** The channel a row belongs to: the first spelled the same, else the first that is the same service. */
  function Target(identity: Identity, srefs: seq<string>, sref: string): (r: Option<nat>)
    ensures r.Some? ==> r.value < |srefs|
  {
    match FirstOf(srefs, sref)
    case Some(i) => Some(i)
    case None => FirstOf(Identities(identity, srefs), identity(sref))
  }

  function AddRow(identity: Identity, channels: seq<Channel>, count: int, row: Row): (r: seq<Channel>)
    ensures |r| == |channels| && Srefs(r) == Srefs(channels)
  {
    match row
    case Unusable => channels
    case Usable(sref, event) =>
      match Target(identity, Srefs(channels), sref)
      case None => channels
      case Some(i) =>
        if |channels[i].events| >= count then channels
        else channels[i := channels[i].(events := channels[i].events + [event])]
  }

  function AddRows(identity: Identity, channels: seq<Channel>, count: int, rows: seq<Row>): (r: seq<Channel>)
    ensures |r| == |channels| && Srefs(r) == Srefs(channels)
  {
    if rows == [] then channels
    else AddRow(identity, AddRows(identity, channels, count, rows[..|rows| - 1]), count, rows[|rows| - 1])
  }

  lemma {:induction false} RowsInTurn(identity: Identity, channels: seq<Channel>, count: int, first: seq<Row>,
      second: seq<Row>)
    ensures AddRows(identity, AddRows(identity, channels, count, first), count, second) ==
      AddRows(identity, channels, count, first + second)
  {
    if second == [] {
      assert first + second == first;
    } else {
      assert (first + second)[..|first + second| - 1] == first + second[..|second| - 1];
      RowsInTurn(identity, channels, count, first, second[..|second| - 1]);
    }
  }

  // ---------------------------------------------------------------- order

  /** Before the first event that begins later: an event that begins at the same time stays in front. */
  function InsertEvent(e: Event, events: seq<Event>): seq<Event> {
    if events == [] || events[|events| - 1].begin <= e.begin then events + [e]
    else InsertEvent(e, events[..|events| - 1]) + [events[|events| - 1]]
  }

  /** A stable sort by the time an event begins. */
  function SortEvents(events: seq<Event>): (r: seq<Event>)
    ensures |r| == |events|
  {
    if events == [] then []
    else
      var rest := SortEvents(events[..|events| - 1]);
      InsertLength(events[|events| - 1], rest);
      InsertEvent(events[|events| - 1], rest)
  }

  lemma {:induction false} InsertLength(e: Event, events: seq<Event>)
    ensures |InsertEvent(e, events)| == |events| + 1
  {
    if events != [] && events[|events| - 1].begin > e.begin { InsertLength(e, events[..|events| - 1]); }
  }

  ghost predicate InOrder(events: seq<Event>) {
    forall i, j :: 0 <= i < j < |events| ==> events[i].begin <= events[j].begin
  }

  lemma {:induction false} InsertKeepsAll(e: Event, events: seq<Event>)
    ensures multiset(InsertEvent(e, events)) == multiset(events) + multiset{e}
  {
    if events != [] && events[|events| - 1].begin > e.begin {
      var n := |events| - 1;
      InsertKeepsAll(e, events[..n]);
      assert events == events[..n] + [events[n]];
    }
  }

  lemma {:induction false} InsertOrders(e: Event, events: seq<Event>)
    requires InOrder(events)
    ensures InOrder(InsertEvent(e, events))
  {
    if events != [] && events[|events| - 1].begin > e.begin {
      var n := |events| - 1;
      var rest := InsertEvent(e, events[..n]);
      InsertOrders(e, events[..n]);
      InsertKeepsAll(e, events[..n]);
      forall i | 0 <= i < |rest| ensures rest[i].begin <= events[n].begin {
        assert rest[i] in multiset(rest);
        if rest[i] != e { assert rest[i] in events[..n]; }
      }
    }
  }

  lemma {:induction false} SortOrders(events: seq<Event>)
    ensures InOrder(SortEvents(events)) && multiset(SortEvents(events)) == multiset(events)
  {
    if events == [] {
    } else {
      var n := |events| - 1;
      SortOrders(events[..n]);
      InsertOrders(events[n], SortEvents(events[..n]));
      InsertKeepsAll(events[n], SortEvents(events[..n]));
      assert events == events[..n] + [events[n]];
    }
  }

  function Ordered(channels: seq<Channel>): (r: seq<Channel>)
    ensures |r| == |channels|
  {
    seq(|channels|, i requires 0 <= i < |channels| => channels[i].(events := SortEvents(channels[i].events)))
  }

  // ---------------------------------------------------------------- the grid that is meant

  function Minutes(count: int): int {
    count * MINUTES_PER_EVENT + EXTRA_MINUTES
  }

  /** Every row, in order, then each channel's events by time. */
  function BuiltFrom(identity: Identity, channels: seq<Listed>, count: int, rows: seq<Row>): seq<Channel> {
    Ordered(AddRows(identity, Blank(channels), count, rows))
  }

  /** The rows of one lookup over all channels. */
  function Built(identity: Identity, lookup: Lookup, channels: seq<Listed>, count: int): seq<Channel> {
    BuiltFrom(identity, channels, count, lookup(Srefs(Blank(channels)), Minutes(count)))
  }

  /** The services before `end`, without those at the places given: the ones whose lookup raised. */
  function Answered(srefs: seq<string>, end: nat, raised: set<nat>): (r: seq<string>)
    requires end <= |srefs|
  {
    if end == 0 then []
    else Answered(srefs, end - 1, raised) + if end - 1 in raised then [] else [srefs[end - 1]]
  }

  /** The rows of one lookup over the channels whose own lookup did not raise. */
  function BuiltWithout(identity: Identity, lookup: Lookup, channels: seq<Listed>, count: int, raised: set<nat>):
    seq<Channel>
  {
    var srefs := Srefs(Blank(channels));
    BuiltFrom(identity, channels, count, lookup(Answered(srefs, |srefs|, raised), Minutes(count)))
  }

  lemma {:induction false} AllAnswered(srefs: seq<string>, end: nat)
    requires end <= |srefs|
    ensures Answered(srefs, end, {}) == srefs[..end]
  {
    if end == 0 {
    } else {
      AllAnswered(srefs, end - 1);
      assert srefs[..end] == srefs[..end - 1] + [srefs[end - 1]];
    }
  }

  /** A grid that missed nothing is the one a single lookup gives. */
  lemma {:induction false} NoneMissing(identity: Identity, lookup: Lookup, channels: seq<Listed>, count: int)
    ensures BuiltWithout(identity, lookup, channels, count, {}) == Built(identity, lookup, channels, count)
  {
    var srefs := Srefs(Blank(channels));
    AllAnswered(srefs, |srefs|);
    assert srefs[..|srefs|] == srefs;
  }

  function Span(start: nat, stop: nat): (places: set<nat>)
    ensures forall i :: i in places <==> start <= i < stop
  {
    if stop <= start then {} else Span(start, stop - 1) + {stop - 1}
  }

  lemma {:induction false} AnsweredBefore(srefs: seq<string>, end: nat, raised: set<nat>, more: set<nat>)
    requires end <= |srefs| && forall i :: i in more ==> i >= end
    ensures Answered(srefs, end, raised + more) == Answered(srefs, end, raised)
  {
    if end == 0 {
    } else {
      AnsweredBefore(srefs, end - 1, raised, more);
    }
  }

  /** A batch that was answered adds its services; a batch that raised adds none. */
  lemma {:induction false} AnsweredBatch(srefs: seq<string>, start: nat, stop: nat, raised: set<nat>)
    requires start <= stop <= |srefs| && forall i :: i in raised ==> i < start
    ensures Answered(srefs, stop, raised) == Answered(srefs, start, raised) + srefs[start..stop]
    ensures Answered(srefs, stop, raised + Span(start, stop)) == Answered(srefs, start, raised)
  {
    if start < stop {
      AnsweredBatch(srefs, start, stop - 1, raised);
      assert srefs[start..stop] == srefs[start..stop - 1] + [srefs[stop - 1]];
      AnsweredBefore(srefs, stop - 1, raised + Span(start, stop - 1), {stop - 1});
      assert raised + Span(start, stop) == raised + Span(start, stop - 1) + {stop - 1};
    } else {
      assert raised + Span(start, stop) == raised && srefs[start..stop] == [];
    }
  }

  /** The lookup answers channel by channel. */
  ghost predicate Distributes(lookup: Lookup) {
    forall a, b, minutes :: lookup(a + b, minutes) == lookup(a, minutes) + lookup(b, minutes)
  }

  ghost predicate AtMost(channels: seq<Channel>, count: int) {
    forall c :: c in channels ==> c.events == [] || |c.events| <= count
  }

  lemma {:induction false} RowsAtMost(identity: Identity, channels: seq<Channel>, count: int, rows: seq<Row>)
    requires AtMost(channels, count)
    ensures AtMost(AddRows(identity, channels, count, rows), count)
  {
    if rows == [] {
    } else {
      var n := |rows| - 1;
      var before := AddRows(identity, channels, count, rows[..n]);
      RowsAtMost(identity, channels, count, rows[..n]);
      RowAtMost(identity, before, count, rows[n]);
    }
  }

  lemma {:induction false} RowAtMost(identity: Identity, channels: seq<Channel>, count: int, row: Row)
    requires AtMost(channels, count)
    ensures AtMost(AddRow(identity, channels, count, row), count)
  {
  }

  lemma {:induction false} OrderedAtMost(channels: seq<Channel>, count: int)
    requires AtMost(channels, count)
    ensures AtMost(Ordered(channels), count)
  {
  }

  /** A built grid never carries more events on a channel than it says. */
  lemma {:induction false} BuiltIsFinished(identity: Identity, bouquet: Bouquet, count: int, rows: seq<Row>,
      generated: int)
    ensures EpgFitting.Finished(
              Grid(bouquet.name, generated, count, BuiltFrom(identity, bouquet.channels, count, rows)))
  {
    RowsAtMost(identity, Blank(bouquet.channels), count, rows);
    OrderedAtMost(AddRows(identity, Blank(bouquet.channels), count, rows), count);
  }

  /** With no events asked for, nothing is added whatever the lookup answers. */
  lemma {:induction false} NothingAsked(identity: Identity, channels: seq<Channel>, count: int, rows: seq<Row>)
    requires count <= 0
    ensures AddRows(identity, channels, count, rows) == channels
  {
    if rows == [] {
    } else {
      NothingAsked(identity, channels, count, rows[..|rows| - 1]);
    }
  }

  lemma {:induction false} BlankInOrder(channels: seq<Listed>)
    ensures Ordered(Blank(channels)) == Blank(channels)
  {
  }

  // ---------------------------------------------------------------- at once

  /** The dictionary `by_sref`: each spelling's first channel. */
  ghost predicate Indexes(index: map<string, nat>, names: seq<string>) {
    forall name :: (name in index <==> FirstOf(names, name).Some?)
      && (name in index ==> FirstOf(names, name) == Some(index[name]))
  }

  lemma {:induction false} IndexGrows(index: map<string, nat>, names: seq<string>, k: nat)
    requires k < |names| && Indexes(index, names[..k])
    ensures Indexes(if names[k] in index then index else index[names[k] := k], names[..k + 1])
  {
    assert names[..k + 1][..k] == names[..k];
  }

  method IndexOf(names: seq<string>) returns (index: map<string, nat>)
    ensures Indexes(index, names)
  {
    index := map[];
    var k := 0;
    while k < |names|
      invariant 0 <= k <= |names| && Indexes(index, names[..k])
    {
      IndexGrows(index, names, k);
      if names[k] !in index { index := index[names[k] := k]; }
      k := k + 1;
    }
    assert names[..k] == names;
  }

  /** `build`: one lookup, the identity searched for row by row. */
  method Build(identity: Identity, lookup: Lookup, bouquet: Bouquet, count: int) returns (channels: seq<Channel>)
    ensures channels == Built(identity, lookup, bouquet.channels, count)
  {
    channels := Blank(bouquet.channels);
    var srefs := Srefs(channels);
    if channels == [] || count <= 0 {
      var rows := lookup(srefs, Minutes(count));
      if count <= 0 { NothingAsked(identity, channels, count, rows); }
      if channels == [] { assert AddRows(identity, channels, count, rows) == []; }
      BlankInOrder(bouquet.channels);
      return;
    }
    hide Target, Indexes, FirstOf;
    var bySref := IndexOf(srefs);
    var rows := lookup(srefs, Minutes(count));
    var k := 0;
    while k < |rows|
      invariant 0 <= k <= |rows| && |channels| == |srefs|
      invariant channels == AddRows(identity, Blank(bouquet.channels), count, rows[..k])
    {
      assert rows[..k + 1][..k] == rows[..k];
      if rows[k].Usable? {
        var entry := PlaceOf(identity, srefs, bySref, rows[k].sref);
        if entry.Some? && |channels[entry.value].events| < count {
          var c := channels[entry.value];
          channels := channels[entry.value := c.(events := c.events + [rows[k].event])];
        }
      }
      k := k + 1;
    }
    assert rows[..k] == rows;
    channels := Ordered(channels);
  }

  method PlaceOf(identity: Identity, srefs: seq<string>, bySref: map<string, nat>, sref: string)
    returns (entry: Option<nat>)
    requires Indexes(bySref, srefs)
    ensures entry == Target(identity, srefs, sref)
  {
    if sref in bySref { return Some(bySref[sref]); }
    entry := SearchIdentity(identity, srefs, identity(sref));
  }

  method SearchIdentity(identity: Identity, srefs: seq<string>, wanted: string) returns (found: Option<nat>)
    ensures found == FirstOf(Identities(identity, srefs), wanted)
  {
    var names := Identities(identity, srefs);
    var i := 0;
    while i < |srefs|
      invariant 0 <= i <= |srefs| && forall j :: 0 <= j < i ==> names[j] != wanted
    {
      if identity(srefs[i]) == wanted {
        var first := FirstOf(names, wanted);
        assert names[i] == wanted && first.value == i;
        return Some(i);
      }
      i := i + 1;
    }
    return None;
  }

  // ---------------------------------------------------------------- in batches

  /** A build under way: whose grid it is, how far it has come, and the places whose lookup raised. */
  datatype Progress = Progress(bouquet: Bouquet, count: int, generated: int, cursor: nat, raised: set<nat>)

  function BatchEnd(b: Progress): nat {
    if b.cursor + CHANNELS_PER_STEP < |b.bouquet.channels| then b.cursor + CHANNELS_PER_STEP
    else |b.bouquet.channels|
  }

  /** A step asks the cache when there are channels left and events wanted. */
  predicate Asks(b: Progress) {
    b.cursor < |b.bouquet.channels| && b.count > 0
  }

  function AfterBatch(b: Progress, raises: bool): Progress {
    b.(cursor := BatchEnd(b), raised := b.raised + if raises && b.count > 0 then Span(b.cursor, BatchEnd(b)) else {})
  }

  /** The grid of one lookup over the channels whose own lookup did not raise. */
  function GridOf(identity: Identity, lookup: Lookup, b: Progress): Grid {
    Grid(b.bouquet.name, b.generated, b.count, BuiltWithout(identity, lookup, b.bouquet.channels, b.count, b.raised))
  }

  /** What one bouquet's build has so far, between timer steps. */
  class GridState {
    const bouquet: Bouquet
    const count: int
    const generated: int
    var channels: seq<Channel>
    var bySref: map<string, nat>
    var byIdentity: map<string, nat>
    var cursor: nat
    ghost var raised: set<nat>

    /** The channels hold exactly what one lookup over the answered channels before the cursor would have given. */
    ghost predicate Valid(identity: Identity, lookup: Lookup)
      reads this
    {
      var srefs := Srefs(Blank(bouquet.channels));
      && cursor <= |srefs| && Srefs(channels) == srefs && (forall i :: i in raised ==> i < cursor)
      && Indexes(bySref, srefs) && Indexes(byIdentity, Identities(identity, srefs))
      && channels == AddRows(identity, Blank(bouquet.channels), count,
                             lookup(Answered(srefs, cursor, raised), Minutes(count)))
    }

    ghost function SoFar(): Progress
      reads this
    {
      Progress(bouquet, count, generated, cursor, raised)
    }

    constructor (identity: Identity, lookup: Lookup, bouquet: Bouquet, count: int, generated: int)
      requires Distributes(lookup)
      ensures Valid(identity, lookup) && SoFar() == Progress(bouquet, count, generated, 0, {})
    {
      this.bouquet, this.count, this.generated := bouquet, count, generated;
      channels, cursor, raised := Blank(bouquet.channels), 0, {};
      new;
      bySref := IndexOf(Srefs(channels));
      byIdentity := IndexOf(Identities(identity, Srefs(channels)));
      NoServices(lookup, Minutes(count));
    }

    method AddOne(identity: Identity, row: Row)
      requires Indexes(bySref, Srefs(channels)) && Indexes(byIdentity, Identities(identity, Srefs(channels)))
      modifies this`channels
      ensures channels == AddRow(identity, old(channels), count, row)
    {
      if row.Unusable? { return; }
      var sref := row.sref;
      var entry := if sref in bySref then Some(bySref[sref])
                   else if identity(sref) in byIdentity then Some(byIdentity[identity(sref)]) else None;
      assert entry == Target(identity, Srefs(channels), sref);
      if entry.None? || |channels[entry.value].events| >= count { return; }
      var c := channels[entry.value];
      channels := channels[entry.value := c.(events := c.events + [row.event])];
    }

    method AddAll(identity: Identity, rows: seq<Row>)
      requires Indexes(bySref, Srefs(channels)) && Indexes(byIdentity, Identities(identity, Srefs(channels)))
      modifies this`channels
      ensures channels == AddRows(identity, old(channels), count, rows)
    {
      var k := 0;
      while k < |rows|
        invariant 0 <= k <= |rows| && channels == AddRows(identity, old(channels), count, rows[..k])
      {
        assert rows[..k + 1][..k] == rows[..k];
        AddOne(identity, rows[k]);
        k := k + 1;
      }
      assert rows[..k] == rows;
    }

    /** One batch: the rows of the next channels, or none when their lookup raises. */
    method TakeBatch(identity: Identity, lookup: Lookup, raises: bool)
      requires Distributes(lookup) && Valid(identity, lookup)
      modifies this
      ensures Valid(identity, lookup) && SoFar() == AfterBatch(old(SoFar()), raises)
    {
      hide Answered, Indexes, Identities, Blank, Minutes, Distributes, AddRow, Span;
      ghost var blank := Blank(bouquet.channels);
      var srefs := Srefs(channels);
      var stop := if cursor + CHANNELS_PER_STEP < |srefs| then cursor + CHANNELS_PER_STEP else |srefs|;
      AnsweredBatch(srefs, cursor, stop, raised);
      OneBatchMore(identity, lookup, blank, Answered(srefs, cursor, raised), srefs[cursor..stop], count);
      if cursor < stop && count > 0 {
        AddAll(identity, if raises then [] else lookup(srefs[cursor..stop], Minutes(count)));
        if raises { raised := raised + Span(cursor, stop); }
      } else {
        SkippedBatch(identity, lookup, channels, count, cursor, stop);
      }
      cursor := stop;
    }

    /** `_finish_state`. */
    method Finish(identity: Identity, lookup: Lookup) returns (grid: Grid)
      requires Valid(identity, lookup) && cursor == |channels|
      ensures grid == GridOf(identity, lookup, SoFar()) && EpgFitting.Finished(grid)
    {
      ghost var srefs := Srefs(channels);
      BuiltIsFinished(identity, bouquet, count, lookup(Answered(srefs, |srefs|, raised), Minutes(count)), generated);
      return Grid(bouquet.name, generated, count, Ordered(channels));
    }
  }

  lemma {:induction false} NoServices(lookup: Lookup, minutes: int)
    requires Distributes(lookup)
    ensures lookup([], minutes) == []
  {
    var none: seq<string> := [];
    assert lookup(none + none, minutes) == lookup(none, minutes) + lookup(none, minutes);
    assert none + none == none;
  }

  /** A batch more, whatever its size, is a longer lookup. */
  lemma {:induction false} OneBatchMore(identity: Identity, lookup: Lookup, channels: seq<Channel>,
      first: seq<string>, second: seq<string>, count: int)
    requires Distributes(lookup)
    ensures AddRows(identity, AddRows(identity, channels, count, lookup(first, Minutes(count))), count,
                    lookup(second, Minutes(count)))
         == AddRows(identity, channels, count, lookup(first + second, Minutes(count)))
  {
    RowsInTurn(identity, channels, count, lookup(first, Minutes(count)), lookup(second, Minutes(count)));
  }

  /** The places before `end` whose batch raised. */
  function Missed(raises: nat -> bool, count: int, end: nat): (places: set<nat>)
    ensures forall i: nat :: i in places <==> i < end && count > 0 && raises(i / CHANNELS_PER_STEP)
  {
    if end == 0 then {}
    else Missed(raises, count, end - 1) + if count > 0 && raises((end - 1) / CHANNELS_PER_STEP) then {end - 1} else {}
  }

  /** The build of a bouquet after so many batches. */
  function AfterBatches(bouquet: Bouquet, count: int, now: int, raises: nat -> bool, batches: nat): Progress {
    var total := |bouquet.channels|;
    var cursor := if batches * CHANNELS_PER_STEP < total then batches * CHANNELS_PER_STEP else total;
    Progress(bouquet, count, now, cursor, Missed(raises, count, cursor))
  }

  /** The build of a bouquet after all of them. */
  function AfterAll(bouquet: Bouquet, count: int, now: int, raises: nat -> bool): Progress {
    Progress(bouquet, count, now, |bouquet.channels|, Missed(raises, count, |bouquet.channels|))
  }

  lemma {:induction false} OneMoreStep(bouquet: Bouquet, count: int, now: int, raises: nat -> bool, batch: nat)
    requires batch * CHANNELS_PER_STEP <= |bouquet.channels|
    ensures AfterBatch(AfterBatches(bouquet, count, now, raises, batch), raises(batch)) ==
            AfterBatches(bouquet, count, now, raises, batch + 1)
    ensures var after := AfterBatches(bouquet, count, now, raises, batch + 1);
      && after.bouquet == bouquet
      && if after.cursor < |bouquet.channels| then (batch + 1) * CHANNELS_PER_STEP < |bouquet.channels|
         else after == AfterAll(bouquet, count, now, raises)
  {
    var b := AfterBatches(bouquet, count, now, raises, batch);
    var stop := BatchEnd(b);
    assert forall i :: b.cursor <= i < stop ==> i / CHANNELS_PER_STEP == batch;
    assert AfterBatch(b, raises(batch)).raised == Missed(raises, count, stop);
  }

  lemma {:induction false} NothingMissed(identity: Identity, lookup: Lookup, bouquet: Bouquet, count: int, now: int,
      raises: nat -> bool)
    requires forall batch: nat :: !raises(batch)
    ensures GridOf(identity, lookup, AfterAll(bouquet, count, now, raises)).channels ==
            Built(identity, lookup, bouquet.channels, count)
  {
    assert Missed(raises, count, |bouquet.channels|) == {};
    NoneMissing(identity, lookup, bouquet.channels, count);
  }

  function Of(raises: (nat, nat) -> bool, bouquet: nat): nat -> bool {
    (batch: nat) => raises(bouquet, batch)
  }

  class GridBuilder {
    const identity: Identity
    const lookup: Lookup
    var active: bool
    var generation: nat
    var queue: seq<Bouquet>
    var current: GridState?

    ghost predicate Valid()
      reads this, current
    {
      Distributes(lookup) && (current != null ==> current.Valid(identity, lookup))
    }

    constructor (identity: Identity, lookup: Lookup)
      requires Distributes(lookup)
      ensures Valid() && this.identity == identity && this.lookup == lookup && current == null && queue == [] && active
    {
      this.identity, this.lookup := identity, lookup;
      active, generation, queue, current := true, 0, [], null;
    }

    /** `regenerate`: a build under way is dropped. */
    method Regenerate(bouquets: seq<Bouquet>)
      requires Distributes(lookup)
      modifies this
      ensures Valid() && generation == old(generation) + 1 && queue == bouquets && current == null
        && active == old(active)
    {
      generation, queue, current := generation + 1, bouquets, null;
    }

    predicate Idle()
      reads this
    {
      !active || (current == null && queue == [])
    }

    /** The build the next step works on: the one under way, or a new one of the first bouquet queued. */
    ghost function Next(count: int, now: int): Progress
      requires !Idle()
      reads this, current
    {
      if current != null then current.SoFar() else Progress(queue[0], count, now, 0, {})
    }

    /**
     One timer step. `raises` is whether the lookup raises, and then its channels are missing from the grid.
     `overtaking` is what a `regenerate` during the lookup asks for, when there is one: the batch then contributes
     nothing, to the build it belonged to or to the new one. A finished grid is the one a single lookup gives, over
     the channels that were answered.
     */
    method NextBatch(count: int, now: int, raises: bool, overtaking: Option<seq<Bouquet>>)
      returns (finished: Option<Grid>)
      requires Valid()
      modifies this, current
      ensures Valid() && active == old(active) && (current == null || current == old(current) || fresh(current))
      ensures old(Idle()) ==> finished.None? && unchanged(this) && (old(current) != null ==> unchanged(old(current)))
      ensures !old(Idle()) && Asks(old(Next(count, now))) && overtaking.Some? ==>
        && finished.None? && generation == old(generation) + 1 && queue == overtaking.value && current == null
        && (old(current) != null ==> unchanged(old(current)))
      ensures !old(Idle()) && !(Asks(old(Next(count, now))) && overtaking.Some?) ==>
        var after := AfterBatch(old(Next(count, now)), raises);
        && generation == old(generation) && queue == (if old(current) == null then old(queue)[1..] else old(queue))
        && if after.cursor < |after.bouquet.channels|
           then finished.None? && current != null && current.SoFar() == after
           else
             && finished == Some(GridOf(identity, lookup, after)) && current == null
             && EpgFitting.Finished(finished.value)
    {
      if !active { return None; }
      if current == null && queue == [] { return None; }
      hide Distributes, AfterBatch, BuiltWithout;
      if current == null {
        current := new GridState(identity, lookup, queue[0], count, now);
        queue := queue[1..];
      }
      var state := current;
      if state.cursor < |state.channels| && state.count > 0 && overtaking.Some? {
        Regenerate(overtaking.value);
        return None;
      }
      state.TakeBatch(identity, lookup, raises);
      if state.cursor < |state.channels| { return None; }
      var grid := state.Finish(identity, lookup);
      current := null;
      return Some(grid);
    }

    /** One step of a run in which nothing overtakes: `raises` says of each batch whether its lookup raises. */
    method RunBatch(ghost bouquet: Bouquet, count: int, now: int, raises: nat -> bool, batch: nat)
      returns (finished: Option<Grid>)
      requires Valid() && !Idle() && batch * CHANNELS_PER_STEP <= |bouquet.channels|
      requires Next(count, now) == AfterBatches(bouquet, count, now, raises, batch)
      modifies this, current
      ensures Valid() && active && generation == old(generation)
      ensures queue == if old(current) == null then old(queue)[1..] else old(queue)
      ensures current == null || current == old(current) || fresh(current)
      ensures if finished.None?
              then
                && current != null && current.SoFar() == AfterBatches(bouquet, count, now, raises, batch + 1)
                && (batch + 1) * CHANNELS_PER_STEP < |bouquet.channels|
              else
                && current == null
                && finished.value == GridOf(identity, lookup, AfterAll(bouquet, count, now, raises))
    {
      hide Distributes, AfterBatch, AfterBatches, AfterAll, GridOf, EpgFitting.Finished;
      OneMoreStep(bouquet, count, now, raises, batch);
      finished := NextBatch(count, now, raises(batch), None);
    }

    /**
     The timer's steps from a bouquet at the head of the queue to its grid. With no lookup that raises, the grid is
     that of one lookup over all channels, however many batches there were.
     */
    method BuildNext(count: int, now: int, raises: nat -> bool) returns (grid: Grid)
      requires Valid() && active && current == null && queue != []
      modifies this
      ensures Valid() && active && current == null && queue == old(queue)[1..] && generation == old(generation)
      ensures grid == GridOf(identity, lookup, AfterAll(old(queue)[0], count, now, raises))
      ensures (forall batch: nat :: !raises(batch)) ==>
        grid.channels == Built(identity, lookup, old(queue)[0].channels, count)
    {
      ghost var bouquet := queue[0];
      assert AfterBatches(bouquet, count, now, raises, 0) == Progress(bouquet, count, now, 0, {});
      hide Built, Distributes, AfterBatches, AfterAll, GridOf;
      if forall batch: nat :: !raises(batch) { NothingMissed(identity, lookup, bouquet, count, now, raises); }
      var finished := RunBatch(bouquet, count, now, raises, 0);
      var batch := 1;
      while finished.None?
        invariant Valid() && active && queue == old(queue)[1..] && generation == old(generation)
        invariant current == null || fresh(current)
        invariant finished.None? ==>
          && current != null && current.SoFar() == AfterBatches(bouquet, count, now, raises, batch)
          && batch * CHANNELS_PER_STEP < |bouquet.channels|
        invariant finished.Some? ==>
          && current == null
          && finished.value == GridOf(identity, lookup, AfterAll(bouquet, count, now, raises))
        decreases finished.None?, |bouquet.channels| - batch * CHANNELS_PER_STEP
      {
        finished := RunBatch(bouquet, count, now, raises, batch);
        batch := batch + 1;
      }
      grid := finished.value;
    }

    /** Every bouquet queued, one after another. */
    method BuildAll(count: int, now: int, raises: (nat, nat) -> bool) returns (grids: seq<Grid>)
      requires Valid() && active && current == null
      modifies this
      ensures Valid() && active && current == null && queue == [] && generation == old(generation)
      ensures |grids| == |old(queue)|
      ensures forall k: nat :: k < |grids| ==>
        grids[k] == GridOf(identity, lookup, AfterAll(old(queue)[k], count, now, Of(raises, k)))
    {
      hide GridOf, AfterAll, Built, Distributes;
      grids := [];
      while queue != []
        invariant Valid() && active && current == null && generation == old(generation)
        invariant |grids| <= |old(queue)| && queue == old(queue)[|grids|..]
        invariant forall k: nat :: k < |grids| ==>
          grids[k] == GridOf(identity, lookup, AfterAll(old(queue)[k], count, now, Of(raises, k)))
        decreases |queue|
      {
        ghost var done := |grids|;
        assert queue[0] == old(queue)[done] && queue[1..] == old(queue)[done + 1..];
        var grid := BuildNext(count, now, Of(raises, |grids|));
        grids := grids + [grid];
      }
    }
  }

  /** A step that looks nothing up misses nothing: there is no channel left, or no event is asked for. */
  lemma {:induction false} SkippedBatch(identity: Identity, lookup: Lookup, channels: seq<Channel>, count: int,
      start: nat, stop: nat)
    requires Distributes(lookup) && start <= stop <= |channels| && (start == stop || count <= 0)
    ensures AddRows(identity, channels, count, lookup(Srefs(channels)[start..stop], Minutes(count))) == channels
  {
    var rows := lookup(Srefs(channels)[start..stop], Minutes(count));
    if start == stop {
      NoServices(lookup, Minutes(count));
    } else {
      NothingAsked(identity, channels, count, rows);
    }
  }
}
