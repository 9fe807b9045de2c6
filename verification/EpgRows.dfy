/** Which events a built grid carries, said of the rows a lookup answers (src/MQTTBridge/epggrid.py). */
module EpgRows {
  import opened Options
  import opened GridJson
  import opened EpgGrid

  /**
   The channel a row belongs to: the first one spelled like the row's reference, or, when none is spelled so, the first
   one that is the same service.
   */
  ghost predicate Belongs(identity: Identity, channels: seq<Listed>, i: nat, sref: string) {
    && i < |channels|
    && if exists j :: 0 <= j < |channels| && channels[j].sref == sref
       then channels[i].sref == sref && forall j :: 0 <= j < i ==> channels[j].sref != sref
       else
         && identity(channels[i].sref) == identity(sref)
         && forall j :: 0 <= j < i ==> identity(channels[j].sref) != identity(sref)
  }

  ghost predicate RowOf(identity: Identity, channels: seq<Listed>, i: nat, row: Row) {
    row.Usable? && Belongs(identity, channels, i, row.sref)
  }

  /** `picks` are the places of the rows that belong to channel `i`, all of them and in order. */
  ghost predicate Picks(identity: Identity, channels: seq<Listed>, rows: seq<Row>, i: nat, picks: seq<nat>) {
    && (forall m :: 0 <= m < |picks| ==> picks[m] < |rows| && RowOf(identity, channels, i, rows[picks[m]]))
    && (forall m, n :: 0 <= m < n < |picks| ==> picks[m] < picks[n])
    && (forall k: nat :: k < |rows| && RowOf(identity, channels, i, rows[k]) ==> k in picks)
  }

  /** The events of the first `count` of these rows. */
  ghost predicate FirstEvents(rows: seq<Row>, picks: seq<nat>, count: int, events: seq<Event>)
    requires forall m :: 0 <= m < |picks| ==> picks[m] < |rows| && rows[picks[m]].Usable?
  {
    && |events| == (if count <= 0 then 0 else if count < |picks| then count else |picks|)
    && forall m :: 0 <= m < |events| ==> events[m] == rows[picks[m]].event
  }

  lemma {:induction false} TargetIs(identity: Identity, channels: seq<Listed>, sref: string, i: nat)
    ensures Target(identity, Srefs(Blank(channels)), sref) == Some(i) <==> Belongs(identity, channels, i, sref)
  {
    var srefs := Srefs(Blank(channels));
    var same := Identities(identity, srefs);
    assert forall j :: 0 <= j < |channels| ==> srefs[j] == channels[j].sref && same[j] == identity(channels[j].sref);
    var spelled, alike := FirstOf(srefs, sref), FirstOf(same, identity(sref));
    if spelled.Some? {
      assert channels[spelled.value].sref == sref;
    } else {
      assert forall j :: 0 <= j < |channels| ==> srefs[j] in srefs;
      assert forall j :: 0 <= j < |channels| ==> same[j] in same;
    }
  }

  lemma {:induction false} OneRowMore(identity: Identity, listed: seq<Listed>, channels: seq<Channel>, count: int,
      row: Row, i: nat)
    requires i < |channels| == |listed| && Srefs(channels) == Srefs(Blank(listed))
    ensures var after := AddRow(identity, channels, count, row)[i];
      && after.sref == channels[i].sref && after.name == channels[i].name
      && after.events == if RowOf(identity, listed, i, row) && |channels[i].events| < count
                         then channels[i].events + [row.event] else channels[i].events
  {
    if row.Usable? {
      hide Target, Belongs;
      forall j: nat ensures Target(identity, Srefs(Blank(listed)), row.sref) == Some(j) <==>
        Belongs(identity, listed, j, row.sref)
      {
        TargetIs(identity, listed, row.sref, j);
      }
    }
  }

  lemma {:induction false} OnePlaceMore(before: seq<nat>, n: nat, k: nat)
    ensures k in before + [n] <==> k in before || k == n
  {
    if k == n { assert (before + [n])[|before|] == k; }
    if k in before {
      var m :| 0 <= m < |before| && before[m] == k;
      assert (before + [n])[m] == k;
    }
  }

  lemma {:induction false} OnePickMore(identity: Identity, channels: seq<Listed>, rows: seq<Row>, i: nat,
      picks: seq<nat>)
    requires rows != [] && Picks(identity, channels, rows[..|rows| - 1], i, picks)
    ensures var n := |rows| - 1;
      Picks(identity, channels, rows, i, if RowOf(identity, channels, i, rows[n]) then picks + [n] else picks)
  {
    hide RowOf;
    var n := |rows| - 1;
    var more := if RowOf(identity, channels, i, rows[n]) then picks + [n] else picks;
    assert forall k :: 0 <= k < n ==> rows[..n][k] == rows[k];
    assert forall m :: 0 <= m < |picks| ==> more[m] == picks[m];
    forall k: nat | k < |rows| && RowOf(identity, channels, i, rows[k]) ensures k in more {
      if k < n { assert RowOf(identity, channels, i, rows[..n][k]); }
      OnePlaceMore(picks, n, k);
    }
  }

  lemma {:induction false} OneEventMore(rows: seq<Row>, picks: seq<nat>, count: int, events: seq<Event>)
    requires rows != [] && rows[|rows| - 1].Usable?
    requires forall m :: 0 <= m < |picks| ==> picks[m] < |rows| - 1 && rows[picks[m]].Usable?
    requires FirstEvents(rows[..|rows| - 1], picks, count, events)
    ensures var n := |rows| - 1;
      FirstEvents(rows, picks + [n], count, if |events| < count then events + [rows[n].event] else events)
  {
  }

  /** The rows reach their channels in order, up to the cap. */
  lemma {:induction false} RowsReach(identity: Identity, listed: seq<Listed>, count: int, rows: seq<Row>, i: nat)
    returns (picks: seq<nat>)
    requires i < |listed|
    ensures Picks(identity, listed, rows, i, picks)
    ensures FirstEvents(rows, picks, count, AddRows(identity, Blank(listed), count, rows)[i].events)
    ensures AddRows(identity, Blank(listed), count, rows)[i].sref == listed[i].sref
    ensures AddRows(identity, Blank(listed), count, rows)[i].name == listed[i].name
  {
    hide AddRow, Belongs, Picks, FirstEvents;
    picks := [];
    if rows == [] {
      NothingReached(identity, listed, count, i);
    } else {
      var n := |rows| - 1;
      picks := RowsReach(identity, listed, count, rows[..n], i);
      PicksAreBefore(identity, listed, rows[..n], i, picks);
      var before := AddRows(identity, Blank(listed), count, rows[..n]);
      OneRowMore(identity, listed, before, count, rows[n], i);
      OnePickMore(identity, listed, rows, i, picks);
      FirstOfPrefix(rows, picks, count, before[i].events);
      if RowOf(identity, listed, i, rows[n]) {
        OneEventMore(rows, picks, count, before[i].events);
        picks := picks + [n];
      }
    }
  }

  lemma {:induction false} NothingReached(identity: Identity, listed: seq<Listed>, count: int, i: nat)
    requires i < |listed|
    ensures Picks(identity, listed, [], i, [])
    ensures FirstEvents([], [], count, AddRows(identity, Blank(listed), count, [])[i].events)
  {
  }

  lemma {:induction false} PicksAreBefore(identity: Identity, channels: seq<Listed>, rows: seq<Row>, i: nat,
      picks: seq<nat>)
    requires Picks(identity, channels, rows, i, picks)
    ensures forall m :: 0 <= m < |picks| ==> picks[m] < |rows| && rows[picks[m]].Usable?
  {
  }

  lemma {:induction false} FirstOfPrefix(rows: seq<Row>, picks: seq<nat>, count: int, events: seq<Event>)
    requires rows != []
    requires forall m :: 0 <= m < |picks| ==> picks[m] < |rows| - 1 && rows[..|rows| - 1][picks[m]].Usable?
    requires FirstEvents(rows[..|rows| - 1], picks, count, events)
    ensures (forall m :: 0 <= m < |picks| ==> rows[picks[m]].Usable?) && FirstEvents(rows, picks, count, events)
  {
  }

  // ---------------------------------------------------------------- the order of a channel's events

  /** The events that begin at a time, in order. */
  function AtTime(events: seq<Event>, time: int): seq<Event> {
    if events == [] then []
    else
      var n := |events| - 1;
      AtTime(events[..n], time) + if events[n].begin == time then [events[n]] else []
  }

  lemma {:induction false} AtTimeHolds(events: seq<Event>, time: int, e: Event)
    ensures multiset(AtTime(events, time))[e] == if e.begin == time then multiset(events)[e] else 0
  {
    if events == [] {
    } else {
      var n := |events| - 1;
      AtTimeHolds(events[..n], time, e);
      assert events == events[..n] + [events[n]];
    }
  }

  lemma {:induction false} InsertIsStable(e: Event, events: seq<Event>, time: int)
    requires InOrder(events)
    ensures AtTime(InsertEvent(e, events), time) == AtTime(events, time) + if e.begin == time then [e] else []
  {
    var n := |events| - 1;
    if events == [] || events[n].begin <= e.begin {
      assert (events + [e])[..|events|] == events;
    } else {
      var rest, last := InsertEvent(e, events[..n]), [events[n]];
      InsertIsStable(e, events[..n], time);
      assert (rest + last)[..|rest|] == rest;
      NoneLater(events[..n], e, events[n], time);
    }
  }

  lemma {:induction false} NoneLater(events: seq<Event>, e: Event, last: Event, time: int)
    requires e.begin < last.begin
    ensures var so := AtTime(events, time);
      var one, other := if e.begin == time then [e] else [], if last.begin == time then [last] else [];
      (so + one) + other == (so + other) + one
  {
  }

  /** Events that begin at the same time keep their order. */
  lemma {:induction false} SortIsStable(events: seq<Event>, time: int)
    ensures AtTime(SortEvents(events), time) == AtTime(events, time)
  {
    if events == [] {
    } else {
      var n := |events| - 1;
      SortIsStable(events[..n], time);
      SortOrders(events[..n]);
      InsertIsStable(events[n], SortEvents(events[..n]), time);
    }
  }

  // ---------------------------------------------------------------- the grid

  lemma {:induction false} EventsFromRows(identity: Identity, listed: seq<Listed>, count: int, rows: seq<Row>, i: nat)
    returns (picks: seq<nat>, events: seq<Event>)
    requires i < |listed|
    ensures Picks(identity, listed, rows, i, picks)
    ensures (forall m :: 0 <= m < |picks| ==> picks[m] < |rows| && rows[picks[m]].Usable?)
      && FirstEvents(rows, picks, count, events)
    ensures var c := BuiltFrom(identity, listed, count, rows)[i];
      && c.sref == listed[i].sref && c.name == listed[i].name
      && multiset(c.events) == multiset(events)
      && (forall m, n :: 0 <= m < n < |c.events| ==> c.events[m].begin <= c.events[n].begin)
      && forall time :: AtTime(c.events, time) == AtTime(events, time)
  {
    hide Picks, FirstEvents, AddRows, SortEvents, AtTime;
    picks := RowsReach(identity, listed, count, rows, i);
    PicksAreBefore(identity, listed, rows, i, picks);
    events := AddRows(identity, Blank(listed), count, rows)[i].events;
    SortOrders(events);
    forall time ensures AtTime(SortEvents(events), time) == AtTime(events, time) {
      SortIsStable(events, time);
    }
  }

  /**
   Channel `i` of a built grid: the events of the first `count` rows that belong to it, by the time they begin, those
   that begin together in the order of their rows. `picks` are the places of the rows that belong to it.
   */
  lemma {:induction false} BuiltFromRows(identity: Identity, listed: seq<Listed>, count: int, rows: seq<Row>, i: nat)
    returns (picks: seq<nat>, events: seq<Event>)
    requires i < |listed|
    ensures forall k: nat ::
              k in picks <==> k < |rows| && rows[k].Usable? && Belongs(identity, listed, i, rows[k].sref)
    ensures forall m, n :: 0 <= m < n < |picks| ==> picks[m] < picks[n]
    ensures |events| == if count <= 0 then 0 else if count < |picks| then count else |picks|
    ensures forall m :: 0 <= m < |events| ==> picks[m] < |rows| && events[m] == rows[picks[m]].event
    ensures var c := BuiltFrom(identity, listed, count, rows)[i];
      && c.sref == listed[i].sref && c.name == listed[i].name
      && multiset(c.events) == multiset(events)
      && (forall m, n :: 0 <= m < n < |c.events| ==> c.events[m].begin <= c.events[n].begin)
      && forall time :: AtTime(c.events, time) == AtTime(events, time)
  {
    hide Belongs, BuiltFrom, AtTime;
    picks, events := EventsFromRows(identity, listed, count, rows, i);
    forall k: nat | k in picks
      ensures k < |rows| && rows[k].Usable? && Belongs(identity, listed, i, rows[k].sref)
    {
      var m :| 0 <= m < |picks| && picks[m] == k;
      assert RowOf(identity, listed, i, rows[picks[m]]);
    }
    forall k: nat | k < |rows| && rows[k].Usable? && Belongs(identity, listed, i, rows[k].sref) ensures k in picks {
      assert RowOf(identity, listed, i, rows[k]);
    }
  }

  /** The one-shot build: the rows of one lookup of all references, over 90 minutes an event and an hour. */
  lemma {:induction false} BuiltFromLookup(identity: Identity, lookup: Lookup, listed: seq<Listed>, count: int)
    ensures |Built(identity, lookup, listed, count)| == |listed|
    ensures Built(identity, lookup, listed, count) ==
            BuiltFrom(identity, listed, count,
                      lookup(seq(|listed|, i requires 0 <= i < |listed| => listed[i].sref), count * 90 + 60))
  {
    assert Srefs(Blank(listed)) == seq(|listed|, i requires 0 <= i < |listed| => listed[i].sref);
  }

  // ---------------------------------------------------------------- built in batches

  /** `services` are these places' references, one for one. */
  ghost predicate ServicesAt(srefs: seq<string>, places: seq<nat>, services: seq<string>) {
    |services| == |places|
    && forall m :: 0 <= m < |places| ==> places[m] < |srefs| && services[m] == srefs[places[m]]
  }

  lemma {:induction false} AnsweredPlaces(srefs: seq<string>, end: nat, raised: set<nat>) returns (places: seq<nat>)
    requires end <= |srefs|
    ensures ServicesAt(srefs, places, Answered(srefs, end, raised))
    ensures forall m, n :: 0 <= m < n < |places| ==> places[m] < places[n]
    ensures forall k: nat :: k in places <==> k < end && k !in raised
  {
    if end == 0 {
      places := [];
    } else {
      var n := end - 1;
      var before := AnsweredPlaces(srefs, n, raised);
      if n in raised {
        places := before;
      } else {
        places := before + [n];
        forall k: nat ensures k in places <==> k in before || k == n { OnePlaceMore(before, n, k); }
        forall m | 0 <= m < |before| ensures before[m] < n { assert before[m] in before; }
      }
    }
  }

  /**
   The grid that the steps through a bouquet give: of one lookup, over 90 minutes an event and an hour, of the channels
   whose batch of four did not raise.
   */
  lemma {:induction false} BuiltInBatches(identity: Identity, lookup: Lookup, bouquet: Bouquet, count: int, now: int,
      raises: nat -> bool)
    returns (places: seq<nat>, services: seq<string>)
    ensures forall k: nat :: k in places <==> k < |bouquet.channels| && !(count > 0 && raises(k / 4))
    ensures forall m, n :: 0 <= m < n < |places| ==> places[m] < places[n]
    ensures |services| == |places|
    ensures forall m :: 0 <= m < |places| ==>
              places[m] < |bouquet.channels| && services[m] == bouquet.channels[places[m]].sref
    ensures GridOf(identity, lookup, AfterAll(bouquet, count, now, raises)) ==
            Grid(bouquet.name, now, count,
                 BuiltFrom(identity, bouquet.channels, count, lookup(services, count * 90 + 60)))
  {
    hide BuiltFrom;
    var srefs := Srefs(Blank(bouquet.channels));
    var raised := AfterAll(bouquet, count, now, raises).raised;
    places := AnsweredPlaces(srefs, |srefs|, raised);
    services := Answered(srefs, |srefs|, raised);
  }

  // ---------------------------------------------------------------- a lookup that answers channel by channel

  function Concat(answer: (string, int) -> seq<Row>, srefs: seq<string>, minutes: int): seq<Row> {
    if srefs == [] then []
    else Concat(answer, srefs[..|srefs| - 1], minutes) + answer(srefs[|srefs| - 1], minutes)
  }

  lemma {:induction false} ConcatAdds(answer: (string, int) -> seq<Row>, a: seq<string>, b: seq<string>, minutes: int)
    ensures Concat(answer, a + b, minutes) == Concat(answer, a, minutes) + Concat(answer, b, minutes)
  {
    if b == [] {
      assert a + b == a;
    } else {
      ConcatAdds(answer, a, b[..|b| - 1], minutes);
      assert (a + b)[..|a + b| - 1] == a + b[..|b| - 1] && (a + b)[|a + b| - 1] == b[|b| - 1];
      assert Concat(answer, a + b, minutes) ==
             Concat(answer, a + b[..|b| - 1], minutes) + answer(b[|b| - 1], minutes);
    }
  }

  /** Whatever each channel's own rows are, there is such a lookup that answers with them. */
  lemma {:induction false} ChannelByChannel(answer: (string, int) -> seq<Row>) returns (lookup: Lookup)
    ensures Distributes(lookup) && forall sref, minutes :: lookup([sref], minutes) == answer(sref, minutes)
  {
    lookup := (srefs, minutes) => Concat(answer, srefs, minutes);
    forall a, b, minutes ensures lookup(a + b, minutes) == lookup(a, minutes) + lookup(b, minutes) {
      ConcatAdds(answer, a, b, minutes);
    }
    forall sref, minutes ensures lookup([sref], minutes) == answer(sref, minutes) {
      var none: seq<string> := [];
      assert [sref][..|[sref]| - 1] == none && Concat(answer, none, minutes) == [];
      assert Concat(answer, [sref], minutes) == [] + answer(sref, minutes);
    }
  }
}
