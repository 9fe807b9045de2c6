/** What holds in every reachable state of the standby workaround. */
module CecProofs {
  import opened Options
  import opened CecSpec

  // ---------------------------------------------------------------- the invariants

  ghost predicate DistinctItems(queue: seq<Item>) {
    forall i, j :: 0 <= i < j < |queue| ==> queue[i].id != queue[j].id
  }

  ghost predicate DistinctTracked(tracked: seq<Tracked>) {
    forall i, j :: 0 <= i < j < |tracked| ==> tracked[i].entry.id != tracked[j].entry.id
  }

  ghost predicate TrackedFrom(tracked: seq<Tracked>, ids: set<nat>) {
    forall t :: t in tracked ==> t.entry.id in ids
  }

  ghost predicate ItemsBelow(queue: seq<Item>, bound: nat) {
    forall item :: item in queue ==> item.id < bound
  }

  ghost predicate IdsBelow(ids: set<nat>, bound: nat) {
    forall id :: id in ids ==> id < bound
  }

  /** Every entry is its own object, and the module follows only what the television queued. */
  ghost predicate Identities(queue: seq<Item>, queued: seq<Tracked>, fromTv: set<nat>, nextId: nat) {
    && DistinctItems(queue) && DistinctTracked(queued) && TrackedFrom(queued, fromTv)
    && ItemsBelow(queue, nextId) && IdsBelow(fromTv, nextId)
  }

  /**
   The flag reads `HELD` only while a hold is recorded, a hold has its
   deadline, and what it puts back is the image's own.
   */
  ghost predicate Flags(flags: map<nat, Flag>, hold: Option<Hold>, holding: bool) {
    && (forall i :: i in flags ==> flags[i] != FromTv)
    && (forall i :: i in flags && flags[i] == Held ==> hold.Some? && hold.value.instance == i)
    && (hold.Some? ==> holding && hold.value.previous != Held && hold.value.previous != FromTv)
  }

  /**
   No standby is counted twice: what is counted and what is still followed
   were all identified, each queued by the television.
   */
  ghost predicate Accounts(count: nat, queued: seq<Tracked>, identified: nat, fromTv: set<nat>) {
    count + |queued| <= identified <= |fromTv|
  }

  ghost predicate Valid(s: State) {
    && Identities(s.image.queue, s.watch.queued, s.image.fromTv, s.image.nextId)
    && Flags(s.image.flags, s.watch.hold, s.watch.holding)
    && Accounts(s.report.count, s.watch.queued, s.watch.identified, s.image.fromTv)
  }

  /** A module just started on an image whose flag nobody of this module has touched. */
  ghost predicate Start(s: State) {
    && s.watch.queued == [] && s.watch.hold.None? && s.watch.identified == 0 && s.report.count == 0
    && s.image.fromTv == {} && DistinctItems(s.image.queue) && ItemsBelow(s.image.queue, s.image.nextId)
    && forall i :: i in s.image.flags ==> s.image.flags[i] != FromTv && s.image.flags[i] != Held
  }

  /** Such as one with nothing in its queue and no flag set. */
  lemma {:induction false} StartExists()
    ensures Start(State(Image([], map[], Some(0), 0, {}), Watch(true, [], 0, None, false, false, false),
                        Report(0, None, None)))
  {
  }

  // ---------------------------------------------------------------- the queue

  lemma {:induction false} WithoutMembers(queue: seq<Item>, id: nat)
    requires DistinctItems(queue)
    ensures DistinctItems(Without(queue, id))
    ensures forall item :: item in Without(queue, id) <==> item in queue && item.id != id
  {
    if queue == [] {
    } else {
      var rest := queue[1..];
      assert queue == [queue[0]] + rest;
      if queue[0].id == id {
        assert forall i :: 0 <= i < |rest| ==> rest[i] == queue[i + 1];
      } else {
        WithoutMembers(rest, id);
        PrefixedIsDistinct(queue[0], rest, Without(rest, id));
      }
    }
  }

  lemma {:induction false} GoneFromQueue(queue: seq<Item>, id: nat)
    requires DistinctItems(queue)
    ensures !Queued(Without(queue, id), id)
  {
    WithoutMembers(queue, id);
    forall i | 0 <= i < |Without(queue, id)| ensures Without(queue, id)[i].id != id {
      assert Without(queue, id)[i] in Without(queue, id);
    }
  }

  lemma {:induction false} PrefixedIsDistinct(first: Item, rest: seq<Item>, fewer: seq<Item>)
    requires DistinctItems([first] + rest) && DistinctItems(fewer) && forall item :: item in fewer ==> item in rest
    ensures DistinctItems([first] + fewer)
  {
    var whole := [first] + rest;
    forall i | 0 <= i < |fewer| ensures fewer[i].id != first.id {
      assert fewer[i] in rest;
      var k :| 0 <= k < |rest| && rest[k] == fewer[i];
      assert whole[0].id != whole[k + 1].id;
    }
  }

  lemma {:induction false} WithoutAllMembers(queue: seq<Item>, tracked: seq<Tracked>)
    requires DistinctItems(queue)
    ensures DistinctItems(WithoutAll(queue, tracked))
    ensures forall item :: item in WithoutAll(queue, tracked) <==>
      item in queue && forall i :: 0 <= i < |tracked| ==> tracked[i].entry.id != item.id
    decreases |tracked|
  {
    if tracked == [] {
    } else {
      WithoutMembers(queue, tracked[0].entry.id);
      WithoutAllMembers(Without(queue, tracked[0].entry.id), tracked[1..]);
      assert forall i :: 0 < i < |tracked| ==> tracked[i] == tracked[1..][i - 1];
      assert forall i :: 0 <= i < |tracked| - 1 ==> tracked[1..][i] == tracked[i + 1];
    }
  }

  /** The entries the household queued, in order. */
  function Household(queue: seq<Item>, fromTv: set<nat>): seq<Item> {
    if queue == [] then []
    else if queue[0].id in fromTv then Household(queue[1..], fromTv)
    else [queue[0]] + Household(queue[1..], fromTv)
  }

  lemma {:induction false} WithoutSparesHousehold(queue: seq<Item>, id: nat, fromTv: set<nat>)
    requires id in fromTv
    ensures Household(Without(queue, id), fromTv) == Household(queue, fromTv)
  {
    if queue != [] && queue[0].id != id {
      WithoutSparesHousehold(queue[1..], id, fromTv);
      var rest := Without(queue[1..], id);
      assert ([queue[0]] + rest)[1..] == rest;
    }
  }

  lemma {:induction false} WithoutAllSparesHousehold(queue: seq<Item>, tracked: seq<Tracked>, fromTv: set<nat>)
    requires TrackedFrom(tracked, fromTv)
    ensures Household(WithoutAll(queue, tracked), fromTv) == Household(queue, fromTv)
    decreases |tracked|
  {
    if tracked == [] {
    } else {
      WithoutSparesHousehold(queue, tracked[0].entry.id, fromTv);
      WithoutAllSparesHousehold(Without(queue, tracked[0].entry.id), tracked[1..], fromTv);
    }
  }

  // ---------------------------------------------------------------- sublists of what is followed

  ghost predicate Part(some: seq<Tracked>, tracked: seq<Tracked>) {
    |some| <= |tracked| && forall t :: t in some ==> t in tracked
  }

  lemma {:induction false} StillWaitingIsPart(tracked: seq<Tracked>, queue: seq<Item>)
    requires DistinctTracked(tracked)
    ensures Part(StillWaiting(tracked, queue), tracked) && DistinctTracked(StillWaiting(tracked, queue))
  {
    if tracked == [] {
    } else {
      var rest := StillWaiting(tracked[1..], queue);
      StillWaitingIsPart(tracked[1..], queue);
      assert forall t :: t in tracked <==> t == tracked[0] || t in tracked[1..];
      forall i | 0 <= i < |rest| ensures rest[i].entry.id != tracked[0].entry.id {
        assert rest[i] in tracked[1..];
      }
    }
  }

  lemma {:induction false} WaitingIsPart(tracked: seq<Tracked>, queue: seq<Item>)
    ensures Part(Waiting(tracked, queue), tracked)
    ensures forall t :: t in Waiting(tracked, queue) <==> t in tracked && Queued(queue, t.entry.id)
    ensures |Waiting(tracked, queue)| + |Carried(tracked, queue)| == |tracked|
  {
    if tracked == [] {
    } else {
      WaitingIsPart(tracked[1..], queue);
      assert forall t :: t in tracked <==> t == tracked[0] || t in tracked[1..];
    }
  }

  lemma {:induction false} FindExactly(tracked: seq<Tracked>, id: nat)
    ensures Find(tracked, id).Some? ==> Find(tracked, id).value in tracked && Find(tracked, id).value.entry.id == id
    ensures Find(tracked, id).None? ==> forall t :: t in tracked ==> t.entry.id != id
    ensures |Untracked(tracked, id)| == if Find(tracked, id).Some? then |tracked| - 1 else |tracked|
  {
    if tracked == [] {
    } else {
      FindExactly(tracked[1..], id);
      assert forall t :: t in tracked <==> t == tracked[0] || t in tracked[1..];
    }
  }

  lemma {:induction false} UntrackedIsPart(tracked: seq<Tracked>, id: nat)
    requires DistinctTracked(tracked)
    ensures Part(Untracked(tracked, id), tracked) && DistinctTracked(Untracked(tracked, id))
    ensures forall t :: t in Untracked(tracked, id) ==> t.entry.id != id
  {
    if tracked == [] {
    } else {
      var rest := tracked[1..];
      assert forall t :: t in tracked <==> t == tracked[0] || t in rest;
      assert forall i :: 0 <= i < |rest| ==> rest[i] == tracked[i + 1];
      if tracked[0].entry.id != id {
        UntrackedIsPart(rest, id);
        var shorter := Untracked(rest, id);
        forall i | 0 <= i < |shorter| ensures shorter[i].entry.id != tracked[0].entry.id { assert shorter[i] in rest; }
      }
    }
  }

  // ---------------------------------------------------------------- every step keeps the invariants

  lemma {:induction false} DrainedKeeps(queue: seq<Item>, n: nat)
    requires DistinctItems(queue)
    ensures DistinctItems(Drained(queue, n)) && forall item :: item in Drained(queue, n) ==> item in queue
    ensures Drained(queue, n) != [] ==> queue != [] && Drained(queue, n)[|Drained(queue, n)| - 1] == queue[|queue| - 1]
  {
  }

  lemma {:induction false} JoinedKeeps(image: Image, standby: bool, content: string, n: nat)
    requires DistinctItems(image.queue) && ItemsBelow(image.queue, image.nextId)
    ensures var joined := Joined(image, standby, content, n);
      && DistinctItems(joined.queue) && ItemsBelow(joined.queue, joined.nextId)
      && (joined.queue != [] ==> joined.queue[|joined.queue| - 1] == Item(image.nextId, standby, content))
      && (joined.queue != [] <==> n <= |image.queue|)
  {
  }

  lemma {:induction false} NoticedKeeps(image: Image, watch: Watch)
    requires DistinctTracked(watch.queued) && TrackedFrom(watch.queued, image.fromTv)
    requires InBracket(image) && image.queue != [] ==> image.queue[|image.queue| - 1].id in image.fromTv
    ensures var w := Noticed(image, watch);
      && DistinctTracked(w.queued) && TrackedFrom(w.queued, image.fromTv)
      && w.identified - |w.queued| == watch.identified - |watch.queued| && w.identified <= watch.identified + 1
      && w.hold == watch.hold && w.holding == watch.holding
      && (!InBracket(image) ==> w == watch)
  {
  }

  lemma {:induction false} TvBracketKeeps(s: State, content: string, before: nat, after: nat)
    requires Valid(s)
    ensures Valid(TvBracket(s, content, before, after))
  {
    if s.image.instance.Some? {
      var image := Bracketed(s.image, s.image.instance.value);
      var joined := Joined(image, true, content, before);
      JoinedKeeps(image, true, content, before);
      NoticedKeeps(joined, s.watch);
      DrainedKeeps(joined.queue, after);
      assert s.image.nextId !in s.image.fromTv;
    }
  }

  lemma {:induction false} NotificationKeeps(s: State, standby: bool, content: string, before: nat, after: nat)
    requires Valid(s)
    ensures Valid(Added(s, standby, content, before, after))
    ensures Added(s, standby, content, before, after).watch == s.watch
  {
  }

  lemma {:induction false} MarkedKeeps(tracked: seq<Tracked>, closedAt: Option<int>, ids: set<nat>)
    requires DistinctTracked(tracked) && TrackedFrom(tracked, ids)
    ensures DistinctTracked(Marked(tracked, closedAt)) && TrackedFrom(Marked(tracked, closedAt), ids)
  {
  }

  lemma {:induction false} StartHoldKeeps(image: Image, hold: Option<Hold>, holding: bool)
    requires Flags(image.flags, hold, holding)
    ensures var started := StartedHold(image, hold);
      Flags(HeldFlags(image.flags, started), started, holding || started.Some?)
  {
  }

  lemma {:induction false} PutBackKeeps(flags: map<nat, Flag>, hold: Option<Hold>, holding: bool)
    requires Flags(flags, hold, holding)
    ensures Flags(PutBack(flags, hold), None, false)
  {
  }

  lemma {:induction false} ActKeeps(s: State, dialog: Dialog, now: int)
    requires Valid(s)
    ensures Valid(ActNow(s, dialog, now))
  {
    var waiting := StillWaiting(s.watch.queued, s.image.queue);
    StillWaitingIsPart(s.watch.queued, s.image.queue);
    MarkedKeeps(waiting, ClosedAt(dialog, now), s.image.fromTv);
    StartHoldKeeps(s.image, s.watch.hold, s.watch.holding);
  }

  lemma {:induction false} SettledCounts(report: Report, carried: seq<Tracked>, waiting: seq<Tracked>, now: int)
    ensures report.count <= Settled(report, carried, waiting, now).count <= report.count + 1
    ensures Settled(report, carried, waiting, now).count == report.count + 1 ==> |carried| + |waiting| > 0
  {
  }

  lemma {:induction false} AfterStandbyKeeps(s: State, now: int)
    requires Valid(s)
    ensures Valid(AfterStandby(s, now))
    ensures AfterStandby(s, now).report.count == s.report.count + 1 ==> s.watch.queued != []
  {
    var carried, waiting := Carried(s.watch.queued, s.image.queue), Waiting(s.watch.queued, s.image.queue);
    WithoutAllMembers(s.image.queue, waiting);
    PutBackKeeps(s.image.flags, s.watch.hold, s.watch.holding);
    WaitingIsPart(s.watch.queued, s.image.queue);
    SettledCounts(s.report, carried, waiting, now);
  }

  lemma {:induction false} StaleKeeps(s: State, id: nat, now: int)
    requires Valid(s)
    ensures Valid(StaleNow(s, id, now))
  {
    FindExactly(s.watch.queued, id);
    UntrackedIsPart(s.watch.queued, id);
    WithoutMembers(s.image.queue, id);
  }

  /** Every step keeps every invariant. */
  lemma {:induction false} StepKeeps(s: State, event: Event)
    requires Valid(s)
    ensures Valid(Step(s, event))
  {
    match event
    case TvStandby(content, before, after) => TvBracketKeeps(s, content, before, after);
    case Notification(standby, content, before, after) => NotificationKeeps(s, standby, content, before, after);
    case Drain(n) => DrainedKeeps(s.image.queue, n);
    case Replace(_) =>
    case CounterMoved =>
    case Act(dialog, now) => ActKeeps(s, dialog, now);
    case Settle(now) => AfterStandbyKeeps(s, now);
    case Stale(id, now) => StaleKeeps(s, id, now);
    case HoldExpired => PutBackKeeps(s.image.flags, s.watch.hold, s.watch.holding);
    case Stop => PutBackKeeps(s.image.flags, s.watch.hold, s.watch.holding);
  }

  /** In every reachable state; what was counted and what is followed were identified, and queued by the television. */
  lemma {:induction false} Reachable(s: State, events: seq<Event>)
    requires Start(s)
    ensures Valid(Run(s, events))
    ensures var t := Run(s, events);
      t.report.count + |t.watch.queued| <= t.watch.identified <= |t.image.fromTv|
  {
    if events == [] {
    } else {
      Reachable(s, events[..|events| - 1]);
      StepKeeps(Run(s, events[..|events| - 1]), events[|events| - 1]);
    }
  }

  // ---------------------------------------------------------------- the household's entries

  /** What the module does, as against what the image does. */
  predicate OfModule(event: Event) {
    event.CounterMoved? || event.Act? || event.Settle? || event.Stale? || event.HoldExpired? || event.Stop?
  }

  /** Nothing the module does touches an entry the household queued, however equal it is to the television's. */
  lemma {:induction false} HouseholdIsSpared(s: State, event: Event)
    requires Valid(s) && OfModule(event)
    ensures Household(Step(s, event).image.queue, s.image.fromTv) == Household(s.image.queue, s.image.fromTv)
  {
    match event
    case Settle(now) =>
      var waiting := Waiting(s.watch.queued, s.image.queue);
      WaitingIsPart(s.watch.queued, s.image.queue);
      WithoutAllSparesHousehold(s.image.queue, waiting, s.image.fromTv);
    case Stale(id, now) =>
      FindExactly(s.watch.queued, id);
      if Find(s.watch.queued, id).Some? { WithoutSparesHousehold(s.image.queue, id, s.image.fromTv); }
    case _ =>
  }

  /** An entry the module takes off the queue is one it followed, queued by the television. */
  lemma {:induction false} RemovedWasFollowed(s: State, event: Event, item: Item) returns (t: Tracked)
    requires Valid(s) && OfModule(event) && item in s.image.queue && item !in Step(s, event).image.queue
    ensures t in s.watch.queued && t.entry.id == item.id && item.id in s.image.fromTv
  {
    if event.Settle? {
      var waiting := Waiting(s.watch.queued, s.image.queue);
      WithoutAllMembers(s.image.queue, waiting);
      var j :| 0 <= j < |waiting| && waiting[j].entry.id == item.id;
      WaitingIsPart(s.watch.queued, s.image.queue);
      t := waiting[j];
    } else {
      assert event.Stale?;
      WithoutMembers(s.image.queue, event.id);
      FindExactly(s.watch.queued, event.id);
      t := Find(s.watch.queued, event.id).value;
    }
  }

  /** A notification of the household's is never followed, not even a standby while the flag is held. */
  lemma {:induction false} HouseholdIsNeverFollowed(s: State, standby: bool, content: string, before: nat, after: nat)
    requires Valid(s)
    ensures var next := Step(s, Notification(standby, content, before, after));
      next.watch == s.watch && s.image.nextId !in next.image.fromTv && s.image.nextId < next.image.nextId
  {
  }

  /** The television's standby is followed exactly when the info bar has not taken it by the module's turn. */
  lemma {:induction false} TvIsFollowed(s: State, content: string, before: nat, after: nat)
    requires Valid(s) && s.watch.bound && s.image.instance.Some?
    ensures Step(s, TvStandby(content, before, after)).watch.queued ==
      if before <= |s.image.queue| then s.watch.queued + [Tracked(Item(s.image.nextId, true, content), false, None)]
      else s.watch.queued
  {
    var image := Bracketed(s.image, s.image.instance.value);
    JoinedKeeps(image, true, content, before);
    forall k | 0 <= k < |s.watch.queued| ensures s.watch.queued[k].entry.id != s.image.nextId {
      assert s.watch.queued[k] in s.watch.queued;
    }
  }

  // ---------------------------------------------------------------- once the receiver is in standby

  /**
   When the counter has settled nothing is followed, nothing the television asked for is left, and the flag is back.
   */
  lemma {:induction false} SettledIsClear(s: State, now: int, t: Tracked)
    requires Valid(s) && s.watch.settling && t in s.watch.queued
    ensures var after := Step(s, Settle(now));
      after.watch.queued == [] && !Queued(after.image.queue, t.entry.id) && after.watch.hold.None?
  {
    WaitingIsPart(s.watch.queued, s.image.queue);
    LeavesNone(s.image.queue, Waiting(s.watch.queued, s.image.queue), t);
  }

  lemma {:induction false} LeavesNone(queue: seq<Item>, waiting: seq<Tracked>, t: Tracked)
    requires DistinctItems(queue) && (Queued(queue, t.entry.id) ==> t in waiting)
    ensures !Queued(WithoutAll(queue, waiting), t.entry.id)
  {
    var left := WithoutAll(queue, waiting);
    WithoutAllMembers(queue, waiting);
    forall i | 0 <= i < |left| ensures left[i].id != t.entry.id { NoneLeft(queue, waiting, t, left[i]); }
  }

  lemma {:induction false} NoneLeft(queue: seq<Item>, waiting: seq<Tracked>, t: Tracked, item: Item)
    requires Queued(queue, t.entry.id) ==> t in waiting
    requires item in queue && forall i :: 0 <= i < |waiting| ==> waiting[i].entry.id != item.id
    ensures item.id != t.entry.id
  {
  }

  /** At its deadline a standby is off the queue and no longer followed. */
  lemma {:induction false} StaleIsGone(s: State, id: nat, now: int)
    requires Valid(s) && Find(s.watch.queued, id).Some?
    ensures !Queued(Step(s, Stale(id, now)).image.queue, id)
    ensures forall t :: t in Step(s, Stale(id, now)).watch.queued ==> t.entry.id != id
  {
    GoneFromQueue(s.image.queue, id);
    UntrackedIsPart(s.watch.queued, id);
  }

  /** What a step counts, it has stopped following: one standby, at most one intervention. */
  lemma {:induction false} CountedIsForgotten(s: State, event: Event)
    requires Valid(s)
    ensures s.report.count <= Step(s, event).report.count <= s.report.count + 1
    ensures Step(s, event).report.count == s.report.count + 1 ==> |Step(s, event).watch.queued| < |s.watch.queued|
  {
    match event
    case Settle(now) =>
      SettledCounts(s.report, Carried(s.watch.queued, s.image.queue), Waiting(s.watch.queued, s.image.queue), now);
      AfterStandbyKeeps(s, now);
    case Stale(id, now) => FindExactly(s.watch.queued, id);
    case _ =>
  }

  // ---------------------------------------------------------------- the hold

  /** A bracket of the television's around the flag that is held. */
  predicate BracketOnHold(s: State, event: Event) {
    event.TvStandby? && s.watch.hold.Some? && s.image.instance == Some(s.watch.hold.value.instance)
  }

  /** The list behind which a standby of the television's waits is closed. */
  predicate Closes(s: State, event: Event) {
    && event.Act? && event.dialog.ChannelList? && s.watch.acting
    && !AllActed(StillWaiting(s.watch.queued, s.image.queue))
  }

  /**
   While a hold lasts it is the same hold. Its flag reads `HELD` after a step exactly when the step closed the list,
   or when it did before and the step is no bracket on the held flag.
   */
  lemma {:induction false} HoldLasts(s: State, event: Event)
    requires Valid(s) && Step(s, event).watch.hold.Some?
    ensures s.watch.hold.Some? ==> Step(s, event).watch.hold == s.watch.hold
    ensures var instance := Step(s, event).watch.hold.value.instance;
      FlagOf(Step(s, event).image, instance) == Held <==>
        Closes(s, event) || (s.watch.hold.Some? && FlagOf(s.image, instance) == Held && !BracketOnHold(s, event))
  {
    if event.Notification? { NotificationKeeps(s, event.standby, event.content, event.before, event.after); }
  }

  ghost predicate HeldThroughout(s: State, events: seq<Event>) {
    && Run(s, events).watch.hold.Some?
    && (events != [] ==> HeldThroughout(s, events[..|events| - 1]))
  }

  lemma {:induction false} HoldIsRemembered(s: State, events: seq<Event>)
    requires Valid(s) && HeldThroughout(s, events)
    ensures Valid(Run(s, events)) && Run(s, events).watch.hold == s.watch.hold
  {
    if events == [] {
    } else {
      var n := |events| - 1;
      HoldIsRemembered(s, events[..n]);
      StepKeeps(Run(s, events[..n]), events[n]);
      HoldLasts(Run(s, events[..n]), events[n]);
    }
  }

  ghost predicate NoBracketOnHold(s: State, events: seq<Event>) {
    events != [] ==>
      var n := |events| - 1;
      NoBracketOnHold(s, events[..n]) && !BracketOnHold(Run(s, events[..n]), events[n])
  }

  /** As long as the television puts no bracket around the held flag, it reads `HELD` until the release. */
  lemma {:induction false} HeldWithoutBrackets(s: State, events: seq<Event>)
    requires Valid(s) && HeldThroughout(s, events) && NoBracketOnHold(s, events)
    requires s.watch.hold.Some? && FlagOf(s.image, s.watch.hold.value.instance) == Held
    ensures FlagOf(Run(s, events).image, s.watch.hold.value.instance) == Held
  {
    if events == [] {
    } else {
      var n := |events| - 1;
      HeldWithoutBrackets(s, events[..n]);
      HoldIsRemembered(s, events[..n]);
      HoldLasts(Run(s, events[..n]), events[n]);
    }
  }

  /** A release: the settled counter, the deadline, or the stop. */
  predicate Releases(s: State, event: Event) {
    (event.Settle? && s.watch.settling) || (event.HoldExpired? && s.watch.holding) || event.Stop?
  }

  /** Acting, when it starts a hold, starts it on the image's instance with the flag as it was. */
  lemma {:induction false} HoldStarts(s: State, dialog: Dialog, now: int)
    requires s.watch.hold.None? && Step(s, Act(dialog, now)).watch.hold.Some?
    ensures s.image.instance.Some?
    ensures Step(s, Act(dialog, now)).watch.hold ==
      Some(Hold(s.image.instance.value, FlagOf(s.image, s.image.instance.value)))
  {
  }

  lemma {:induction false} ReleaseGivesBack(s: State, release: Event)
    requires s.watch.hold.Some? && Releases(s, release)
    ensures Step(s, release).watch.hold.None?
    ensures FlagOf(Step(s, release).image, s.watch.hold.value.instance) == s.watch.hold.value.previous
  {
  }

  /**
   Whatever happens while the flag is held - further closes and the television's own brackets included - the release
   puts back the value the flag had before the hold, on the instance that was held.
   */
  lemma {:induction false} ReleasePutsBack(s: State, dialog: Dialog, now: int, events: seq<Event>, release: Event)
    requires Valid(s) && s.watch.hold.None? && HeldThroughout(Step(s, Act(dialog, now)), events)
    requires Releases(Run(Step(s, Act(dialog, now)), events), release)
    ensures s.image.instance.Some?
    ensures var held := Run(Step(s, Act(dialog, now)), events);
      && Step(held, release).watch.hold.None?
      && FlagOf(Step(held, release).image, s.image.instance.value) == FlagOf(s.image, s.image.instance.value)
  {
    var held := Step(s, Act(dialog, now));
    HeldAtStart(held, events);
    HoldStarts(s, dialog, now);
    StepKeeps(s, Act(dialog, now));
    HoldIsRemembered(held, events);
    ReleaseGivesBack(Run(held, events), release);
  }

  lemma {:induction false} HeldAtStart(s: State, events: seq<Event>)
    requires HeldThroughout(s, events)
    ensures s.watch.hold.Some?
  {
    if events == [] {
    } else {
      HeldAtStart(s, events[..|events| - 1]);
    }
  }

  /**
   Closing the list behind which a standby waits leaves the flag held,
   whatever a bracket has written over the hold since.
   */
  lemma {:induction false} ClosingHolds(s: State, raises: bool, now: int)
    requires Valid(s) && s.watch.acting && s.image.instance.Some?
      && !AllActed(StillWaiting(s.watch.queued, s.image.queue))
    ensures var after := Step(s, Act(ChannelList(raises), now));
      after.watch.hold.Some? && FlagOf(after.image, after.watch.hold.value.instance) == Held && after.watch.holding
  {
  }

  /**
   The echo is not always stopped: a second standby of the television's, while the list it closed is still closing.
   */
  function SecondStandby(content: string): seq<Event> {
    [TvStandby(content, 0, 0), Act(ChannelList(false), 0), TvStandby(content, 0, 0)]
  }

  lemma {:induction false} RunOfThree(s: State, a: Event, b: Event, c: Event)
    ensures Run(s, [a, b, c]) == Step(Step(Step(s, a), b), c)
  {
    hide Step;
    var none: seq<Event> := [];
    assert [a, b, c][..2] == [a, b] && [a, b][..1] == [a] && [a][..0] == none;
    assert Run(s, none) == s && Run(s, [a]) == Step(s, a) && Run(s, [a, b]) == Step(Step(s, a), b);
  }

  lemma {:induction false} BracketOverwrites(s: State, content: string)
    requires BracketOnHold(s, TvStandby(content, 0, 0))
    ensures FlagOf(Step(s, TvStandby(content, 0, 0)).image, s.watch.hold.value.instance) == Clear
    ensures Step(s, TvStandby(content, 0, 0)).watch.hold == s.watch.hold
  {
  }

  lemma {:induction false} FirstQueued(s: State, content: string)
    requires s.watch.bound && s.image.instance.Some?
    ensures Queued(Step(s, TvStandby(content, 0, 0)).image.queue, s.image.nextId)
  {
    hide Noticed;
    assert Step(s, TvStandby(content, 0, 0)).image.queue[|s.image.queue|].id == s.image.nextId;
  }

  lemma {:induction false} FirstActing(s: State, content: string)
    requires Start(s) && s.watch.bound && s.image.instance.Some?
    ensures var one := Step(s, TvStandby(content, 0, 0));
      one.watch.acting && one.watch.hold.None? && one.image.instance == s.image.instance
  {
  }

  lemma {:induction false} FirstStandby(s: State, content: string)
    requires Start(s) && s.watch.bound && s.image.instance.Some?
    ensures var one := Step(s, TvStandby(content, 0, 0));
      && Valid(one) && one.watch.acting && one.watch.hold.None? && one.image.instance == s.image.instance
      && !AllActed(StillWaiting(one.watch.queued, one.image.queue))
  {
    StartIsValid(s);
    hide Valid, StillWaiting, AllActed, Step;
    StepKeeps(s, TvStandby(content, 0, 0));
    TvIsFollowed(s, content, 0, 0);
    FirstQueued(s, content);
    FirstActing(s, content);
    OneWaits(Step(s, TvStandby(content, 0, 0)));
  }

  lemma {:induction false} HoldOverwritten(s: State, content: string)
    requires Start(s) && s.watch.bound && s.image.instance.Some?
    ensures var last := Run(s, SecondStandby(content));
      last.watch.hold.Some? && FlagOf(last.image, last.watch.hold.value.instance) == Clear
  {
    hide Run, StillWaiting, Valid, Start;
    var one := Step(s, TvStandby(content, 0, 0));
    RunOfThree(s, TvStandby(content, 0, 0), Act(ChannelList(false), 0), TvStandby(content, 0, 0));
    FirstStandby(s, content);
    ClosingHolds(one, false, 0);
    HoldStarts(one, ChannelList(false), 0);
    BracketOverwrites(Step(one, Act(ChannelList(false), 0)), content);
  }

  lemma {:induction false} StartIsValid(s: State)
    requires Start(s)
    ensures Valid(s)
  {
  }

  /** With one standby followed and not acted on, still in the queue, there is something to act on. */
  lemma {:induction false} OneWaits(s: State)
    requires |s.watch.queued| == 1 && !s.watch.queued[0].acted && Queued(s.image.queue, s.watch.queued[0].entry.id)
    ensures !AllActed(StillWaiting(s.watch.queued, s.image.queue))
  {
    assert s.watch.queued[1..] == [];
    assert StillWaiting(s.watch.queued, s.image.queue)[0] == s.watch.queued[0];
  }

  lemma {:induction false} ActedStays(tracked: seq<Tracked>, queue: seq<Item>)
    requires AllActed(tracked)
    ensures StillWaiting(tracked, queue) == tracked
  {
    if tracked == [] {
    } else {
      ActedStays(tracked[1..], queue);
    }
  }

  /** No standby causes a second close: acting marks all it saw, and with none unmarked it does nothing. */
  lemma {:induction false} ActsOnce(s: State, dialog: Dialog, now: int)
    requires s.watch.acting
    ensures AllActed(Step(s, Act(dialog, now)).watch.queued)
    ensures AllActed(s.watch.queued) ==> Step(s, Act(dialog, now)) == s.(watch := s.watch.(acting := false))
  {
    if AllActed(s.watch.queued) { ActedStays(s.watch.queued, s.image.queue); }
  }
}
