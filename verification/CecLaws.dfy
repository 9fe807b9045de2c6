/** What each callback of the standby workaround does, said on queue, flag and report (src/MQTTBridge/cec.py). */
module CecLaws {
  import opened Options
  import opened CecSpec
  import opened CecProofs

  /** Entry `id` is in the queue. */
  ghost predicate InQueue(queue: seq<Item>, id: nat) {
    exists item :: item in queue && item.id == id
  }

  lemma {:induction false} QueuedIs(queue: seq<Item>, id: nat)
    ensures Queued(queue, id) <==> InQueue(queue, id)
  {
    if Queued(queue, id) {
      var i :| 0 <= i < |queue| && queue[i].id == id;
      assert queue[i] in queue;
    }
  }

  // ---------------------------------------------------------------- following

  /**
   A standby of the television's is followed by the module's turn when it is still the last entry; nothing else of the
   module changes, and the flag is clear when the bracket ends.
   */
  lemma {:induction false} TvStandbyDecides(s: State, content: string, before: nat, after: nat)
    requires Valid(s)
    ensures var t := Step(s, TvStandby(content, before, after));
      if s.image.instance.None? then t == s
      else
        && t.image.nextId == s.image.nextId + 1 && t.image.fromTv == s.image.fromTv + {s.image.nextId}
        && t.image.instance == s.image.instance && t.report == s.report
        && t.image.flags == s.image.flags[s.image.instance.value := Clear]
        && t.image.queue == (if before + after > |s.image.queue| then []
                             else (s.image.queue + [Item(s.image.nextId, true, content)])[before + after..])
        && var followed := Tracked(Item(s.image.nextId, true, content), false, None);
           t.watch == if s.watch.bound && before <= |s.image.queue|
                      then s.watch.(queued := s.watch.queued + [followed], acting := true,
                                    identified := s.watch.identified + 1)
                      else s.watch
  {
    if s.image.instance.Some? && s.watch.bound { TvIsFollowed(s, content, before, after); }
  }

  /**
   What the household queues joins the queue at its end and nothing is followed; the info bar takes entries from the
   front, before the module's turn, after it, and by itself.
   */
  lemma {:induction false} QueueDecides(s: State, standby: bool, content: string, before: nat, after: nat, n: nat)
    requires Valid(s)
    ensures var longer := s.image.queue + [Item(s.image.nextId, standby, content)];
      Step(s, Notification(standby, content, before, after)) ==
      s.(image := s.image.(nextId := s.image.nextId + 1,
                           queue := if before + after > |s.image.queue| then [] else longer[before + after..]))
    ensures Step(s, Drain(n)) ==
            s.(image := s.image.(queue := if n < |s.image.queue| then s.image.queue[n..] else []))
  {
    HouseholdIsNeverFollowed(s, standby, content, before, after);
  }

  // ---------------------------------------------------------------- acting

  /** The standbys the module still follows when it acts: acted on before, or not yet taken by the info bar. */
  ghost predicate Owed(s: State, t: Tracked) {
    t in s.watch.queued && (t.acted || InQueue(s.image.queue, t.entry.id))
  }

  lemma {:induction false} StillWaitingIs(tracked: seq<Tracked>, queue: seq<Item>, t: Tracked)
    ensures t in StillWaiting(tracked, queue) <==> t in tracked && (t.acted || InQueue(queue, t.entry.id))
  {
    if tracked == [] {
    } else {
      StillWaitingIs(tracked[1..], queue, t);
      QueuedIs(queue, tracked[0].entry.id);
      assert t in tracked <==> t == tracked[0] || t in tracked[1..];
      var rest := StillWaiting(tracked[1..], queue);
      assert t in [tracked[0]] + rest <==> t == tracked[0] || t in rest;
    }
  }

  lemma {:induction false} AllActedIs(tracked: seq<Tracked>)
    ensures AllActed(tracked) <==> forall t :: t in tracked ==> t.acted
  {
    if AllActed(tracked) {
      forall t | t in tracked ensures t.acted {
        var i :| 0 <= i < |tracked| && tracked[i] == t;
      }
    }
  }

  lemma {:induction false} MarkedIs(tracked: seq<Tracked>, closedAt: Option<int>, t: Tracked)
    requires t in tracked
    ensures (if t.acted then t else t.(acted := true, closedAt := closedAt)) in Marked(tracked, closedAt)
  {
    var i :| 0 <= i < |tracked| && tracked[i] == t;
    assert Marked(tracked, closedAt)[i] == if t.acted then t else t.(acted := true, closedAt := closedAt);
  }

  /** What acting leaves alone whatever it finds. */
  ghost predicate ActingKeeps(s: State, t: State) {
    && t.image == s.image.(flags := t.image.flags) && t.report == s.report && !t.watch.acting
    && t.watch.settling == s.watch.settling && t.watch.bound == s.watch.bound
    && t.watch.identified == s.watch.identified
  }

  /** With nothing left to act on, acting forgets the drained standbys and does nothing else. */
  lemma {:induction false} NothingToAct(s: State, dialog: Dialog, now: int, x: Tracked)
    requires s.watch.acting && forall t :: Owed(s, t) ==> t.acted
    ensures var t := Step(s, Act(dialog, now));
      && ActingKeeps(s, t) && t.image.flags == s.image.flags && t.watch.hold == s.watch.hold
      && t.watch.holding == s.watch.holding && (x in t.watch.queued <==> Owed(s, x))
  {
    var waiting := StillWaiting(s.watch.queued, s.image.queue);
    forall t ensures t in waiting <==> Owed(s, t) { StillWaitingIs(s.watch.queued, s.image.queue, t); }
    AllActedIs(waiting);
  }

  /**
   Otherwise every owed standby is marked, with the time when the list was closed if closing it went through. Before the
   channel list is closed the flag is held - and a hold begun earlier keeps the value it was begun with.
   */
  lemma {:induction false} ActingDecides(s: State, dialog: Dialog, now: int, x: Tracked)
    requires s.watch.acting && Owed(s, x)
    requires exists t :: Owed(s, t) && !t.acted
    ensures var t := Step(s, Act(dialog, now));
      var closedAt := if dialog == ChannelList(false) then Some(now) else None;
      && ActingKeeps(s, t)
      && (if x.acted then x else x.(acted := true, closedAt := closedAt)) in t.watch.queued
      && (!dialog.ChannelList? ==>
            t.watch.hold == s.watch.hold && t.watch.holding == s.watch.holding && t.image.flags == s.image.flags)
      && (dialog.ChannelList? && s.watch.hold.None? && s.image.instance.None? ==>
            t.watch.hold.None? && t.watch.holding == s.watch.holding && t.image.flags == s.image.flags)
      && (dialog.ChannelList? && s.watch.hold.None? && s.image.instance.Some? ==>
            && t.watch.hold == Some(Hold(s.image.instance.value, FlagOf(s.image, s.image.instance.value)))
            && t.watch.holding && t.image.flags == s.image.flags[s.image.instance.value := Held])
      && (dialog.ChannelList? && s.watch.hold.Some? ==>
            && t.watch.hold == s.watch.hold
            && t.watch.holding && t.image.flags == s.image.flags[s.watch.hold.value.instance := Held])
  {
    var waiting := StillWaiting(s.watch.queued, s.image.queue);
    forall t ensures t in waiting <==> Owed(s, t) { StillWaitingIs(s.watch.queued, s.image.queue, t); }
    AllActedIs(waiting);
    MarkedIs(waiting, ClosedAt(dialog, now), x);
  }

  // ---------------------------------------------------------------- after the standby

  /** What was held reads again what it read before. */
  function GivenBack(s: State): map<nat, Flag> {
    match s.watch.hold
    case None => s.image.flags
    case Some(hold) => s.image.flags[hold.instance := hold.previous]
  }

  /** A followed standby that was carried out: it is off the queue. */
  ghost predicate CarriedOut(s: State, t: Tracked) {
    t in s.watch.queued && !InQueue(s.image.queue, t.entry.id)
  }

  ghost predicate ClosedOut(s: State, t: Tracked) {
    CarriedOut(s, t) && t.closedAt.Some?
  }

  lemma {:induction false} CarriedIs(tracked: seq<Tracked>, queue: seq<Item>, t: Tracked)
    ensures t in Carried(tracked, queue) <==> t in tracked && !InQueue(queue, t.entry.id)
  {
    if tracked == [] {
    } else {
      CarriedIs(tracked[1..], queue, t);
      QueuedIs(queue, tracked[0].entry.id);
      var rest := Carried(tracked[1..], queue);
      assert t in tracked <==> t == tracked[0] || t in tracked[1..];
      assert t in [tracked[0]] + rest <==> t == tracked[0] || t in rest;
    }
  }

  lemma {:induction false} LastCloseIs(tracked: seq<Tracked>)
    ensures LastClose(tracked).None? ==> forall t :: t in tracked ==> t.closedAt.None?
    ensures LastClose(tracked).Some? ==>
      && (exists t :: t in tracked && t.closedAt == LastClose(tracked))
      && forall t :: t in tracked && t.closedAt.Some? ==> t.closedAt.value <= LastClose(tracked).value
  {
    if tracked == [] {
    } else {
      LastCloseIs(tracked[1..]);
      assert forall t :: t in tracked <==> t == tracked[0] || t in tracked[1..];
      if LastClose(tracked).Some? {
        if tracked[0].closedAt == LastClose(tracked) {
          assert tracked[0] in tracked;
        } else {
          var t :| t in tracked[1..] && t.closedAt == LastClose(tracked[1..]);
          assert t in tracked;
        }
      }
    }
  }

  lemma {:induction false} SettledReport(s: State, now: int)
    requires s.watch.settling
    ensures Step(s, Settle(now)).report ==
            Settled(s.report, Carried(s.watch.queued, s.image.queue), Waiting(s.watch.queued, s.image.queue), now)
  {
  }

  /** The counter has settled after a close that went ahead: one intervention, at the latest close. */
  lemma {:induction false} CloseIsCounted(s: State, now: int, x: Tracked)
    requires s.watch.settling && ClosedOut(s, x)
    ensures var report := Step(s, Settle(now)).report;
      && report.count == s.report.count + 1 && report.kind == Some(KindClosed)
      && report.lastIntervention.Some? && x.closedAt.value <= report.lastIntervention.value
      && exists y :: ClosedOut(s, y) && y.closedAt == report.lastIntervention
  {
    hide Step, Carried, Waiting, LastClose;
    var carried := Carried(s.watch.queued, s.image.queue);
    SettledReport(s, now);
    LastCloseIs(carried);
    CarriedIs(s.watch.queued, s.image.queue, x);
    var y :| y in carried && y.closedAt == LastClose(carried);
    CarriedIs(s.watch.queued, s.image.queue, y);
    assert ClosedOut(s, y);
  }

  /** Without one: a drop, counted once, when standbys still wait and none was carried out; else nothing. */
  lemma {:induction false} DropIsCounted(s: State, now: int)
    requires s.watch.settling && forall x :: !ClosedOut(s, x)
    ensures Step(s, Settle(now)).report ==
            if s.watch.queued != [] && forall x :: !CarriedOut(s, x)
            then Report(s.report.count + 1, Some(KindDropped), Some(now)) else s.report
  {
    hide Step, Carried, Waiting, LastClose;
    var carried := Carried(s.watch.queued, s.image.queue);
    SettledReport(s, now);
    LastCloseIs(carried);
    WaitingIsPart(s.watch.queued, s.image.queue);
    forall t ensures t in carried <==> CarriedOut(s, t) { CarriedIs(s.watch.queued, s.image.queue, t); }
    forall t | t in carried ensures t.closedAt.None? { assert !ClosedOut(s, t); }
    if carried != [] { assert carried[0] in carried; }
  }

  lemma {:induction false} WaitingOff(queue: seq<Item>, tracked: seq<Tracked>, item: Item)
    requires DistinctItems(queue)
    ensures item in WithoutAll(queue, Waiting(tracked, queue)) <==>
      item in queue && forall x :: x in tracked ==> x.entry.id != item.id
  {
    var waiting := Waiting(tracked, queue);
    WithoutAllMembers(queue, waiting);
    WaitingIsPart(tracked, queue);
    hide Waiting, WithoutAll, Queued, InQueue;
    if item in queue {
      QueuedByItself(queue, item);
      if x :| x in tracked && x.entry.id == item.id {
        assert x in waiting;
        var i :| 0 <= i < |waiting| && waiting[i] == x;
      } else {
        forall i | 0 <= i < |waiting| ensures waiting[i].entry.id != item.id { assert waiting[i] in waiting; }
      }
    }
  }

  lemma {:induction false} QueuedByItself(queue: seq<Item>, item: Item)
    requires item in queue
    ensures Queued(queue, item.id)
  {
    QueuedIs(queue, item.id);
  }

  /** What still waited is off the queue, the rest of it is as it was, and the flag is back. */
  lemma {:induction false} SettledQueue(s: State, now: int, item: Item)
    requires Valid(s) && s.watch.settling
    ensures var t := Step(s, Settle(now));
      && (item in t.image.queue <==> item in s.image.queue && forall x :: x in s.watch.queued ==> x.entry.id != item.id)
      && t.watch == s.watch.(hold := None, holding := false, settling := false, queued := [])
      && t.image == s.image.(queue := t.image.queue, flags := GivenBack(s))
  {
    hide Waiting, WithoutAll, Carried, Settled;
    WaitingOff(s.image.queue, s.watch.queued, item);
  }

  // ---------------------------------------------------------------- a standby's deadline

  /**
   At its deadline a standby that is still queued is taken off and counted as a drop, whatever was closed for it; one
   that is not, and for which the list was closed, is counted as a close; one the image carried out is not counted.
   */
  lemma {:induction false} StaleDecides(s: State, x: Tracked, now: int, item: Item)
    requires Valid(s) && x in s.watch.queued
    ensures var t := Step(s, Stale(x.entry.id, now));
      && t.report == (if InQueue(s.image.queue, x.entry.id)
                      then Report(s.report.count + 1, Some(KindDropped), Some(now))
                      else if x.closedAt.Some? then Report(s.report.count + 1, Some(KindClosed), x.closedAt)
                      else s.report)
      && (item in t.image.queue <==> item in s.image.queue && item.id != x.entry.id)
      && t.image == s.image.(queue := t.image.queue) && t.watch == s.watch.(queued := t.watch.queued)
  {
    FindExactly(s.watch.queued, x.entry.id);
    SameTracked(s.watch.queued, Find(s.watch.queued, x.entry.id).value, x);
    QueuedIs(s.image.queue, x.entry.id);
    WithoutMembers(s.image.queue, x.entry.id);
  }

  lemma {:induction false} SameTracked(tracked: seq<Tracked>, a: Tracked, b: Tracked)
    requires DistinctTracked(tracked) && a in tracked && b in tracked && a.entry.id == b.entry.id
    ensures a == b
  {
  }

  /** A deadline forgets its own standby and no other; a deadline of a standby forgotten before does nothing. */
  lemma {:induction false} StaleForgets(s: State, id: nat, now: int, y: Tracked)
    requires Valid(s)
    ensures y in Step(s, Stale(id, now)).watch.queued <==> y in s.watch.queued && y.entry.id != id
    ensures (forall x :: x in s.watch.queued ==> x.entry.id != id) ==> Step(s, Stale(id, now)) == s
  {
    FindExactly(s.watch.queued, id);
    UntrackedIs(s.watch.queued, id, y);
  }

  lemma {:induction false} UntrackedIs(tracked: seq<Tracked>, id: nat, y: Tracked)
    requires DistinctTracked(tracked)
    ensures y in Untracked(tracked, id) <==> y in tracked && y.entry.id != id
  {
    if tracked == [] {
    } else {
      var rest := tracked[1..];
      assert y in tracked <==> y == tracked[0] || y in rest;
      assert forall i :: 0 <= i < |rest| ==> rest[i] == tracked[i + 1];
      UntrackedIs(rest, id, y);
      assert y in [tracked[0]] + Untracked(rest, id) <==> y == tracked[0] || y in Untracked(rest, id);
    }
  }

  // ---------------------------------------------------------------- timers

  lemma {:induction false} TimersDecide(s: State)
    ensures Step(s, CounterMoved) == if s.watch.bound && (s.watch.hold.Some? || s.watch.queued != [])
                                     then s.(watch := s.watch.(settling := true)) else s
    ensures Step(s, HoldExpired) == if s.watch.holding
                                    then s.(watch := s.watch.(hold := None, holding := false),
                                            image := s.image.(flags := GivenBack(s))) else s
    ensures Step(s, Stop) == s.(watch := Watch(false, [], s.watch.identified, None, false, false, false),
                                image := s.image.(flags := GivenBack(s)))
  {
  }
}
