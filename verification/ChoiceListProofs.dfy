/** Every run of the list protocol: one outcome per list, one open list at a time, and a bounded wait. */
module ChoiceListProofs {
  import opened Options
  import opened ChoiceListSpec

  /** A new outcome for a list that had none: every count but its own stays. */
  lemma {:induction false} CountsAppend(outcomes: seq<Outcome>, o: Outcome)
    ensures forall i: nat :: Count(outcomes + [o], i) == Count(outcomes, i) + (if o.list == i then 1 else 0)
  {
  }

  /** An answer's row is one its ending allows. */
  predicate RowAllowed(spec: Spec, ending: Ending, row: Option<string>) {
    match ending
    case Picked => row.Some? && row.value in Ids(spec)
    case TimedOut => row == spec.default
    case _ => true
  }

  lemma {:induction false} EndKeeps(s: State, i: nat, ending: Ending, row: Option<string>)
    requires Owing(s, None) && i < |s.lists| && RowAllowed(s.lists[i].spec, ending, row)
    ensures Owing(End(s, i, ending, row), None)
  {
    hide Ids, Count;
    if s.lists[i].ended.None? {
      CountsAppend(s.outcomes, Answer(i, ending, if ending.Picked? || ending.TimedOut? then row else None));
    }
  }

  lemma {:induction false} GiveUpKeeps(s: State, i: nat)
    requires Owing(s, None) && Unended(s, i) && s.current != Some(i)
    ensures Owing(GiveUp(s, i), Some(i))
  {
  }

  lemma {:induction false} RefuseKeeps(s: State, i: nat)
    requires Owing(s, Some(i))
    ensures Owing(s.(outcomes := s.outcomes + [Refused(i)]), None)
  {
  }

  lemma {:induction false} CloseAllKeeps(s: State, ending: Ending)
    requires Owing(s, None) && !ending.Picked? && !ending.TimedOut?
    ensures var t := CloseAll(s, ending); Owing(t, None) && t.current.None? && t.waiting.None? && |t.lists| == |s.lists|
  {
    if s.waiting.Some? { EndKeeps(s, s.waiting.value, ending, None); }
    var t := EndIf(s, s.waiting, ending);
    if s.current.Some? { EndKeeps(t, s.current.value, ending, None); }
  }

  /** Between taking a list off `waiting` and showing it, `i` is the one list without an ending. */
  ghost predicate Opening(s: State, i: nat) {
    && s.current.None? && s.waiting.None? && Unended(s, i)
    && Owing(s.(waiting := Some(i)), None)
  }

  /** A list put on the screen is the current one. */
  lemma {:induction false} OnScreenKeeps(s: State, i: nat, c: Controller)
    requires Opening(s, i) && c.spec == s.lists[i].spec && c.ended.None? && c.deadline.Some?
    ensures Owing(s.(lists := s.lists[i := c], current := Some(i)), None)
  {
  }

  lemma {:induction false} GiveUpOpening(s: State, i: nat)
    requires Opening(s, i)
    ensures Owing(GiveUp(s, i), Some(i)) && GiveUp(s, i).waiting.None?
  {
  }

  /** The list as it is once its screen is up. */
  function OnScreen(c: Controller, now: real): Controller {
    c.(deadline := Some(now + c.spec.timeout as real), screen := true)
  }

  lemma {:induction false} ShowKeeps(s: State, i: nat, r: Receiver)
    requires Opening(s, i) && Opens(s.kind, r)
    ensures Owing(Show(s, i, r).0, None) && Show(s, i, r).0.waiting.None?
  {
    var t := s.(kind := KindAfter(s.kind, r));
    var c := OnScreen(s.lists[i], r.now);
    KindIrrelevant(s, KindAfter(s.kind, r), i);
    OnScreenKeeps(t, i, c);
    var u := t.(lists := t.lists[i := c], current := Some(i));
    EndKeeps(u, i, Closed, None);
    assert Show(s, i, r).0 == if r.tickTimer then u else End(u, i, Closed, None);
  }

  lemma {:induction false} KindIrrelevant(s: State, kind: Option<Kind>, i: nat)
    requires Opening(s, i)
    ensures Opening(s.(kind := kind), i)
  {
  }

  lemma {:induction false} OpenAndReportKeeps(s: State, i: nat, r: Receiver)
    requires Owing(s, None) && s.waiting == Some(i)
    requires s.retrying && s.retries >= OPEN_RETRY_LIMIT ==> s.current.None? && CanOpen(r)
    ensures Consistent(OpenAndReport(s, i, r))
    ensures OpenAndReport(s, i, r).waiting.Some? ==> OpenAndReport(s, i, r).waiting == s.waiting
  {
    var (t, refused) := OpenWaiting(s, r);
    if !r.session {
      GiveUpKeeps(s, i);
    } else if s.current.Some? || !r.canOpen {
      if !s.retrying && !r.retryTimer { GiveUpKeeps(s.(retries := 0), i); }
    } else {
      var u := s.(retrying := false, waiting := None);
      assert Owing(u.(waiting := Some(i)), None);
      if Opens(u.kind, r) { ShowKeeps(u, i, r); } else { GiveUpOpening(u.(kind := KindAfter(u.kind, r)), i); }
    }
    if refused { RefuseKeeps(t, i); }
  }

  /** A new list waits for the screen when no other list is open. */
  lemma {:induction false} NewListKeeps(s: State, c: Controller)
    requires Owing(s, None) && s.current.None? && s.waiting.None? && c.ended.None?
    ensures Owing(s.(lists := s.lists + [c], waiting := Some(|s.lists|)), None)
  {
  }

  lemma {:induction false} RequestKeeps(s: State, payload: Option<Spec>, standby: bool, r: Receiver)
    requires Consistent(s)
    ensures Consistent(RequestStep(s, payload, standby, r))
  {
    if payload.Some? && s.kind.Some? && !standby {
      CloseAllKeeps(s, Replaced);
      var t := CloseAll(s, Replaced);
      var i := |t.lists|;
      var u := t.(lists := t.lists + [Controller(payload.value, None, None, false)], waiting := Some(i),
                  retrying := false, retries := 0);
      NewListKeeps(t.(retrying := false, retries := 0), Controller(payload.value, None, None, false));
      OpenAndReportKeeps(u, i, r);
    }
  }

  lemma {:induction false} RetryKeeps(s: State, r: Receiver)
    requires Consistent(s)
    ensures Consistent(RetryStep(s, r))
  {
    hide OpenAndReport;
    if s.waiting.Some? {
      var i, t := s.waiting.value, s.(retries := s.retries + 1);
      if t.retries >= OPEN_RETRY_LIMIT && (t.current.Some? || !CanOpen(r)) {
        var u := t.(retrying := false);
        GiveUpKeeps(u, i);
        RefuseKeeps(GiveUp(u, i), i);
      } else {
        OpenAndReportKeeps(t, i, r);
      }
    }
  }

  lemma {:induction false} ScreenKeeps(s: State, i: nat)
    requires Owing(s, None) && i < |s.lists|
    ensures Owing(s.(lists := s.lists[i := s.lists[i].(screen := false)]), None)
  {
    assert forall k :: 0 <= k < |s.outcomes| ==> Matches(s.lists, s.outcomes[k]);
  }

  lemma {:induction false} ScreenGoneKeeps(s: State, i: nat, r: Receiver)
    requires Consistent(s) && i < |s.lists|
    ensures Consistent(ScreenGoneStep(s, i, r))
  {
    var t := s.(lists := s.lists[i := s.lists[i].(screen := false)]);
    ScreenKeeps(s, i);
    EndKeeps(t, i, Closed, None);
    var u := if t.lists[i].ended.None? then End(t, i, Closed, None) else t;
    assert u.current != Some(i);
    if u.waiting.Some? { OpenAndReportKeeps(u, u.waiting.value, r); }
  }

  lemma {:induction false} KeyRowIsId(rows: seq<Row>, key: string)
    ensures KeyRow(rows, key).Some? ==>
      exists k :: 0 <= k < |rows| && rows[k].id == KeyRow(rows, key).value && rows[k].key == Some(key)
  {
    if rows != [] && rows[0].key != Some(key) {
      KeyRowIsId(rows[1..], key);
      if KeyRow(rows[1..], key).Some? {
        var k :| 0 <= k < |rows[1..]| && rows[1..][k].id == KeyRow(rows, key).value && rows[1..][k].key == Some(key);
        assert rows[k + 1].id == KeyRow(rows, key).value;
      }
    }
  }

  lemma {:induction false} KeyNamedKeeps(s: State, i: nat, key: string)
    requires Consistent(s) && i < |s.lists|
    ensures Consistent(KeyNamedStep(s, i, key))
  {
    var rows := s.lists[i].spec.rows;
    KeyRowIsId(rows, key);
    if KeyRow(rows, key).Some? {
      var k :| 0 <= k < |rows| && rows[k].id == KeyRow(rows, key).value;
      assert Ids(s.lists[i].spec)[k] == rows[k].id;
      EndKeeps(s, i, Picked, KeyRow(rows, key));
    }
  }

  lemma {:induction false} TickKeeps(s: State, r: Receiver)
    requires Consistent(s)
    ensures Consistent(TickStep(s, r))
  {
    if s.current.Some? {
      EndKeeps(s, s.current.value, TimedOut, s.lists[s.current.value].spec.default);
      EndKeeps(s, s.current.value, Closed, None);
    }
  }

  /** Every step keeps the invariant. */
  lemma {:induction false} StepKeeps(s: State, e: Event)
    requires Consistent(s)
    ensures Consistent(Step(s, e))
  {
    hide RequestStep, RetryStep, ScreenGoneStep, CloseAll, KeyRow;
    match e
    case Request(payload, standby, r) => RequestKeeps(s, payload, standby, r);
    case KeyOk(i, selected) =>
      if i < |s.lists| && selected in Ids(s.lists[i].spec) { EndKeeps(s, i, Picked, Some(selected)); }
    case KeyCancel(i) =>
      if i < |s.lists| { EndKeeps(s, i, Dismissed, None); }
    case KeyNamed(i, key) =>
      if i < |s.lists| { KeyNamedKeeps(s, i, key); }
    case Tick(r) => TickKeeps(s, r);
    case Retry(r) => RetryKeeps(s, r);
    case ScreenGone(i, r) =>
      if i < |s.lists| { ScreenGoneKeeps(s, i, r); }
    case Standby => CloseAllKeeps(s, Closed);
    case Stop => CloseAllKeeps(s, Closed);
    case SkinReloaded(kind) =>
  }

  // ---------------------------------------------------------------- runs

  function Start(kind: Option<Kind>): State {
    State(kind, [], None, None, false, 0, [])
  }

  ghost function Run(s: State, events: seq<Event>): State
    requires Consistent(s)
    ensures Consistent(Run(s, events))
    decreases |events|
  {
    StepKeeps(s, if events == [] then Stop else events[0]);
    if events == [] then s else Run(Step(s, events[0]), events[1..])
  }

  /** In every run: one outcome for each list that has ended and none before, and never two lists open. */
  lemma {:induction false} OneOutcomeEach(kind: Option<Kind>, events: seq<Event>)
    ensures Consistent(Start(kind))
    ensures var s := Run(Start(kind), events);
      && (forall i: nat :: i < |s.lists| ==> Count(s.outcomes, i) == (if s.lists[i].ended.Some? then 1 else 0))
      && (forall o :: o in s.outcomes ==>
            && o.list < |s.lists|
            && match o
               case Refused(i) => s.lists[i].ended == Some(NotShown)
               case Answer(i, ending, row) =>
                 && s.lists[i].ended == Some(Answered(ending))
                 && (ending == Picked ==> row.Some? && row.value in Ids(s.lists[i].spec))
                 && (ending == TimedOut ==> row == s.lists[i].spec.default)
                 && (ending != Picked && ending != TimedOut ==> row == None))
      && (forall i: nat, j: nat :: Unended(s, i) && Unended(s, j) ==> i == j)
  {
  }

  /** `t` is later than `s`: nothing said is taken back, no ending changes, and no list starts to wait again. */
  ghost predicate Later(s: State, t: State) {
    && s.outcomes <= t.outcomes
    && |s.lists| <= |t.lists|
    && (t.waiting.Some? && t.waiting.value < |s.lists| ==> t.waiting == s.waiting)
    && forall i: nat :: i < |s.lists| ==> SameList(s.lists[i], t.lists[i])
  }

  ghost predicate SameList(c: Controller, d: Controller) {
    d.spec == c.spec && (c.ended.Some? ==> d.ended == c.ended)
  }

  lemma {:induction false} EndLater(s: State, i: nat, ending: Ending, row: Option<string>)
    requires i < |s.lists|
    ensures Later(s, End(s, i, ending, row))
  {
  }

  lemma {:induction false} LaterTrans(s: State, t: State, u: State)
    requires Later(s, t) && Later(t, u)
    ensures Later(s, u)
  {
  }

  lemma {:induction false} CloseAllLater(s: State, ending: Ending)
    requires s.current.Some? ==> s.current.value < |s.lists|
    requires s.waiting.Some? ==> s.waiting.value < |s.lists|
    ensures Later(s, CloseAll(s, ending))
  {
    var t := EndIf(s, s.waiting, ending);
    if s.waiting.Some? { EndLater(s, s.waiting.value, ending, None); }
    if s.current.Some? { EndLater(t, s.current.value, ending, None); }
    LaterTrans(s, t, CloseAll(s, ending));
  }

  lemma {:induction false} OpenLater(s: State, i: nat, r: Receiver)
    requires Owing(s, None) && s.waiting == Some(i)
    ensures Later(s, OpenAndReport(s, i, r))
  {
  }

  lemma {:induction false} RequestLater(s: State, spec: Spec, r: Receiver)
    requires Consistent(s) && s.kind.Some?
    ensures Later(s, RequestStep(s, Some(spec), false, r))
  {
    hide OpenAndReport, CloseAll, Count;
    var t := CloseAll(s, Replaced);
    CloseAllLater(s, Replaced);
    CloseAllKeeps(s, Replaced);
    var c := Controller(spec, None, None, false);
    NewListKeeps(t.(retrying := false, retries := 0), c);
    var u := t.(lists := t.lists + [c], waiting := Some(|t.lists|), retrying := false, retries := 0);
    OpenLater(u, |t.lists|, r);
    assert Later(t, u);
    LaterTrans(s, t, u);
    LaterTrans(s, u, RequestStep(s, Some(spec), false, r));
  }

  lemma {:induction false} RetryLater(s: State, r: Receiver)
    requires Consistent(s)
    ensures Later(s, RetryStep(s, r))
  {
    hide Count;
    if s.waiting.Some? { OpenLater(s.(retries := s.retries + 1), s.waiting.value, r); }
  }

  lemma {:induction false} KeyLater(s: State, e: Event)
    requires Consistent(s) && (e.KeyOk? || e.KeyCancel? || e.KeyNamed?)
    ensures Later(s, Step(s, e))
  {
    if e.list < |s.lists| {
      match e
      case KeyOk(i, selected) => EndLater(s, i, Picked, Some(selected));
      case KeyCancel(i) => EndLater(s, i, Dismissed, None);
      case KeyNamed(i, key) => EndLater(s, i, Picked, KeyRow(s.lists[i].spec.rows, key));
    }
  }

  lemma {:induction false} TickLater(s: State, r: Receiver)
    requires Consistent(s)
    ensures Later(s, TickStep(s, r))
  {
    if s.current.Some? {
      EndLater(s, s.current.value, TimedOut, s.lists[s.current.value].spec.default);
      EndLater(s, s.current.value, Closed, None);
    }
  }

  /** An ending, once there, is never changed, and nothing said about a list is taken back. */
  lemma {:induction false} EndingsAreFinal(s: State, e: Event)
    requires Consistent(s)
    ensures Later(s, Step(s, e))
  {
    match e
    case Request(payload, standby, r) =>
      if payload.Some? && s.kind.Some? && !standby { RequestLater(s, payload.value, r); }
    case KeyOk(_, _) => KeyLater(s, e);
    case KeyCancel(_) => KeyLater(s, e);
    case KeyNamed(_, _) => KeyLater(s, e);
    case Tick(r) => TickLater(s, r);
    case Retry(r) => RetryLater(s, r);
    case ScreenGone(i, r) =>
      if i < |s.lists| { ScreenGoneLater(s, i, r); }
    case Standby => CloseAllLater(s, Closed);
    case Stop => CloseAllLater(s, Closed);
    case SkinReloaded(_) =>
  }

  lemma {:induction false} ScreenGoneLater(s: State, i: nat, r: Receiver)
    requires Consistent(s) && i < |s.lists|
    ensures Later(s, ScreenGoneStep(s, i, r))
  {
    hide OpenAndReport, Count;
    var t := s.(lists := s.lists[i := s.lists[i].(screen := false)]);
    ScreenKeeps(s, i);
    EndKeeps(t, i, Closed, None);
    EndLater(t, i, Closed, None);
    var u := if t.lists[i].ended.None? then End(t, i, Closed, None) else t;
    assert Later(s, t);
    LaterTrans(s, t, u);
    if u.waiting.Some? {
      OpenLater(u, u.waiting.value, r);
      LaterTrans(s, u, ScreenGoneStep(s, i, r));
    }
  }

  lemma {:induction false} WaitIsCounted(s: State, e: Event, i: nat)
    requires Consistent(s) && s.waiting == Some(i) && Step(s, e).waiting == Some(i)
    ensures Step(s, e).retries == s.retries + (if e.Retry? then 1 else 0)
  {
  }

  function Retries(events: seq<Event>): nat {
    if events == [] then 0 else (if events[0].Retry? then 1 else 0) + Retries(events[1..])
  }

  lemma {:induction false} RetriesAdd(before: seq<Event>, after: seq<Event>)
    ensures Retries(before + after) == Retries(before) + Retries(after)
    ensures |before| == 1 ==> Retries(before) == if before[0].Retry? then 1 else 0
  {
    if before == [] {
      assert before + after == after;
    } else {
      RetriesAdd(before[1..], after);
      assert (before + after)[1..] == before[1..] + after;
      if |before| == 1 { assert before[1..] == []; }
    }
  }

  lemma {:induction false} StaysSettled(s: State, events: seq<Event>, i: nat)
    requires Consistent(s) && i < |s.lists| && s.waiting != Some(i)
    ensures Run(s, events).waiting != Some(i)
    decreases |events|
  {
    if events == [] {
    } else {
      EndingsAreFinal(s, events[0]);
      StepKeeps(s, events[0]);
      StaysSettled(Step(s, events[0]), events[1..], i);
    }
  }

  /** A list still waiting has seen fewer than 40 turns of its timer, whatever happened between them. */
  lemma {:induction false} WaitIsBounded(s: State, events: seq<Event>, i: nat)
    requires Consistent(s) && s.waiting == Some(i) && Run(s, events).waiting == Some(i)
    ensures s.retries + Retries(events) < 40
    decreases |events|
  {
    if events == [] {
    } else {
      var t := Step(s, events[0]);
      StepKeeps(s, events[0]);
      EndingsAreFinal(s, events[0]);
      if t.waiting != Some(i) { StaysSettled(t, events[1..], i); }
      WaitIsCounted(s, events[0], i);
      WaitIsBounded(t, events[1..], i);
    }
  }

  lemma {:induction false} CloseAllEnds(s: State, ending: Ending)
    requires Owing(s, None) && !ending.Picked? && !ending.TimedOut?
    ensures var t := CloseAll(s, ending);
      && |t.lists| == |s.lists|
      && forall i: nat :: i < |s.lists| ==>
           t.lists[i].ended == (if s.lists[i].ended.Some? then s.lists[i].ended else Some(Answered(ending)))
  {
    CloseAllKeeps(s, ending);
    var t := CloseAll(s, ending);
    forall i: nat | i < |s.lists|
      ensures t.lists[i].ended == (if s.lists[i].ended.Some? then s.lists[i].ended else Some(Answered(ending)))
    {
      assert Unended(s, i) ==> s.current == Some(i) || s.waiting == Some(i);
    }
  }

  lemma {:induction false} OpenTouchesOne(s: State, i: nat, r: Receiver)
    requires i < |s.lists| && s.waiting == Some(i) && s.current.None?
    ensures var t := OpenAndReport(s, i, r);
      && |t.lists| == |s.lists| && t.lists[i].spec == s.lists[i].spec
      && forall j: nat :: j < |s.lists| && j != i ==> t.lists[j] == s.lists[j]
  {
  }

  /** An accepted command ends every older list - `replaced` when it was still open - and adds exactly one. */
  lemma {:induction false} RequestReplaces(s: State, spec: Spec, r: Receiver)
    requires Consistent(s) && s.kind.Some?
    ensures var t := Step(s, Request(Some(spec), false, r)); var n := |s.lists|;
      && |t.lists| == n + 1 && t.lists[n].spec == spec
      && forall i: nat :: i < n ==>
           t.lists[i].ended == (if s.lists[i].ended.Some? then s.lists[i].ended else Some(Answered(Replaced)))
  {
    CloseAllEnds(s, Replaced);
    CloseAllKeeps(s, Replaced);
    var t, n := CloseAll(s, Replaced), |s.lists|;
    OpenTouchesOne(t.(lists := t.lists + [Controller(spec, None, None, false)], waiting := Some(n),
                      retrying := false, retries := 0), n, r);
  }

  /** Standby and stop leave no list open. */
  lemma {:induction false} ClosedMeansClosed(s: State, e: Event, i: nat)
    requires Consistent(s) && (e.Standby? || e.Stop?)
    ensures !Unended(Step(s, e), i)
  {
    CloseAllKeeps(s, Closed);
    var t := CloseAll(s, Closed);
    assert Step(s, e) == t || Step(s, e) == t.(retrying := false);
    assert !Unended(t, i);
  }

  lemma {:induction false} RefusedMeansNotShown(s: State, i: nat, r: Receiver)
    requires i < |s.lists| && s.waiting == Some(i) && s.current.None? && s.lists[i].ended.None?
    ensures OpenWaiting(s, r).1 <==> OpenAndReport(s, i, r).lists[i].ended == Some(NotShown)
    ensures |OpenAndReport(s, i, r).lists| == |s.lists|
  {
  }

  // ---------------------------------------------------------------- timeouts

  ghost predicate TimedOutNow(s: State, t: State, i: nat) {
    i < |s.lists| && i < |t.lists| && s.lists[i].ended.None? && t.lists[i].ended == Some(Answered(TimedOut))
  }

  lemma {:induction false} GoneNeverTimesOut(s: State, i: nat, r: Receiver, j: nat)
    requires Consistent(s) && i < |s.lists|
    ensures !TimedOutNow(s, ScreenGoneStep(s, i, r), j)
  {
  }

  lemma {:induction false} RetryNeverTimesOut(s: State, r: Receiver, j: nat)
    requires Consistent(s)
    ensures !TimedOutNow(s, RetryStep(s, r), j)
  {
  }

  /** A list times out only on a tick of its own countdown, once its whole timeout has run. */
  lemma {:induction false} TimeoutIsDue(s: State, e: Event, i: nat)
    requires Consistent(s) && i < |s.lists| && i < |Step(s, e).lists|
    requires s.lists[i].ended.None? && Step(s, e).lists[i].ended == Some(Answered(TimedOut))
    ensures e.Tick? && s.current == Some(i) && s.lists[i].deadline.Some?
    ensures s.lists[i].deadline.value - e.receiver.now <= 0.0005
  {
    match e
    case Request(payload, standby, r) =>
      if payload.Some? && s.kind.Some? && !standby { RequestReplaces(s, payload.value, r); }
    case Retry(r) => RetryNeverTimesOut(s, r, i);
    case ScreenGone(k, r) => if k < |s.lists| { GoneNeverTimesOut(s, k, r, i); }
    case Standby => CloseAllEnds(s, Closed);
    case Stop => CloseAllEnds(s, Closed);
    case _ =>
  }

  // ---------------------------------------------------------------- the whole timeout

  /** The clock of a step, for those that can put a list on the screen. */
  function Clock(e: Event): Option<real> {
    match e
    case Request(_, _, r) => Some(r.now)
    case Retry(r) => Some(r.now)
    case ScreenGone(_, r) => Some(r.now)
    case _ => None
  }

  /** If `i` is on the screen after a step, it was there with the deadline it has, or the step put it there at `now`. */
  ghost predicate Screened(s: State, t: State, i: nat, now: Option<real>) {
    t.current == Some(i) ==>
      && i < |t.lists|
      && (if s.current == Some(i)
          then i < |s.lists| && t.lists[i].deadline == s.lists[i].deadline && t.lists[i].spec == s.lists[i].spec
          else now.Some? && t.lists[i].deadline == Some(now.value + t.lists[i].spec.timeout as real))
  }

  lemma {:induction false} EndScreened(s: State, k: nat, ending: Ending, row: Option<string>, i: nat)
    requires k < |s.lists| && (s.current.Some? ==> s.current.value < |s.lists|)
    ensures Screened(s, End(s, k, ending, row), i, None)
  {
  }

  lemma {:induction false} OpenScreened(s: State, k: nat, r: Receiver, i: nat)
    requires k < |s.lists| && s.waiting == Some(k)
      && (s.current.Some? ==> s.current.value < |s.lists| && s.current != s.waiting)
    ensures Screened(s, OpenAndReport(s, k, r), i, Some(r.now))
  {
  }

  lemma {:induction false} RequestScreened(s: State, spec: Spec, r: Receiver, i: nat)
    requires Consistent(s) && s.kind.Some?
    ensures Screened(s, RequestStep(s, Some(spec), false, r), i, Some(r.now))
  {
    hide OpenAndReport, CloseAll, Count, Matches;
    CloseAllKeeps(s, Replaced);
    var t, n := CloseAll(s, Replaced), |s.lists|;
    var u := t.(lists := t.lists + [Controller(spec, None, None, false)], waiting := Some(n), retrying := false,
                retries := 0);
    OpenScreened(u, n, r, i);
    assert s.current == Some(i) ==> i < n;
    OpenShowsOnlyIt(u, n, r);
  }

  lemma {:induction false} OpenShowsOnlyIt(s: State, k: nat, r: Receiver)
    requires k < |s.lists| && s.waiting == Some(k) && s.current.None?
    ensures var t := OpenAndReport(s, k, r); t.current.None? || t.current == Some(k)
  {
  }

  lemma {:induction false} RetryScreened(s: State, r: Receiver, i: nat)
    requires Consistent(s)
    ensures Screened(s, RetryStep(s, r), i, Some(r.now))
  {
    if s.waiting.Some? { OpenScreened(s.(retries := s.retries + 1), s.waiting.value, r, i); }
  }

  lemma {:induction false} GoneScreened(s: State, k: nat, r: Receiver, i: nat)
    requires Consistent(s) && k < |s.lists|
    ensures Screened(s, ScreenGoneStep(s, k, r), i, Some(r.now))
  {
    var t := s.(lists := s.lists[k := s.lists[k].(screen := false)]);
    var u := if t.lists[k].ended.None? then End(t, k, Closed, None) else t;
    var v := u.(current := if u.current == Some(k) then None else u.current);
    ScreenKeeps(s, k);
    EndKeeps(t, k, Closed, None);
    EndScreened(t, k, Closed, None, i);
    if v.waiting.Some? { OpenScreened(v, v.waiting.value, r, i); }
  }

  lemma {:induction false} StepScreened(s: State, e: Event, i: nat)
    requires Consistent(s)
    ensures Screened(s, Step(s, e), i, Clock(e))
  {
    match e
    case Request(payload, standby, r) =>
      if payload.Some? && s.kind.Some? && !standby { RequestScreened(s, payload.value, r, i); }
    case KeyOk(k, selected) => if k < |s.lists| { EndScreened(s, k, Picked, Some(selected), i); }
    case KeyCancel(k) => if k < |s.lists| { EndScreened(s, k, Dismissed, None, i); }
    case KeyNamed(k, key) => if k < |s.lists| { EndScreened(s, k, Picked, KeyRow(s.lists[k].spec.rows, key), i); }
    case Tick(r) =>
      if s.current.Some? {
        EndScreened(s, s.current.value, TimedOut, s.lists[s.current.value].spec.default, i);
        EndScreened(s, s.current.value, Closed, None, i);
      }
    case Retry(r) => RetryScreened(s, r, i);
    case ScreenGone(k, r) => if k < |s.lists| { GoneScreened(s, k, r, i); }
    case Standby => CloseAllKeeps(s, Closed);
    case Stop => CloseAllKeeps(s, Closed);
    case SkinReloaded(_) =>
  }

  lemma {:induction false} RunEndsWith(s: State, events: seq<Event>)
    requires Consistent(s) && events != []
    ensures Run(s, events) == Step(Run(s, events[..|events| - 1]), events[|events| - 1])
    decreases |events|
  {
    hide Step, Owing;
    var n := |events| - 1;
    if n > 0 {
      StepKeeps(s, events[0]);
      RunEndsWith(Step(s, events[0]), events[1..]);
      assert events[1..][..n - 1] == events[..n][1..];
    } else {
      assert events[1..] == [] && events[..n] == [];
    }
  }

  lemma {:induction false} RunOfNothing(s: State)
    requires Consistent(s)
    ensures Run(s, []) == s
  {
  }

  /** Event `k` of the run put list `i` on the screen, at its clock, and it has stayed there since. */
  ghost predicate ShownSince(s: State, events: seq<Event>, i: nat, k: nat)
    requires Consistent(s)
  {
    && k < |events| && Clock(events[k]).Some?
    && Run(s, events[..k]).current != Some(i)
    && forall m :: k < m <= |events| ==> Run(s, events[..m]).current == Some(i)
  }

  lemma {:induction false} DeadlineOfShown(s: State, events: seq<Event>, i: nat) returns (k: nat)
    requires Consistent(s) && s.current != Some(i) && Run(s, events).current == Some(i)
    ensures ShownSince(s, events, i, k) && i < |Run(s, events).lists|
    ensures Run(s, events).lists[i].deadline ==
      Some(Clock(events[k]).value + Run(s, events).lists[i].spec.timeout as real)
    decreases |events|
  {
    hide Step, Owing, Run;
    var n := |events| - 1;
    RunOfNothing(s);
    assert events != [];
    var last, earlier := events[n], events[..n];
    assert events[..|events|] == events;
    RunEndsWith(s, events);
    StepScreened(Run(s, earlier), last, i);
    if Run(s, earlier).current == Some(i) {
      k := DeadlineOfShown(s, earlier, i);
      assert earlier[..k] == events[..k];
      forall m | k < m <= |events| ensures Run(s, events[..m]).current == Some(i) {
        if m <= n { assert earlier[..m] == events[..m]; }
      }
    } else {
      k := n;
    }
  }

  /**
   In every run, a list that ends `timeout` was put on the screen by some step of the run and stayed there, and the tick
   that ends it comes no earlier than that step's clock plus its timeout, less half a millisecond.
   */
  lemma {:induction false} WholeTimeoutOnScreen(kind: Option<Kind>, events: seq<Event>, e: Event, i: nat)
    returns (k: nat)
    requires var s := Run(Start(kind), events);
      && i < |s.lists| && i < |Step(s, e).lists|
      && s.lists[i].ended.None? && Step(s, e).lists[i].ended == Some(Answered(TimedOut))
    ensures e.Tick? && ShownSince(Start(kind), events, i, k)
    ensures e.receiver.now >= Clock(events[k]).value + Run(Start(kind), events).lists[i].spec.timeout as real - 0.0005
  {
    var s := Run(Start(kind), events);
    TimeoutIsDue(s, e, i);
    k := DeadlineOfShown(Start(kind), events, i);
  }
}
