/**
 Lists of choices (src/MQTTBridge/choicelist.py): every list from the command that asks for it to its one outcome,
 as a state machine. A list is named by its number, the order in which the commands arrived.
 */
module ChoiceListSpec {
  import opened Options

  datatype Ending = Picked | TimedOut | Dismissed | Replaced | Closed

  /** `ended`: one of the five endings, or the mark of a list that could not be shown. */
  datatype Mark = Answered(ending: Ending) | NotShown

  datatype Row = Row(id: string, key: Option<string>)

  datatype Spec = Spec(rows: seq<Row>, timeout: int, default: Option<string>)

  /** One list: `deadline` is set when it is shown, `screen` while its screen is up. */
  datatype Controller = Controller(spec: Spec, ended: Option<Mark>, deadline: Option<real>, screen: bool)

  datatype Kind = Styled | ChoiceBox

  /** What leaves the plugin for a list: its answer, or the refusal of its command. */
  datatype Outcome = Answer(list: nat, ending: Ending, row: Option<string>) | Refused(list: nat)

  datatype State = State(
    kind: Option<Kind>,
    lists: seq<Controller>,
    current: Option<nat>,
    waiting: Option<nat>,
    retrying: bool,
    retries: nat,
    outcomes: seq<Outcome>)

  const OPEN_RETRY_LIMIT := 40

  /**
   What the receiver answers while a list is being opened: whether there is a session and it takes a screen now,
   whether the waiting timer starts, whether each screen opens, whether the countdown's timer starts, and the clock.
   */
  datatype Receiver = Receiver(session: bool, canOpen: bool, retryTimer: bool, styledOpens: bool, boxOpens: bool,
                               tickTimer: bool, now: real)

  /** What can happen. `Request(None, ...)` is a payload that breaks the contract. */
  datatype Event =
    | Request(payload: Option<Spec>, standby: bool, receiver: Receiver)
    | KeyOk(list: nat, selected: string)
    | KeyCancel(list: nat)
    | KeyNamed(list: nat, key: string)
    | Tick(receiver: Receiver)
    | Retry(receiver: Receiver)
    | ScreenGone(list: nat, receiver: Receiver)
    | Standby
    | Stop
    | SkinReloaded(kind: Option<Kind>)

  predicate CanOpen(r: Receiver) {
    !r.session || r.canOpen
  }

  function Ids(spec: Spec): seq<string> {
    seq(|spec.rows|, i requires 0 <= i < |spec.rows| => spec.rows[i].id)
  }

  /** The id of the first row with this key. */
  function KeyRow(rows: seq<Row>, key: string): Option<string> {
    if rows == [] then None
    else if rows[0].key == Some(key) then Some(rows[0].id)
    else KeyRow(rows[1..], key)
  }

  function SetEnded(lists: seq<Controller>, i: nat, mark: Mark): (r: seq<Controller>)
    requires i < |lists|
    ensures |r| == |lists|
  {
    lists[i := lists[i].(ended := Some(mark))]
  }

  // ---------------------------------------------------------------- the steps

  /** End a list with its one answer; nothing when it has ended already. */
  function End(s: State, i: nat, ending: Ending, row: Option<string>): State
    requires i < |s.lists|
  {
    if s.lists[i].ended.Some? then s
    else s.(lists := SetEnded(s.lists, i, Answered(ending)),
            waiting := if s.waiting == Some(i) then None else s.waiting,
            current := if s.current == Some(i) then None else s.current,
            outcomes := s.outcomes + [Answer(i, ending, if ending.Picked? || ending.TimedOut? then row else None)])
  }

  function EndIf(s: State, i: Option<nat>, ending: Ending): State
    requires i.Some? ==> i.value < |s.lists|
  {
    if i.None? then s else End(s, i.value, ending, None)
  }

  function CloseAll(s: State, ending: Ending): State
    requires s.current.Some? ==> s.current.value < |s.lists|
    requires s.waiting.Some? ==> s.waiting.value < |s.lists|
  {
    EndIf(EndIf(s, s.waiting, ending), s.current, ending)
  }

  function GiveUp(s: State, i: nat): State
    requires i < |s.lists|
  {
    s.(lists := SetEnded(s.lists, i, NotShown), waiting := if s.waiting == Some(i) then None else s.waiting)
  }

  /** The screen kind after an attempt: a styled screen that fails is not tried again. */
  function KindAfter(kind: Option<Kind>, r: Receiver): Option<Kind> {
    if kind == Some(Styled) && !r.styledOpens then Some(ChoiceBox) else kind
  }

  predicate Opens(kind: Option<Kind>, r: Receiver) {
    (kind == Some(Styled) && r.styledOpens) || (KindAfter(kind, r) == Some(ChoiceBox) && r.boxOpens)
  }

  /** Put a list on the screen; `true` when it is there. */
  function Show(s: State, i: nat, r: Receiver): (State, bool)
    requires i < |s.lists|
  {
    var t := s.(kind := KindAfter(s.kind, r));
    if !Opens(s.kind, r) then (t, false)
    else
      var c := s.lists[i].(deadline := Some(r.now + s.lists[i].spec.timeout as real), screen := true);
      var u := t.(lists := s.lists[i := c], current := Some(i));
      (if r.tickTimer then u else End(u, i, Closed, None), true)
  }

  /** Open the waiting list if the session takes a screen now; `true` when it is refused instead. */
  function OpenWaiting(s: State, r: Receiver): (State, bool)
    requires s.waiting.Some? ==> s.waiting.value < |s.lists|
  {
    if s.waiting.None? then (s.(retrying := false), false)
    else
      var i := s.waiting.value;
      if !r.session then (GiveUp(s, i), true)
      else if s.current.Some? || !r.canOpen then
        if s.retrying then (s, false)
        else if !r.retryTimer then (GiveUp(s.(retries := 0), i), true)
        else (s.(retries := 0, retrying := true), false)
      else
        var (t, shown) := Show(s.(retrying := false, waiting := None), i, r);
        if shown then (t, false) else (GiveUp(t, i), true)
  }

  /** `OpenWaiting` for a list whose command has returned or is returning: the refusal goes out once. */
  function OpenAndReport(s: State, i: nat, r: Receiver): State
    requires s.waiting.Some? ==> s.waiting.value < |s.lists|
  {
    var (t, refused) := OpenWaiting(s, r);
    if refused then t.(outcomes := t.outcomes + [Refused(i)]) else t
  }

  function RequestStep(s: State, payload: Option<Spec>, standby: bool, r: Receiver): State
    requires s.current.Some? ==> s.current.value < |s.lists|
    requires s.waiting.Some? ==> s.waiting.value < |s.lists|
  {
    if payload.None? || s.kind.None? || standby then s
    else
      var t := CloseAll(s, Replaced);
      var i := |t.lists|;
      OpenAndReport(t.(lists := t.lists + [Controller(payload.value, None, None, false)], waiting := Some(i),
                       retrying := false, retries := 0), i, r)
  }

  function TickStep(s: State, r: Receiver): State
    requires s.current.Some? ==> s.current.value < |s.lists| && s.lists[s.current.value].deadline.Some?
  {
    if s.current.None? || s.lists[s.current.value].ended.Some? then s
    else
      var i := s.current.value;
      if s.lists[i].deadline.value - r.now <= 0.0005 then End(s, i, TimedOut, s.lists[i].spec.default)
      else if r.tickTimer then s
      else End(s, i, Closed, None)
  }

  function RetryStep(s: State, r: Receiver): State
    requires s.waiting.Some? ==> s.waiting.value < |s.lists|
  {
    if s.waiting.None? then s.(retrying := false)
    else
      var i, t := s.waiting.value, s.(retries := s.retries + 1);
      if t.retries >= OPEN_RETRY_LIMIT && (t.current.Some? || !CanOpen(r)) then
        var u := GiveUp(t.(retrying := false), i);
        u.(outcomes := u.outcomes + [Refused(i)])
      else OpenAndReport(t, i, r)
  }

  function ScreenGoneStep(s: State, i: nat, r: Receiver): State
    requires i < |s.lists|
    requires s.waiting.Some? ==> s.waiting.value < |s.lists|
  {
    var t := s.(lists := s.lists[i := s.lists[i].(screen := false)]);
    var u := if t.lists[i].ended.None? then End(t, i, Closed, None) else t;
    var v := u.(current := if u.current == Some(i) then None else u.current);
    if v.waiting.None? then v else OpenAndReport(v, v.waiting.value, r)
  }

  function KeyOkStep(s: State, i: nat, selected: string): State
    requires i < |s.lists|
  {
    if s.lists[i].ended.None? && selected in Ids(s.lists[i].spec) then End(s, i, Picked, Some(selected)) else s
  }

  function KeyNamedStep(s: State, i: nat, key: string): State
    requires i < |s.lists|
  {
    if s.lists[i].ended.Some? then s
    else
      var row := KeyRow(s.lists[i].spec.rows, key);
      if row.None? then s else End(s, i, Picked, row)
  }

  /** An event for a list that does not exist changes nothing. */
  function Step(s: State, e: Event): State
    requires Consistent(s)
  {
    match e
    case Request(payload, standby, r) => RequestStep(s, payload, standby, r)
    case KeyOk(i, selected) => if i < |s.lists| then KeyOkStep(s, i, selected) else s
    case KeyCancel(i) => if i < |s.lists| then End(s, i, Dismissed, None) else s
    case KeyNamed(i, key) => if i < |s.lists| then KeyNamedStep(s, i, key) else s
    case Tick(r) => TickStep(s, r)
    case Retry(r) => RetryStep(s, r)
    case ScreenGone(i, r) => if i < |s.lists| then ScreenGoneStep(s, i, r) else s
    case Standby => CloseAll(s, Closed)
    case Stop => CloseAll(s, Closed).(retrying := false)
    case SkinReloaded(kind) => s.(kind := kind)
  }

  // ---------------------------------------------------------------- the invariant

  /** How many outcomes a list has. */
  function Count(outcomes: seq<Outcome>, i: nat): nat {
    if outcomes == [] then 0
    else Count(outcomes[..|outcomes| - 1], i) + (if outcomes[|outcomes| - 1].list == i then 1 else 0)
  }

  /** An outcome agrees with how its list ended, and its row with the ending. */
  ghost predicate Matches(lists: seq<Controller>, o: Outcome) {
    && o.list < |lists|
    && match o
       case Refused(i) => lists[i].ended == Some(NotShown)
       case Answer(i, ending, row) =>
         && lists[i].ended == Some(Answered(ending))
         && (match ending
             case Picked => row.Some? && row.value in Ids(lists[i].spec)
             case TimedOut => row == lists[i].spec.default
             case _ => row.None?)
  }

  ghost predicate Unended(s: State, i: nat) {
    i < |s.lists| && s.lists[i].ended.None?
  }

  /** `owed` is a list that has been given up and whose refusal has not gone out yet. */
  ghost predicate Owing(s: State, owed: Option<nat>) {
    && (s.current.Some? ==> Unended(s, s.current.value) && s.lists[s.current.value].deadline.Some? && s.waiting.None?)
    && (s.waiting.Some? ==> Unended(s, s.waiting.value))
    && (forall i: nat :: Unended(s, i) ==> s.current == Some(i) || s.waiting == Some(i))
    && (forall k :: 0 <= k < |s.outcomes| ==> Matches(s.lists, s.outcomes[k]))
    && (owed.Some? ==> owed.value < |s.lists| && s.lists[owed.value].ended == Some(NotShown))
    && (forall i: nat :: i < |s.lists| ==>
          Count(s.outcomes, i) == if s.lists[i].ended.Some? && owed != Some(i) then 1 else 0)
    && (forall i: nat :: i >= |s.lists| ==> Count(s.outcomes, i) == 0)
  }

  /** What every step keeps. */
  ghost predicate Consistent(s: State) {
    Owing(s, None) && (s.waiting.Some? ==> s.retrying && s.retries < OPEN_RETRY_LIMIT)
  }
}
