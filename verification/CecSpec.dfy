/**
 The standby workaround (src/MQTTBridge/cec.py) as a machine that shares a queue and a flag with the image.
 One step for every callback of the module, and for everything the image does in between.
 */
module CecSpec {
  import opened Options

  /** The image's `handlingStandbyFromTV`: `False`, `True`, this module's `HELD`, or whatever else it was found at. */
  datatype Flag = Clear | FromTv | Held | Other(value: int)

  /** A queue entry: which object it is, whether it opens the standby screen, and what it says. */
  datatype Item = Item(id: nat, standby: bool, content: string)

  /** A standby of the television's, while the module follows it. */
  datatype Tracked = Tracked(entry: Item, acted: bool, closedAt: Option<int>)

  datatype Kind = KindClosed | KindDropped

  datatype Hold = Hold(instance: nat, previous: Flag)

  /** The image's side: its notification queue, its CEC flags, and which entries the television queued. */
  datatype Image = Image(queue: seq<Item>, flags: map<nat, Flag>, instance: Option<nat>, nextId: nat, fromTv: set<nat>)

  /** What the module follows and holds, and which of its timers run; `identified` counts what it ever followed. */
  datatype Watch = Watch(bound: bool, queued: seq<Tracked>, identified: nat, hold: Option<Hold>,
                         acting: bool, settling: bool, holding: bool)

  /** What the module says of itself on its topic. */
  datatype Report = Report(count: nat, kind: Option<Kind>, lastIntervention: Option<int>)

  datatype State = State(image: Image, watch: Watch, report: Report)

  /** What is found in front of the receiver when the module acts. */
  datatype Dialog = NotExecuting | Unreadable | NotAllowed | ChannelList(raises: bool)

  datatype Event =
    | TvStandby(content: string, before: nat, after: nat)
    | Notification(standby: bool, content: string, before: nat, after: nat)
    | Drain(n: nat)
    | Replace(instance: Option<nat>)
    | CounterMoved
    | Act(dialog: Dialog, now: int)
    | Settle(now: int)
    | Stale(id: nat, now: int)
    | HoldExpired
    | Stop

  // ---------------------------------------------------------------- the queue

  predicate Queued(queue: seq<Item>, id: nat) {
    exists i :: 0 <= i < |queue| && queue[i].id == id
  }

  /** `_remove_from_queue`: by identity, and nothing else. */
  function Without(queue: seq<Item>, id: nat): seq<Item> {
    if queue == [] then []
    else if queue[0].id == id then queue[1..]
    else [queue[0]] + Without(queue[1..], id)
  }

  function WithoutAll(queue: seq<Item>, tracked: seq<Tracked>): seq<Item>
    decreases |tracked|
  {
    if tracked == [] then queue else WithoutAll(Without(queue, tracked[0].entry.id), tracked[1..])
  }

  /** What the info bar leaves after taking `n` entries from the front. */
  function Drained(queue: seq<Item>, n: nat): seq<Item> {
    if n < |queue| then queue[n..] else []
  }

  function FlagOf(image: Image, i: nat): Flag {
    if i in image.flags then image.flags[i] else Clear
  }

  /** The image is inside the television's bracket. */
  predicate InBracket(image: Image) {
    image.instance.Some? && FlagOf(image, image.instance.value) == FromTv
  }

  // ---------------------------------------------------------------- identifying

  predicate Follows(watch: Watch, id: nat) {
    exists i :: 0 <= i < |watch.queued| && watch.queued[i].entry.id == id
  }

  /** `_notification_added`, on the queue and flag as they are when the image calls it. */
  function Noticed(image: Image, watch: Watch): Watch {
    if !watch.bound || image.queue == [] then watch
    else
      var entry := image.queue[|image.queue| - 1];
      if !entry.standby || !InBracket(image) || Follows(watch, entry.id) then watch
      else watch.(queued := watch.queued + [Tracked(entry, false, None)], acting := true,
                  identified := watch.identified + 1)
  }

  /** The queue after an entry joined it and the info bar took `n` from the front. */
  function Joined(image: Image, standby: bool, content: string, n: nat): Image {
    image.(queue := Drained(image.queue + [Item(image.nextId, standby, content)], n), nextId := image.nextId + 1)
  }

  /**
   `__AddNotification`: the entry joins the queue, and the callbacks run
   - the info bar's before or after the module's.
   */
  function Added(s: State, standby: bool, content: string, before: nat, after: nat): State {
    var joined := Joined(s.image, standby, content, before);
    State(joined.(queue := Drained(joined.queue, after)), Noticed(joined, s.watch), s.report)
  }

  /** The flag is up: what is queued now is the television's. */
  function Bracketed(image: Image, i: nat): Image {
    image.(flags := image.flags[i := FromTv], fromTv := image.fromTv + {image.nextId})
  }

  /** The television's bracket: the flag, the queueing call, and the flag again. */
  function TvBracket(s: State, content: string, before: nat, after: nat): State {
    if s.image.instance.None? then s
    else
      var i := s.image.instance.value;
      var inside := Added(s.(image := Bracketed(s.image, i)), true, content, before, after);
      inside.(image := inside.image.(flags := inside.image.flags[i := Clear]))
  }

  // ---------------------------------------------------------------- the hold

  /** `_start_hold`: the hold recorded, none when there is nothing to hold. */
  function StartedHold(image: Image, hold: Option<Hold>): Option<Hold> {
    if hold.Some? || image.instance.None? then hold
    else Some(Hold(image.instance.value, FlagOf(image, image.instance.value)))
  }

  function HeldFlags(flags: map<nat, Flag>, hold: Option<Hold>): map<nat, Flag> {
    if hold.Some? then flags[hold.value.instance := Held] else flags
  }

  /** `_release_hold`: the flags with the held one put back. */
  function PutBack(flags: map<nat, Flag>, hold: Option<Hold>): map<nat, Flag> {
    if hold.Some? then flags[hold.value.instance := hold.value.previous] else flags
  }

  // ---------------------------------------------------------------- acting

  /** The standbys that still wait: acted on already, or not yet taken by the info bar. */
  function StillWaiting(tracked: seq<Tracked>, queue: seq<Item>): seq<Tracked> {
    if tracked == [] then []
    else
      var rest := StillWaiting(tracked[1..], queue);
      if tracked[0].acted || Queued(queue, tracked[0].entry.id) then [tracked[0]] + rest else rest
  }

  predicate AllActed(tracked: seq<Tracked>) {
    forall i :: 0 <= i < |tracked| ==> tracked[i].acted
  }

  function Marked(tracked: seq<Tracked>, closedAt: Option<int>): (r: seq<Tracked>)
    ensures |r| == |tracked|
  {
    seq(|tracked|, i requires 0 <= i < |tracked| =>
      if tracked[i].acted then tracked[i] else tracked[i].(acted := true, closedAt := closedAt))
  }

  /** When the list was closed, if closing it went through. */
  function ClosedAt(dialog: Dialog, now: int): Option<int> {
    if dialog.ChannelList? && !dialog.raises then Some(now) else None
  }

  /** `_act_now` with the hold started when the channel list is to be closed. */
  function ActNow(s: State, dialog: Dialog, now: int): State {
    var waiting := StillWaiting(s.watch.queued, s.image.queue);
    var once := s.watch.(acting := false);
    if AllActed(waiting) then s.(watch := once.(queued := waiting))
    else
      var marked := once.(queued := Marked(waiting, ClosedAt(dialog, now)));
      if !dialog.ChannelList? then s.(watch := marked)
      else
        var hold := StartedHold(s.image, s.watch.hold);
        s.(watch := marked.(hold := hold, holding := marked.holding || hold.Some?),
           image := s.image.(flags := HeldFlags(s.image.flags, hold)))
  }

  // ---------------------------------------------------------------- after the standby

  function Carried(tracked: seq<Tracked>, queue: seq<Item>): seq<Tracked> {
    if tracked == [] then []
    else if Queued(queue, tracked[0].entry.id) then Carried(tracked[1..], queue)
    else [tracked[0]] + Carried(tracked[1..], queue)
  }

  function Waiting(tracked: seq<Tracked>, queue: seq<Item>): seq<Tracked> {
    if tracked == [] then []
    else if Queued(queue, tracked[0].entry.id) then [tracked[0]] + Waiting(tracked[1..], queue)
    else Waiting(tracked[1..], queue)
  }

  /** The latest close among these, if any. */
  function LastClose(tracked: seq<Tracked>): Option<int> {
    if tracked == [] then None
    else
      var rest := LastClose(tracked[1..]);
      match tracked[0].closedAt
      case None => rest
      case Some(at) => if rest.Some? && rest.value > at then rest else Some(at)
  }

  function Intervened(report: Report, kind: Kind, when: int): Report {
    Report(report.count + 1, Some(kind), Some(when))
  }

  /** One close counts once, however many standbys it released; a drop counts only when none was carried out. */
  function Settled(report: Report, carried: seq<Tracked>, waiting: seq<Tracked>, now: int): Report {
    match LastClose(carried)
    case Some(at) => Intervened(report, KindClosed, at)
    case None => if waiting != [] && carried == [] then Intervened(report, KindDropped, now) else report
  }

  function AfterStandby(s: State, now: int): State {
    var carried, waiting := Carried(s.watch.queued, s.image.queue), Waiting(s.watch.queued, s.image.queue);
    State(s.image.(queue := WithoutAll(s.image.queue, waiting), flags := PutBack(s.image.flags, s.watch.hold)),
          s.watch.(hold := None, holding := false, settling := false, queued := []),
          Settled(s.report, carried, waiting, now))
  }

  function Untracked(tracked: seq<Tracked>, id: nat): seq<Tracked> {
    if tracked == [] then []
    else if tracked[0].entry.id == id then tracked[1..]
    else [tracked[0]] + Untracked(tracked[1..], id)
  }

  function Find(tracked: seq<Tracked>, id: nat): Option<Tracked> {
    if tracked == [] then None
    else if tracked[0].entry.id == id then Some(tracked[0])
    else Find(tracked[1..], id)
  }

  function Expired(report: Report, queued: bool, closedAt: Option<int>, now: int): Report {
    if queued then Intervened(report, KindDropped, now)
    else if closedAt.Some? then Intervened(report, KindClosed, closedAt.value)
    else report
  }

  function StaleNow(s: State, id: nat, now: int): State {
    match Find(s.watch.queued, id)
    case None => s
    case Some(tracked) =>
      State(s.image.(queue := Without(s.image.queue, id)),
            s.watch.(queued := Untracked(s.watch.queued, id)),
            Expired(s.report, Queued(s.image.queue, id), tracked.closedAt, now))
  }

  // ---------------------------------------------------------------- steps

  function Released(s: State): State {
    s.(watch := s.watch.(hold := None, holding := false),
       image := s.image.(flags := PutBack(s.image.flags, s.watch.hold)))
  }

  function Stopped(s: State): State {
    s.(watch := s.watch.(bound := false, acting := false, settling := false, holding := false, queued := [],
                         hold := None),
       image := s.image.(flags := PutBack(s.image.flags, s.watch.hold)))
  }

  /** A timer's callback runs only while the timer does. */
  function Step(s: State, event: Event): State {
    match event
    case TvStandby(content, before, after) => TvBracket(s, content, before, after)
    case Notification(standby, content, before, after) => Added(s, standby, content, before, after)
    case Drain(n) => s.(image := s.image.(queue := Drained(s.image.queue, n)))
    case Replace(instance) => s.(image := s.image.(instance := instance))
    case CounterMoved =>
      if s.watch.bound && (s.watch.hold.Some? || s.watch.queued != [])
      then s.(watch := s.watch.(settling := true))
      else s
    case Act(dialog, now) => if s.watch.acting then ActNow(s, dialog, now) else s
    case Settle(now) => if s.watch.settling then AfterStandby(s, now) else s
    case Stale(id, now) => StaleNow(s, id, now)
    case HoldExpired => if s.watch.holding then Released(s) else s
    case Stop => Stopped(s)
  }

  function Run(s: State, events: seq<Event>): State {
    if events == [] then s else Step(Run(s, events[..|events| - 1]), events[|events| - 1])
  }
}
