/** The publisher of src/MQTTBridge/choicelist.py, field by field, proved against the state machine. */
module ChoiceList {
  import opened Options
  import opened ChoiceListSpec
  import opened ChoiceListProofs

  /** Why `request` refuses. */
  datatype Refusal = Invalid | NotAvailable | InStandby | CouldNotShow

  class ListPublisher {
    var kind: Option<Kind>
    var lists: seq<Controller>
    var current: Option<nat>
    var waiting: Option<nat>
    var retrying: bool
    var retries: nat
    /** What has left the plugin: answers handed to the client, refusals reported or returned. */
    ghost var outcomes: seq<Outcome>

    ghost function Model(): State
      reads this
    {
      State(kind, lists, current, waiting, retrying, retries, outcomes)
    }

    constructor (kind: Option<Kind>)
      ensures Model() == Start(kind) && Consistent(Model())
    {
      this.kind := kind;
      lists, current, waiting, retrying, retries := [], None, None, false, 0;
      outcomes := [];
    }

    /** `end`: every way a list ends comes here, and the first one wins. */
    method EndList(i: nat, ending: Ending, row: Option<string>) returns (ended: bool)
      requires i < |lists|
      modifies this
      ensures Model() == End(old(Model()), i, ending, row)
      ensures ended == old(lists)[i].ended.None?
    {
      if lists[i].ended.Some? { return false; }
      lists := SetEnded(lists, i, Answered(ending));
      if waiting == Some(i) { waiting := None; }
      if current == Some(i) { current := None; }
      Send(i, ending, if ending.Picked? || ending.TimedOut? then row else None);
      return true;
    }

    /** `_answer`: one attempt; whether the client takes it is the client's. */
    method Send(i: nat, ending: Ending, row: Option<string>)
      modifies this`outcomes
      ensures outcomes == old(outcomes) + [Answer(i, ending, row)]
    {
      outcomes := outcomes + [Answer(i, ending, row)];
    }

    /** `_close_all`: the waiting list first, then the one on the screen. */
    method EndBoth(ending: Ending)
      requires current.Some? ==> current.value < |lists|
      requires waiting.Some? ==> waiting.value < |lists|
      modifies this
      ensures Model() == CloseAll(old(Model()), ending)
    {
      var first, second := waiting, current;
      if first.Some? { var _ := EndList(first.value, ending, None); }
      if second.Some? { var _ := EndList(second.value, ending, None); }
    }

    method NotShownNow(i: nat)
      requires i < |lists|
      modifies this
      ensures Model() == GiveUp(old(Model()), i)
    {
      if waiting == Some(i) { waiting := None; }
      lists := SetEnded(lists, i, NotShown);
    }

    method ShowList(i: nat, r: Receiver) returns (shown: bool)
      requires i < |lists|
      modifies this
      ensures (Model(), shown) == Show(old(Model()), i, r)
    {
      shown := false;
      if kind == Some(Styled) {
        if r.styledOpens { shown := true; } else { kind := Some(ChoiceBox); }
      }
      if !shown && kind == Some(ChoiceBox) { shown := r.boxOpens; }
      if !shown { return; }
      lists := lists[i := lists[i].(deadline := Some(r.now + lists[i].spec.timeout as real), screen := true)];
      current := Some(i);
      if !r.tickTimer { var _ := EndList(i, Closed, None); }
    }

    method OpenWaitingList(r: Receiver) returns (refused: bool)
      requires waiting.Some? ==> waiting.value < |lists|
      modifies this
      ensures (Model(), refused) == OpenWaiting(old(Model()), r)
    {
      if waiting.None? {
        retrying := false;
        return false;
      }
      var i := waiting.value;
      if !r.session {
        NotShownNow(i);
        return true;
      }
      if current.Some? || !r.canOpen {
        if !retrying {
          retries := 0;
          if !r.retryTimer {
            NotShownNow(i);
            return true;
          }
          retrying := true;
        }
        return false;
      }
      retrying := false;
      waiting := None;
      var shown := ShowList(i, r);
      if !shown { NotShownNow(i); }
      return !shown;
    }

    /** `_report`, or the refusal that `request` returns to the dispatcher. */
    method Report(i: nat)
      modifies this`outcomes
      ensures outcomes == old(outcomes) + [Refused(i)]
    {
      outcomes := outcomes + [Refused(i)];
    }

    /** `_open_waiting` with the refusal sent on: reported, or returned to the dispatcher. */
    method OpenOrReport(i: nat, r: Receiver) returns (refused: bool)
      requires waiting == Some(i) && i < |lists|
      modifies this
      ensures Model() == OpenAndReport(old(Model()), i, r) && refused == OpenWaiting(old(Model()), r).1
    {
      refused := OpenWaitingList(r);
      if refused { Report(i); }
    }

    /** The part of `request` that a well-formed payload reaches on a receiver that is awake. */
    method Replace(spec: Spec, r: Receiver) returns (refused: bool)
      requires Consistent(Model()) && kind.Some?
      modifies this
      ensures Model() == RequestStep(old(Model()), Some(spec), false, r)
      ensures |lists| == old(|lists|) + 1 && (refused <==> lists[old(|lists|)].ended == Some(NotShown))
    {
      CloseAllKeeps(Model(), Replaced);
      EndBoth(Replaced);
      var i := |lists|;
      lists := lists + [Controller(spec, None, None, false)];
      waiting := Some(i);
      retrying := false;
      retries := 0;
      RefusedMeansNotShown(Model(), i, r);
      refused := OpenOrReport(i, r);
    }

    /** `request`: None when the list is shown or waits for the screen, else the refusal. */
    method Request(payload: Option<Spec>, standby: bool, r: Receiver) returns (refusal: Option<Refusal>)
      requires Consistent(Model())
      modifies this
      ensures Model() == Step(old(Model()), Event.Request(payload, standby, r)) && Consistent(Model())
      ensures payload.None? ==> refusal == Some(Invalid)
      ensures payload.Some? && old(kind).None? ==> refusal == Some(NotAvailable)
      ensures payload.Some? && old(kind).Some? && standby ==> refusal == Some(InStandby)
      ensures payload.Some? && old(kind).Some? && !standby ==>
                |lists| == old(|lists|) + 1
                && refusal == if lists[old(|lists|)].ended == Some(NotShown) then Some(CouldNotShow) else None
    {
      StepKeeps(Model(), Event.Request(payload, standby, r));
      if payload.None? { return Some(Invalid); }
      if kind.None? { return Some(NotAvailable); }
      if standby { return Some(InStandby); }
      var refused := Replace(payload.value, r);
      return if refused then Some(CouldNotShow) else None;
    }

    method KeyOk(i: nat, selected: string)
      requires Consistent(Model()) && i < |lists|
      modifies this
      ensures Model() == Step(old(Model()), Event.KeyOk(i, selected)) && Consistent(Model())
    {
      StepKeeps(Model(), Event.KeyOk(i, selected));
      if lists[i].ended.None? && selected in Ids(lists[i].spec) { var _ := EndList(i, Picked, Some(selected)); }
    }

    method KeyCancel(i: nat)
      requires Consistent(Model()) && i < |lists|
      modifies this
      ensures Model() == Step(old(Model()), Event.KeyCancel(i)) && Consistent(Model())
    {
      StepKeeps(Model(), Event.KeyCancel(i));
      if lists[i].ended.None? { var _ := EndList(i, Dismissed, None); }
    }

    method KeyNamed(i: nat, key: string)
      requires Consistent(Model()) && i < |lists|
      modifies this
      ensures Model() == Step(old(Model()), Event.KeyNamed(i, key)) && Consistent(Model())
    {
      StepKeeps(Model(), Event.KeyNamed(i, key));
      if lists[i].ended.Some? { return; }
      var rows := lists[i].spec.rows;
      var k := 0;
      while k < |rows|
        invariant 0 <= k <= |rows|
        invariant KeyRow(rows, key) == KeyRow(rows[k..], key)
      {
        if rows[k].key == Some(key) {
          var _ := EndList(i, Picked, Some(rows[k].id));
          return;
        }
        k := k + 1;
      }
    }

    method TickFired(r: Receiver)
      requires Consistent(Model())
      modifies this
      ensures Model() == Step(old(Model()), Tick(r)) && Consistent(Model())
    {
      StepKeeps(Model(), Tick(r));
      if current.None? || lists[current.value].ended.Some? { return; }
      var i := current.value;
      if lists[i].deadline.value - r.now <= 0.0005 {
        var _ := EndList(i, TimedOut, lists[i].spec.default);
      } else if !r.tickTimer {
        var _ := EndList(i, Closed, None);
      }
    }

    method RetryFired(r: Receiver)
      requires Consistent(Model())
      modifies this
      ensures Model() == Step(old(Model()), Retry(r)) && Consistent(Model())
    {
      StepKeeps(Model(), Retry(r));
      if waiting.None? {
        retrying := false;
        return;
      }
      var i := waiting.value;
      retries := retries + 1;
      if retries >= OPEN_RETRY_LIMIT && (current.Some? || !CanOpen(r)) {
        retrying := false;
        NotShownNow(i);
        Report(i);
        return;
      }
      var _ := OpenOrReport(i, r);
    }

    method ScreenClosed(i: nat, r: Receiver)
      requires Consistent(Model()) && i < |lists|
      modifies this
      ensures Model() == Step(old(Model()), ScreenGone(i, r)) && Consistent(Model())
    {
      hide OpenAndReport, Count, Ids;
      StepKeeps(Model(), ScreenGone(i, r));
      lists := lists[i := lists[i].(screen := false)];
      if lists[i].ended.None? { var _ := EndList(i, Closed, None); }
      current := if current == Some(i) then None else current;
      var next := waiting;
      if next.Some? { var _ := OpenOrReport(next.value, r); }
    }

    method EnteredStandby()
      requires Consistent(Model())
      modifies this
      ensures Model() == Step(old(Model()), Standby) && Consistent(Model())
    {
      StepKeeps(Model(), Standby);
      EndBoth(Closed);
    }

    method StopPublisher()
      requires Consistent(Model())
      modifies this
      ensures Model() == Step(old(Model()), Stop) && Consistent(Model())
    {
      StepKeeps(Model(), Stop);
      EndBoth(Closed);
      retrying := false;
    }

    /** Which screen a list is shown with is asked again. */
    method SkinReload(probed: Option<Kind>)
      requires Consistent(Model())
      modifies this`kind
      ensures Model() == Step(old(Model()), SkinReloaded(probed)) && Consistent(Model())
    {
      StepKeeps(Model(), SkinReloaded(probed));
      kind := probed;
    }
  }
}
