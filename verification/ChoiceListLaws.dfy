/** What each event of the list protocol does, said on the fields of the state (src/MQTTBridge/choicelist.py). */
module ChoiceListLaws {
  import opened Options
  import opened ChoiceListSpec

  /** List `i` has ended, with this answer and no other change than that it is no longer open. */
  ghost predicate JustEnded(s: State, t: State, i: nat, ending: Ending, row: Option<string>) {
    && i < |s.lists| && s.lists[i].ended.None?
    && t == s.(lists := s.lists[i := s.lists[i].(ended := Some(Answered(ending)))],
               current := if s.current == Some(i) then None else s.current,
               waiting := if s.waiting == Some(i) then None else s.waiting,
               outcomes := s.outcomes + [Answer(i, ending, row)])
  }

  /** A row of the list has this id. */
  ghost predicate Offers(spec: Spec, id: string) {
    exists k :: 0 <= k < |spec.rows| && spec.rows[k].id == id
  }

  /** Row `k` is the first with this key. */
  ghost predicate FirstWithKey(spec: Spec, key: string, k: int) {
    && 0 <= k < |spec.rows| && spec.rows[k].key == Some(key)
    && forall j :: 0 <= j < k ==> spec.rows[j].key != Some(key)
  }

  /** A tick at the deadline, or less than half a millisecond before it, ends the list `timeout` with its default. */
  lemma {:induction false} TickDecides(s: State, r: Receiver)
    requires Consistent(s)
    ensures s.current.None? ==> Step(s, Tick(r)) == s
    ensures s.current.Some? ==>
      var i := s.current.value;
      var c := s.lists[i];
      if r.now >= c.deadline.value - 0.0005 then JustEnded(s, Step(s, Tick(r)), i, TimedOut, c.spec.default)
      else if r.tickTimer then Step(s, Tick(r)) == s
      else JustEnded(s, Step(s, Tick(r)), i, Closed, None)
  {
  }

  /** OK on an offered row of a list that has not ended picks that row; anything else is ignored. */
  lemma {:induction false} OkDecides(s: State, i: nat, selected: string)
    requires Consistent(s) && i < |s.lists|
    ensures if s.lists[i].ended.None? && Offers(s.lists[i].spec, selected)
            then JustEnded(s, Step(s, KeyOk(i, selected)), i, Picked, Some(selected))
            else Step(s, KeyOk(i, selected)) == s
  {
    var ids := Ids(s.lists[i].spec);
    assert forall k :: 0 <= k < |ids| ==> ids[k] == s.lists[i].spec.rows[k].id;
  }

  lemma {:induction false} CancelDecides(s: State, i: nat)
    requires Consistent(s) && i < |s.lists|
    ensures if s.lists[i].ended.None? then JustEnded(s, Step(s, KeyCancel(i)), i, Dismissed, None)
            else Step(s, KeyCancel(i)) == s
  {
  }

  lemma {:induction false} KeyRowIsFirst(rows: seq<Row>, key: string) returns (k: int)
    ensures KeyRow(rows, key).Some? ==>
      0 <= k < |rows| && rows[k].key == Some(key) && rows[k].id == KeyRow(rows, key).value
    ensures forall j :: 0 <= j < (if KeyRow(rows, key).Some? then k else |rows|) ==> rows[j].key != Some(key)
  {
    if rows == [] || rows[0].key == Some(key) {
      k := 0;
    } else {
      k := KeyRowIsFirst(rows[1..], key);
      assert forall j :: 0 < j < |rows| ==> rows[j] == rows[1..][j - 1];
      k := k + 1;
    }
  }

  /** A key on the remote picks the first row that has it; a key no row has is ignored. */
  lemma {:induction false} KeyDecides(s: State, i: nat, key: string) returns (k: int)
    requires Consistent(s) && i < |s.lists|
    ensures if s.lists[i].ended.None? && FirstWithKey(s.lists[i].spec, key, k)
            then JustEnded(s, Step(s, KeyNamed(i, key)), i, Picked, Some(s.lists[i].spec.rows[k].id))
            else Step(s, KeyNamed(i, key)) == s
    ensures !FirstWithKey(s.lists[i].spec, key, k) ==>
      forall j :: 0 <= j < |s.lists[i].spec.rows| ==> s.lists[i].spec.rows[j].key != Some(key)
  {
    var rows := s.lists[i].spec.rows;
    k := KeyRowIsFirst(rows, key);
    if KeyRow(rows, key).None? { k := -1; }
  }

  // ---------------------------------------------------------------- opening

  /** The styled screen opens, or the image's own does where the styled one is not used or fails. */
  predicate ScreenOpens(kind: Option<Kind>, r: Receiver) {
    match kind
    case None => false
    case Some(Styled) => r.styledOpens || r.boxOpens
    case Some(ChoiceBox) => r.boxOpens
  }

  /** List `i` is on the screen since now, nothing waits, and nothing was answered. */
  ghost predicate IsUp(s: State, t: State, i: nat, now: real) {
    && i < |s.lists| && |t.lists| == |s.lists| && t.outcomes == s.outcomes
    && t.current == Some(i) && t.waiting.None? && !t.retrying
    && t.lists == s.lists[i := s.lists[i].(deadline := Some(now + s.lists[i].spec.timeout as real), screen := true)]
  }

  /** List `i` has been given up: its command is refused, once, and it neither waits nor shows. */
  ghost predicate IsRefused(s: State, t: State, i: nat) {
    && i < |s.lists| && t.lists == s.lists[i := s.lists[i].(ended := Some(NotShown))]
    && t.outcomes == s.outcomes + [Refused(i)] && t.waiting.None? && t.current.None?
  }

  /** A styled screen that failed is not tried again. */
  function KindKept(kind: Option<Kind>, r: Receiver): Option<Kind> {
    if kind == Some(Styled) && !r.styledOpens then Some(ChoiceBox) else kind
  }

  /** A waiting list that may be opened now is shown, waits on, or is refused. */
  ghost predicate Decided(s: State, t: State, i: nat, r: Receiver)
    requires i < |s.lists|
  {
    if !r.session then IsRefused(s.(current := None), t.(current := None), i) && t.current == s.current
    else if s.current.Some? || !r.canOpen then
      if s.retrying || r.retryTimer
      then t == s.(retrying := true, retries := if s.retrying then s.retries else 0)
      else IsRefused(s.(current := None), t.(current := None), i) && t.current == s.current
    else if !ScreenOpens(s.kind, r) then IsRefused(s, t, i) && t.kind == KindKept(s.kind, r)
    else if r.tickTimer then IsUp(s, t, i, r.now) && t.kind == KindKept(s.kind, r)
    else
      && t.lists == s.lists[i := s.lists[i].(deadline := Some(r.now + s.lists[i].spec.timeout as real),
                                            screen := true, ended := Some(Answered(Closed)))]
      && t.current.None? && t.waiting.None? && t.outcomes == s.outcomes + [Answer(i, Closed, None)]
      && t.kind == KindKept(s.kind, r)
  }

  lemma {:induction false} OpeningDecides(s: State, i: nat, r: Receiver)
    requires i < |s.lists| && s.waiting == Some(i) && s.lists[i].ended.None? && s.current != Some(i)
    ensures Decided(s, OpenAndReport(s, i, r), i, r)
  {
    var up := s.lists[i].(deadline := Some(r.now + s.lists[i].spec.timeout as real), screen := true);
    assert s.lists[i := up][i := up.(ended := Some(Answered(Closed)))] ==
           s.lists[i := up.(ended := Some(Answered(Closed)))];
  }

  /** Every open list has this ending now, and no other list changed. */
  ghost predicate AllEnded(lists: seq<Controller>, after: seq<Controller>, ending: Ending)
    requires |lists| <= |after|
  {
    forall k: nat :: k < |lists| ==>
      after[k] == if lists[k].ended.None? then lists[k].(ended := Some(Answered(ending))) else lists[k]
  }

  lemma {:induction false} ClosingEnds(s: State, ending: Ending)
    requires Consistent(s)
    ensures var t := CloseAll(s, ending);
      && |t.lists| == |s.lists| && AllEnded(s.lists, t.lists, ending)
      && t.current.None? && t.waiting.None? && s.outcomes <= t.outcomes && t.kind == s.kind
      && t.retrying == s.retrying && t.retries == s.retries
  {
    forall k: nat | k < |s.lists|
      ensures CloseAll(s, ending).lists[k] ==
              if s.lists[k].ended.None? then s.lists[k].(ended := Some(Answered(ending))) else s.lists[k]
    {
      assert Unended(s, k) <==> s.lists[k].ended.None?;
    }
  }

  /** An accepted command: every open list ends `replaced`, and the new one is shown, waits, or is refused. */
  lemma {:induction false} RequestDecides(s: State, spec: Spec, r: Receiver) returns (cleared: State)
    requires Consistent(s) && s.kind.Some?
    ensures cleared.current.None? && cleared.waiting == Some(|s.lists|) && !cleared.retrying && cleared.kind == s.kind
    ensures |cleared.lists| == |s.lists| + 1 && cleared.lists[|s.lists|] == Controller(spec, None, None, false)
    ensures AllEnded(s.lists, cleared.lists, Replaced)
    ensures s.outcomes <= cleared.outcomes
    ensures Decided(cleared, Step(s, Request(Some(spec), false, r)), |s.lists|, r)
  {
    ClosingEnds(s, Replaced);
    hide CloseAll, OpenAndReport, Decided, Consistent;
    var t := CloseAll(s, Replaced);
    cleared := t.(lists := t.lists + [Controller(spec, None, None, false)], waiting := Some(|t.lists|),
                  retrying := false, retries := 0);
    OpeningDecides(cleared, |t.lists|, r);
  }

  /** A command that breaks the contract, comes in standby or finds no screen to use changes nothing. */
  lemma {:induction false} RequestIgnored(s: State, payload: Option<Spec>, standby: bool, r: Receiver)
    requires Consistent(s) && (payload.None? || standby || s.kind.None?)
    ensures Step(s, Request(payload, standby, r)) == s
  {
  }

  /** A turn of the waiting timer: the fortieth in vain refuses the list, any other tries it again. */
  lemma {:induction false} RetryDecides(s: State, r: Receiver)
    requires Consistent(s)
    ensures s.waiting.None? ==> Step(s, Retry(r)) == s.(retrying := false)
    ensures s.waiting.Some? ==>
      var i, t := s.waiting.value, s.(retries := s.retries + 1);
      if t.retries >= 40 && r.session && !r.canOpen then IsRefused(s, Step(s, Retry(r)), i)
      else Decided(t, Step(s, Retry(r)), i, r)
  {
    if s.waiting.Some? { OpeningDecides(s.(retries := s.retries + 1), s.waiting.value, r); }
  }

  /** A screen that closes ends its list `closed`, unless it ended before; a list that waits gets its turn. */
  lemma {:induction false} GoneDecides(s: State, i: nat, r: Receiver) returns (closed: State)
    requires Consistent(s) && i < |s.lists|
    ensures var gone := s.(lists := s.lists[i := s.lists[i].(screen := false)]);
      if s.lists[i].ended.None? then JustEnded(gone, closed, i, Closed, None) else closed == gone
    ensures if closed.waiting.None? then Step(s, ScreenGone(i, r)) == closed
            else Decided(closed, Step(s, ScreenGone(i, r)), closed.waiting.value, r)
  {
    var gone := s.(lists := s.lists[i := s.lists[i].(screen := false)]);
    closed := End(gone, i, Closed, None);
    assert closed.current != Some(i);
    if closed.waiting.Some? { OpeningDecides(closed, closed.waiting.value, r); }
  }

  /** Standby and stop end every open list `closed`. */
  lemma {:induction false} ClosingDecides(s: State)
    requires Consistent(s)
    ensures var t := Step(s, Standby);
      && |t.lists| == |s.lists| && t.current.None? && t.waiting.None? && s.outcomes <= t.outcomes
      && AllEnded(s.lists, t.lists, Closed)
      && Step(s, Stop) == t.(retrying := false)
  {
    ClosingEnds(s, Closed);
  }

  lemma {:induction false} SkinDecides(s: State, kind: Option<Kind>)
    requires Consistent(s)
    ensures Step(s, SkinReloaded(kind)) == s.(kind := kind)
  {
  }
}
