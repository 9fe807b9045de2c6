/**
 The retained topics of one node: what the broker holds, what the state file remembers, what the change cache was
 made from, and what Home Assistant has (src/MQTTBridge/bridge.py). One step for every way the node publishes.
 */
module Retained {
  import opened Json
  import opened Packet
  import opened Discovery

  datatype Payload = Raw(body: Body) | Object(fields: Fields)

  /** A payload, and the fields of it that its publisher does not count as a change. */
  datatype Sent = Sent(payload: Payload, volatile: set<string>)

  type Encoder = Fields -> string

  /** What canonical JSON gives: different objects never share a text, and no object's text is empty. */
  ghost predicate Canonical(encode: Encoder) {
    forall a, b :: encode(a) != "" && (encode(a) == encode(b) ==> a == b)
  }

  /** `_encoded`, on a payload's fields. */
  ghost function Encoded(fields: Fields): string {
    Json.Encode(Members(fields))
  }

  /** The bridge's own encoding is canonical. */
  lemma {:induction false} EncodedIsCanonical()
    ensures Canonical(Encoded)
  {
    forall a: Fields, b: Fields ensures Encoded(a) != "" && (Encoded(a) == Encoded(b) ==> a == b) {
      EncodeDiffers(Members(a), Members(b));
    }
  }

  /** A node's names, and its JSON encoder. */
  datatype Names = Names(root: string, device: string, encode: Encoder)

  datatype State = State(
    client: bool, connected: bool, quiet: bool,
    remembered: set<string>, published: map<string, Body>, notPublished: map<string, nat>,
    componentKeys: map<string, string>,
    broker: map<string, Sent>, home: set<string>)

  datatype Event =
    | Publish(topic: string, payload: Payload, retain: bool, volatile: set<string>, taken: bool)
    | PublishState(topic: string, payload: Payload, retain: bool, volatile: set<string>, taken: bool)
    | WithholdState(topic: string, size: nat, taken: bool)
    | TakeBackWithheld(accepted: set<string>)
    | Retract(topic: string, taken: bool)
    | RetractLastError(topic: string, taken: bool)
    | Discover(components: map<string, Component>, rest: Fields, taken: bool)
    | ForgetPublished
    | Session(client: bool, connected: bool, quiet: bool)

  // ---------------------------------------------------------------- payloads

  function Wire(encode: Encoder, payload: Payload): Body {
    match payload
    case Raw(body) => body
    case Object(fields) => Text(encode(fields))
  }

  /** `_change_key`: what "has this changed?" is asked about. */
  function ChangeKey(encode: Encoder, payload: Payload, volatile: set<string>): Body {
    if volatile == {} || payload.Raw? then Wire(encode, payload) else Text(encode(payload.fields - volatile))
  }

  predicate IsEmpty(body: Body) {
    BodyLength(body) == 0
  }

  /** Under the node's own tree. */
  predicate Own(names: Names, topic: string) {
    names.root <= topic
  }

  /**
   The components Home Assistant has once the device topic's retained
   payload reached it: an empty one deletes the device.
   */
  function Heard(names: Names, s: State, topic: string, sent: Sent): set<string> {
    if topic != names.device then s.home
    else if IsEmpty(Wire(names.encode, sent.payload)) then {}
    else if sent.payload.Object? && "cmps" in sent.payload.fields
    then Received(s.home, Read(sent.payload.fields["cmps"]))
    else s.home
  }

  /** The broker's side of a publish the client took: an empty retained payload removes the copy. */
  function Delivered(names: Names, s: State, topic: string, sent: Sent): State {
    s.(broker := if IsEmpty(Wire(names.encode, sent.payload)) then s.broker - {topic} else s.broker[topic := sent],
       home := Heard(names, s, topic, sent))
  }

  const NOTHING := Sent(Raw(Text("")), {})

  // ---------------------------------------------------------------- steps

  function TakenBack(names: Names, s: State, topic: string, taken: bool): State {
    if s.quiet || !s.connected || topic !in s.remembered || !taken then s
    else
      var told := Delivered(names, s, topic, NOTHING);
      told.(remembered := s.remembered - {topic})
  }

  function Listed(s: State, topic: string, size: nat): map<string, nat> {
    if topic in s.notPublished then s.notPublished else s.notPublished[topic := size]
  }

  function Withheld(names: Names, s: State, topic: string, size: nat, retain: bool, taken: bool): State {
    if !retain then s
    else
      var listed := s.(notPublished := Listed(s, topic, size));
      if !Own(names, topic) then listed
      else
        var back := TakenBack(names, listed, topic, taken);
        back.(published := back.published - {topic})
  }

  function Published(names: Names, s: State, topic: string, payload: Payload, retain: bool, volatile: set<string>,
      taken: bool): State {
    var size := Oversize(topic, Wire(names.encode, payload));
    if !s.client || s.quiet then s
    else if size > 0 then Withheld(names, s, topic, size, retain, taken)
    else
      var told := if retain && taken then Delivered(names, s, topic, Sent(payload, volatile)) else s;
      var noted := if !retain then told else
        told.(remembered := if topic == "" then s.remembered else s.remembered + {topic},
              published := s.published[topic := ChangeKey(names.encode, payload, volatile)]);
      noted.(notPublished := s.notPublished - {topic})
  }

  /** `publish_state` drops a retained payload that has not changed. */
  predicate Dropped(names: Names, s: State, topic: string, payload: Payload, retain: bool, volatile: set<string>) {
    retain && topic in s.published && s.published[topic] == ChangeKey(names.encode, payload, volatile)
  }

  function DeviceFields(components: map<string, Component>, rest: Fields, previous: map<string, string>): Fields {
    rest["cmps" := Written(Finish(components, previous))]
  }

  function Discovered(names: Names, s: State, components: map<string, Component>, rest: Fields, taken: bool): State {
    var fields := DeviceFields(components, rest, s.componentKeys);
    var sent := Published(names, s, names.device, Object(fields), true, {}, taken);
    if names.device in sent.notPublished then sent
    else sent.(componentKeys := ComponentPlatforms(Finish(components, s.componentKeys)))
  }

  function Retracted(names: Names, s: State, topic: string, taken: bool): State {
    if !s.client || s.quiet then s
    else
      var told := if taken then Delivered(names, s, topic, NOTHING) else s;
      told.(remembered := s.remembered - {topic}, published := s.published - {topic},
            notPublished := s.notPublished - {topic})
  }

  function LastErrorRetracted(names: Names, s: State, topic: string, taken: bool): State {
    if !s.client || s.quiet || !taken then s
    else
      var told := Delivered(names, s, topic, NOTHING);
      told.(remembered := s.remembered - {topic}, published := s.published - {topic})
  }

  /** The withheld topics a connect takes back, given which retractions the client takes. */
  function ToTakeBack(names: Names, s: State, taken: set<string>): set<string> {
    if s.quiet || !s.connected then {}
    else set topic | topic in s.notPublished && topic in taken && topic in s.remembered && Own(names, topic)
  }

  function AllTakenBack(names: Names, s: State, taken: set<string>): State {
    var back := ToTakeBack(names, s, taken);
    s.(broker := s.broker - back, remembered := s.remembered - back,
       home := if names.device in back then {} else s.home)
  }

  function Step(names: Names, s: State, event: Event): State {
    match event
    case Publish(topic, payload, retain, volatile, taken) =>
      Published(names, s, topic, payload, retain, volatile, taken)
    case PublishState(topic, payload, retain, volatile, taken) =>
      if Dropped(names, s, topic, payload, retain, volatile) then s
      else Published(names, s, topic, payload, retain, volatile, taken)
    case WithholdState(topic, size, taken) =>
      if !s.client || s.quiet then s else Withheld(names, s, topic, size, true, taken)
    case TakeBackWithheld(taken) => AllTakenBack(names, s, taken)
    case Retract(topic, taken) => Retracted(names, s, topic, taken)
    case RetractLastError(topic, taken) => LastErrorRetracted(names, s, topic, taken)
    case Discover(components, rest, taken) => Discovered(names, s, components, rest, taken)
    case ForgetPublished => s.(published := map[])
    case Session(client, connected, quiet) => s.(client := client, connected := connected, quiet := quiet)
  }

  function Run(names: Names, s: State, events: seq<Event>): State {
    if events == [] then s else Step(names, Run(names, s, events[..|events| - 1]), events[|events| - 1])
  }

  // ---------------------------------------------------------------- nothing is left behind

  predicate KnownOn(s: State, topic: string) {
    topic in s.broker && topic != "" ==> topic in s.remembered
  }

  /** Every topic the broker holds is remembered. */
  ghost predicate Known(s: State) {
    forall topic :: KnownOn(s, topic)
  }

  /** A plain `retract` forgets the topic whether or not the client took the retraction. */
  ghost predicate LosesTrack(s: State, event: Event, topic: string) {
    event.Retract? && event.topic == topic && !event.taken && s.client && !s.quiet && topic != "" && topic in s.broker
  }

  lemma {:induction false} TakenBackKeeps(names: Names, s: State, topic: string, taken: bool)
    ensures TakenBack(names, s, topic, taken).published == s.published
    ensures TakenBack(names, s, topic, taken).notPublished == s.notPublished
    ensures TakenBack(names, s, topic, taken).componentKeys == s.componentKeys
    ensures topic != names.device ==> TakenBack(names, s, topic, taken).home == s.home
  {
  }

  lemma {:induction false} TakenBackDrops(names: Names, s: State, topic: string, taken: bool)
    ensures var back := TakenBack(names, s, topic, taken);
      || (back.broker == s.broker && back.remembered == s.remembered)
      || (back.broker == s.broker - {topic} && back.remembered == s.remembered - {topic})
  {
  }

  /** Withholding a topic touches nothing but that topic, and what Home Assistant has only when it is the device's. */
  lemma {:induction false} WithheldKeeps(names: Names, s: State, topic: string, size: nat, retain: bool, taken: bool)
    ensures var after := Withheld(names, s, topic, size, retain, taken);
      && after.notPublished == (if retain then Listed(s, topic, size) else s.notPublished)
      && after.published == (if retain && Own(names, topic) then s.published - {topic} else s.published)
      && after.componentKeys == s.componentKeys
      && (topic != names.device || !Own(names, topic) ==> after.home == s.home)
  {
    hide Own, TakenBack, Listed;
    TakenBackKeeps(names, s.(notPublished := Listed(s, topic, size)), topic, taken);
  }

  lemma {:induction false} WithheldDrops(names: Names, s: State, topic: string, size: nat, retain: bool, taken: bool)
    ensures var after := Withheld(names, s, topic, size, retain, taken);
      || (after.broker == s.broker && after.remembered == s.remembered)
      || (retain && Own(names, topic) && after.broker == s.broker - {topic}
          && after.remembered == s.remembered - {topic})
  {
    hide Own, TakenBack, Listed;
    TakenBackDrops(names, s.(notPublished := Listed(s, topic, size)), topic, taken);
  }

  lemma {:induction false} WithheldKnown(names: Names, s: State, topic: string, size: nat, retain: bool, taken: bool,
      t: string)
    requires KnownOn(s, t)
    ensures KnownOn(Withheld(names, s, topic, size, retain, taken), t)
  {
    hide Withheld, Own;
    WithheldDrops(names, s, topic, size, retain, taken);
  }

  lemma {:induction false} PublishedKnown(names: Names, s: State, topic: string, payload: Payload, retain: bool,
                                          volatile: set<string>, taken: bool, t: string)
    requires KnownOn(s, t)
    ensures KnownOn(Published(names, s, topic, payload, retain, volatile, taken), t)
  {
    var size := Oversize(topic, Wire(names.encode, payload));
    if size > 0 { WithheldKnown(names, s, topic, size, retain, taken, t); }
  }

  /** One step leaves a topic unknown on the broker exactly when it is a retraction that was not taken. */
  lemma {:induction false} KnownOnExactly(names: Names, s: State, event: Event, t: string)
    requires KnownOn(s, t)
    ensures KnownOn(Step(names, s, event), t) <==> !LosesTrack(s, event, t)
  {
    match event
    case Publish(topic, payload, retain, volatile, taken) =>
      PublishedKnown(names, s, topic, payload, retain, volatile, taken, t);
    case PublishState(topic, payload, retain, volatile, taken) =>
      PublishedKnown(names, s, topic, payload, retain, volatile, taken, t);
    case WithholdState(topic, size, taken) => WithheldKnown(names, s, topic, size, true, taken, t);
    case Discover(components, rest, taken) =>
      PublishedKnown(names, s, names.device, Object(DeviceFields(components, rest, s.componentKeys)), true, {},
                     taken, t);
    case _ =>
  }

  /** Nothing is left behind by a step exactly when it is not an untaken retraction of a topic the broker holds. */
  lemma {:induction false} KnownExactly(names: Names, s: State, event: Event)
    requires Known(s)
    ensures Known(Step(names, s, event)) <==> forall topic :: !LosesTrack(s, event, topic)
  {
    forall t ensures KnownOn(Step(names, s, event), t) <==> !LosesTrack(s, event, t) {
      assert KnownOn(s, t);
      KnownOnExactly(names, s, event, t);
    }
  }

  lemma {:induction false} WithheldForgets(names: Names, s: State, topic: string, size: nat, retain: bool,
      taken: bool, t: string)
    requires t in s.remembered && t !in Withheld(names, s, topic, size, retain, taken).remembered
    ensures t !in Withheld(names, s, topic, size, retain, taken).broker
  {
    hide Withheld, Own;
    WithheldDrops(names, s, topic, size, retain, taken);
  }

  lemma {:induction false} PublishedForgets(names: Names, s: State, topic: string, payload: Payload, retain: bool,
                                            volatile: set<string>, taken: bool, t: string)
    requires t in s.remembered && t !in Published(names, s, topic, payload, retain, volatile, taken).remembered
    ensures t !in Published(names, s, topic, payload, retain, volatile, taken).broker
  {
    var size := Oversize(topic, Wire(names.encode, payload));
    if s.client && !s.quiet && size > 0 { WithheldForgets(names, s, topic, size, retain, taken, t); }
  }

  /** Apart from `retract`, a topic is forgotten only once the broker has dropped it. */
  lemma {:induction false} ForgottenWhenGone(names: Names, s: State, event: Event, t: string)
    requires t in s.remembered && t !in Step(names, s, event).remembered && !event.Retract?
    ensures t !in Step(names, s, event).broker
  {
    match event
    case Publish(topic, payload, retain, volatile, taken) =>
      PublishedForgets(names, s, topic, payload, retain, volatile, taken, t);
    case PublishState(topic, payload, retain, volatile, taken) =>
      PublishedForgets(names, s, topic, payload, retain, volatile, taken, t);
    case WithholdState(topic, size, taken) => WithheldForgets(names, s, topic, size, true, taken, t);
    case Discover(components, rest, taken) =>
      PublishedForgets(names, s, names.device, Object(DeviceFields(components, rest, s.componentKeys)), true, {},
                       taken, t);
    case _ =>
  }

  /** A running session, and a broker that holds `cam`. */
  function WithCam(): State {
    State(true, true, false, {"a/b/cam"}, map[], map[], map[], map["a/b/cam" := Sent(Raw(Text("{}")), {})], {})
  }

  /** A retraction of it answered "no connection": the copy stays and nothing knows of it. */
  lemma {:induction false} RetractCanLose(names: Names)
    ensures Known(WithCam()) && !Known(Step(names, WithCam(), Retract("a/b/cam", false)))
  {
    assert LosesTrack(WithCam(), Retract("a/b/cam", false), "a/b/cam");
    KnownExactly(names, WithCam(), Retract("a/b/cam", false));
  }

  /** No retraction of this run was refused by the client. */
  lemma {:induction false} KnownThroughout(names: Names, s: State, events: seq<Event>)
    requires Known(s) && forall e :: e in events && e.Retract? ==> e.taken
    ensures Known(Run(names, s, events))
  {
    if events == [] {
    } else {
      var n := |events| - 1;
      KnownThroughout(names, s, events[..n]);
      KnownExactly(names, Run(names, s, events[..n]), events[n]);
    }
  }

  /** On an open session, once the retractions are taken, no withheld topic of the node's own is left on the broker. */
  lemma {:induction false} WithheldAreGone(names: Names, s: State, taken: set<string>, topic: string)
    requires Known(s) && s.connected && !s.quiet
    requires topic in s.notPublished && topic in taken && topic != "" && Own(names, topic)
    ensures topic !in Step(names, s, TakeBackWithheld(taken)).broker
  {
    assert KnownOn(s, topic);
  }

  // ---------------------------------------------------------------- change suppression

  ghost predicate AgreesOn(encode: Encoder, s: State, topic: string) {
    topic in s.published ==>
      if topic in s.broker
      then s.published[topic] == ChangeKey(encode, s.broker[topic].payload, s.broker[topic].volatile)
      else IsEmpty(s.published[topic])
  }

  /** The change cache says, of each topic in it, what the broker's copy is compared by. */
  ghost predicate Agrees(encode: Encoder, s: State) {
    forall topic :: AgreesOn(encode, s, topic)
  }

  /** The publishes of an event that change the cache, and whether they were taken. */
  ghost predicate Lost(names: Names, s: State, event: Event) {
    match event
    case Publish(topic, payload, retain, volatile, taken) => !taken && retain && Goes(names, s, topic, payload)
    case PublishState(topic, payload, retain, volatile, taken) =>
      !taken && retain && Goes(names, s, topic, payload) && !Dropped(names, s, topic, payload, retain, volatile)
    case Discover(components, rest, taken) =>
      !taken && Goes(names, s, names.device, Object(DeviceFields(components, rest, s.componentKeys)))
    case _ => false
  }

  /** The payload is handed to the client. */
  predicate Goes(names: Names, s: State, topic: string, payload: Payload) {
    s.client && !s.quiet && Oversize(topic, Wire(names.encode, payload)) == 0
  }

  lemma {:induction false} KeyIsEmpty(encode: Encoder, payload: Payload, volatile: set<string>)
    requires Canonical(encode)
    ensures IsEmpty(ChangeKey(encode, payload, volatile)) <==> IsEmpty(Wire(encode, payload))
  {
  }

  lemma {:induction false} WithheldAgrees(names: Names, s: State, topic: string, size: nat, retain: bool,
      taken: bool, t: string)
    requires AgreesOn(names.encode, s, t)
    ensures AgreesOn(names.encode, Withheld(names, s, topic, size, retain, taken), t)
  {
    hide Withheld, Own, ChangeKey, IsEmpty;
    WithheldKeeps(names, s, topic, size, retain, taken);
    WithheldDrops(names, s, topic, size, retain, taken);
  }

  lemma {:induction false} PublishedAgrees(names: Names, s: State, topic: string, payload: Payload, retain: bool,
                                           volatile: set<string>, taken: bool, t: string)
    requires Canonical(names.encode) && AgreesOn(names.encode, s, t)
    requires taken || !retain || !Goes(names, s, topic, payload)
    ensures AgreesOn(names.encode, Published(names, s, topic, payload, retain, volatile, taken), t)
  {
    hide Own, Heard, Utf8Length, Withheld;
    var size := Oversize(topic, Wire(names.encode, payload));
    KeyIsEmpty(names.encode, payload, volatile);
    if s.client && !s.quiet && size > 0 { WithheldAgrees(names, s, topic, size, retain, taken, t); }
  }

  lemma {:induction false} TakenBackAgrees(names: Names, s: State, taken: set<string>, t: string)
    requires AgreesOn(names.encode, s, t) && UncachedOn(names, s, t)
    ensures AgreesOn(names.encode, AllTakenBack(names, s, taken), t)
  {
  }

  lemma {:induction false} StepAgreesOn(names: Names, s: State, event: Event, t: string)
    requires Canonical(names.encode) && AgreesOn(names.encode, s, t) && UncachedOn(names, s, t)
      && !Lost(names, s, event)
    ensures AgreesOn(names.encode, Step(names, s, event), t)
  {
    match event
    case Publish(topic, payload, retain, volatile, taken) =>
      PublishedAgrees(names, s, topic, payload, retain, volatile, taken, t);
    case PublishState(topic, payload, retain, volatile, taken) =>
      if !Dropped(names, s, topic, payload, retain, volatile) {
        PublishedAgrees(names, s, topic, payload, retain, volatile, taken, t);
      }
    case WithholdState(topic, size, taken) => WithheldAgrees(names, s, topic, size, true, taken, t);
    case TakeBackWithheld(accepted) => TakenBackAgrees(names, s, accepted, t);
    case Discover(components, rest, taken) =>
      PublishedAgrees(names, s, names.device, Object(DeviceFields(components, rest, s.componentKeys)), true, {},
                      taken, t);
    case _ =>
  }

  lemma {:induction false} StepAgrees(names: Names, s: State, event: Event)
    requires Canonical(names.encode) && Agrees(names.encode, s) && WithheldUncached(names, s) && !Lost(names, s, event)
    ensures Agrees(names.encode, Step(names, s, event))
  {
    forall t ensures AgreesOn(names.encode, Step(names, s, event), t) {
      assert AgreesOn(names.encode, s, t) && UncachedOn(names, s, t);
      StepAgreesOn(names, s, event, t);
    }
  }

  predicate UncachedOn(names: Names, s: State, topic: string) {
    topic in s.notPublished && Own(names, topic) ==> topic !in s.published
  }

  /** A topic the node withholds is not in the cache, so its next payload that fits goes out. */
  ghost predicate WithheldUncached(names: Names, s: State) {
    forall topic :: UncachedOn(names, s, topic)
  }

  lemma {:induction false} WithholdingUncaches(names: Names, s: State, topic: string, size: nat, retain: bool,
      taken: bool, t: string)
    requires UncachedOn(names, s, t)
    ensures UncachedOn(names, Withheld(names, s, topic, size, retain, taken), t)
  {
    hide Withheld, Own;
    WithheldKeeps(names, s, topic, size, retain, taken);
  }

  lemma {:induction false} PublishingUncaches(names: Names, s: State, topic: string, payload: Payload, retain: bool,
                                              volatile: set<string>, taken: bool, t: string)
    requires UncachedOn(names, s, t)
    ensures UncachedOn(names, Published(names, s, topic, payload, retain, volatile, taken), t)
  {
    var size := Oversize(topic, Wire(names.encode, payload));
    if s.client && !s.quiet && size > 0 { WithholdingUncaches(names, s, topic, size, retain, taken, t); }
  }

  lemma {:induction false} StepUncaches(names: Names, s: State, event: Event, t: string)
    requires UncachedOn(names, s, t)
    ensures UncachedOn(names, Step(names, s, event), t)
  {
    match event
    case Publish(topic, payload, retain, volatile, taken) =>
      PublishingUncaches(names, s, topic, payload, retain, volatile, taken, t);
    case PublishState(topic, payload, retain, volatile, taken) =>
      PublishingUncaches(names, s, topic, payload, retain, volatile, taken, t);
    case WithholdState(topic, size, taken) => WithholdingUncaches(names, s, topic, size, true, taken, t);
    case Discover(components, rest, taken) =>
      PublishingUncaches(names, s, names.device, Object(DeviceFields(components, rest, s.componentKeys)), true, {},
                         taken, t);
    case _ =>
  }

  lemma {:induction false} WithheldStaysUncached(names: Names, s: State, event: Event)
    requires WithheldUncached(names, s)
    ensures WithheldUncached(names, Step(names, s, event))
  {
    forall t ensures UncachedOn(names, Step(names, s, event), t) {
      assert UncachedOn(names, s, t);
      StepUncaches(names, s, event, t);
    }
  }

  /** Every publish of the run that changes the cache was taken. */
  ghost predicate NoneLost(names: Names, s: State, events: seq<Event>) {
    events != [] ==>
      var n := |events| - 1;
      NoneLost(names, s, events[..n]) && !Lost(names, Run(names, s, events[..n]), events[n])
  }

  /**
   From a connect on, as long as every publish was taken, the cache agrees with the broker whatever happens between.
   */
  lemma {:induction false} AgreesSinceConnect(names: Names, s: State, events: seq<Event>)
    requires Canonical(names.encode) && NoneLost(names, Step(names, s, ForgetPublished), events)
    ensures var after := Run(names, Step(names, s, ForgetPublished), events);
      Agrees(names.encode, after) && WithheldUncached(names, after)
  {
    if events == [] {
    } else {
      var n := |events| - 1;
      var before := Run(names, Step(names, s, ForgetPublished), events[..n]);
      AgreesSinceConnect(names, s, events[..n]);
      StepAgrees(names, before, events[n]);
      WithheldStaysUncached(names, before, events[n]);
    }
  }

  /**
   What it means that a payload was dropped as unchanged: the broker's copy is that payload but for volatile fields.
   */
  ghost predicate SameButVolatile(encode: Encoder, held: Sent, payload: Payload, volatile: set<string>) {
    if held.payload.Object? && payload.Object?
    then held.payload.fields - held.volatile == payload.fields - volatile
    else ChangeKey(encode, held.payload, held.volatile) == ChangeKey(encode, payload, volatile)
  }

  lemma {:induction false} DroppedIsOnBroker(names: Names, s: State, topic: string, payload: Payload,
      volatile: set<string>)
    requires Canonical(names.encode) && Agrees(names.encode, s)
    requires Dropped(names, s, topic, payload, true, volatile)
    ensures if topic in s.broker then SameButVolatile(names.encode, s.broker[topic], payload, volatile)
            else IsEmpty(Wire(names.encode, payload))
  {
    assert AgreesOn(names.encode, s, topic);
    KeyIsEmpty(names.encode, payload, volatile);
    if topic in s.broker && s.broker[topic].payload.Object? && payload.Object? {
      var held := s.broker[topic];
      assert held.payload.fields - {} == held.payload.fields && payload.fields - {} == payload.fields;
      assert names.encode(held.payload.fields - held.volatile) == names.encode(payload.fields - volatile);
    }
  }

  /** A dropped object and the broker's copy, sent with the same volatile fields, differ in no other field. */
  lemma {:induction false} DroppedDiffersInVolatile(names: Names, s: State, topic: string, payload: Payload,
      volatile: set<string>, name: string)
    requires Canonical(names.encode) && Agrees(names.encode, s)
    requires Dropped(names, s, topic, payload, true, volatile)
    requires topic in s.broker && s.broker[topic].payload.Object? && payload.Object?
    requires s.broker[topic].volatile == volatile && name !in volatile
    ensures name in payload.fields <==> name in s.broker[topic].payload.fields
    ensures name in payload.fields ==> payload.fields[name] == s.broker[topic].payload.fields[name]
  {
    DroppedIsOnBroker(names, s, topic, payload, volatile);
    var held := s.broker[topic].payload.fields;
    assert name in payload.fields <==> name in payload.fields - volatile;
    assert name in held <==> name in held - volatile;
    if name in held { assert held[name] == (held - volatile)[name] == payload.fields[name]; }
  }

  // ---------------------------------------------------------------- Home Assistant

  /** The record names every component Home Assistant has. */
  ghost predicate HomeKnown(s: State) {
    s.home <= s.componentKeys.Keys
  }

  /** The step leaves the device topic to `publish_discovery`. */
  ghost predicate LeavesDevice(names: Names, event: Event) {
    match event
    case Publish(topic, _, _, _, _) => topic != names.device
    case PublishState(topic, _, _, _, _) => topic != names.device
    case _ => true
  }

  /** The payload of an announcement reaches the broker. */
  ghost predicate Reaches(names: Names, s: State, components: map<string, Component>, rest: Fields, taken: bool) {
    taken && Goes(names, s, names.device, Object(DeviceFields(components, rest, s.componentKeys)))
  }

  lemma {:induction false} AnnouncementHeard(names: Names, s: State, components: map<string, Component>, rest: Fields)
    requires Canonical(names.encode) && Reaches(names, s, components, rest, true)
    ensures Discovered(names, s, components, rest, true).home == Received(s.home, Finish(components, s.componentKeys))
  {
    ReadsBack(Finish(components, s.componentKeys));
    hide Received, Finish, ComponentPlatforms, Read, Written, Oversize;
  }

  /** After a taken announcement Home Assistant has exactly what was announced, and the record says so. */
  lemma {:induction false} HomeIsAnnounced(names: Names, s: State, components: map<string, Component>, rest: Fields)
    requires Canonical(names.encode) && Announced(components) && HomeKnown(s)
    requires Reaches(names, s, components, rest, true)
    ensures Discovered(names, s, components, rest, true).home == components.Keys
    ensures Discovered(names, s, components, rest, true).componentKeys.Keys == components.Keys
  {
    AnnouncementHeard(names, s, components, rest);
    ReceivedIsAnnounced(s.home, components, s.componentKeys);
    RecordIsAnnounced(components, s.componentKeys);
  }

  /**
   The announcement that does not go out but is recorded all the same: handed over and not taken, or not handed over
   while the device topic is not listed as withheld.
   */
  predicate RecordedUnsent(names: Names, s: State, components: map<string, Component>, rest: Fields, taken: bool) {
    if s.client && !s.quiet
    then !taken && Goes(names, s, names.device, Object(DeviceFields(components, rest, s.componentKeys)))
    else names.device !in s.notPublished
  }

  lemma {:induction false} WithheldLists(names: Names, s: State, topic: string, size: nat, taken: bool)
    ensures topic in Withheld(names, s, topic, size, true, taken).notPublished
  {
    hide Withheld, Own;
    WithheldKeeps(names, s, topic, size, true, taken);
  }

  lemma {:induction false} PublishedLists(names: Names, s: State, topic: string, payload: Payload,
      volatile: set<string>, taken: bool)
    ensures topic in Published(names, s, topic, payload, true, volatile, taken).notPublished <==>
      if s.client && !s.quiet then Oversize(topic, Wire(names.encode, payload)) > 0 else topic in s.notPublished
  {
    hide Oversize, Wire, ChangeKey, Delivered, Withheld;
    WithheldLists(names, s, topic, Oversize(topic, Wire(names.encode, payload)), taken);
  }

  /** That is every announcement that neither reaches the broker nor leaves the device topic withheld. */
  lemma {:induction false} RecordedUnsentExactly(names: Names, s: State, components: map<string, Component>,
      rest: Fields, taken: bool)
    ensures RecordedUnsent(names, s, components, rest, taken) <==>
      && !Reaches(names, s, components, rest, taken)
      && names.device !in Discovered(names, s, components, rest, taken).notPublished
  {
    PublishedLists(names, s, names.device, Object(DeviceFields(components, rest, s.componentKeys)), {}, taken);
    hide Oversize, Wire, DeviceFields, Finish, ComponentPlatforms, Own, Published;
  }

  /** A payload that does not reach the broker leaves Home Assistant as it was. */
  lemma {:induction false} UnsentIsUnheard(names: Names, s: State, components: map<string, Component>, rest: Fields,
      taken: bool)
    requires !Reaches(names, s, components, rest, taken) && !Own(names, names.device)
    ensures Discovered(names, s, components, rest, taken).home == s.home
  {
    hide Withheld, Own, Delivered, Oversize, Wire, ChangeKey, DeviceFields, Finish, ComponentPlatforms;
    var payload := Object(DeviceFields(components, rest, s.componentKeys));
    var size := Oversize(names.device, Wire(names.encode, payload));
    WithheldKeeps(names, s, names.device, size, true, taken);
  }

  lemma {:induction false} RecordAfter(names: Names, s: State, components: map<string, Component>, rest: Fields,
      taken: bool)
    requires Announced(components)
    ensures var after := Discovered(names, s, components, rest, taken);
      after.componentKeys.Keys == if names.device in after.notPublished then s.componentKeys.Keys else components.Keys
  {
    RecordIsAnnounced(components, s.componentKeys);
    var fields := DeviceFields(components, rest, s.componentKeys);
    PublishedKeepsRecord(names, s, names.device, Object(fields), true, {}, taken);
  }

  lemma {:induction false} PublishedKeepsRecord(names: Names, s: State, topic: string, payload: Payload, retain: bool,
                                                volatile: set<string>, taken: bool)
    ensures Published(names, s, topic, payload, retain, volatile, taken).componentKeys == s.componentKeys
    ensures topic != names.device ==> Published(names, s, topic, payload, retain, volatile, taken).home == s.home
  {
    hide Oversize, IsEmpty, Wire, ChangeKey, Withheld;
    var size := Oversize(topic, Wire(names.encode, payload));
    if s.client && !s.quiet && size > 0 { WithheldKeeps(names, s, topic, size, retain, taken); }
  }

  /** An announcement keeps the record, unless it was recorded unsent while dropping something Home Assistant has. */
  lemma {:induction false} AnnouncementKeepsRecord(names: Names, s: State, components: map<string, Component>,
      rest: Fields, taken: bool)
    requires Canonical(names.encode) && Announced(components) && HomeKnown(s) && !Own(names, names.device)
    ensures HomeKnown(Discovered(names, s, components, rest, taken)) <==>
      !RecordedUnsent(names, s, components, rest, taken) || s.home <= components.Keys
  {
    hide Received, Finish, ComponentPlatforms, DeviceFields, Discovered;
    RecordedUnsentExactly(names, s, components, rest, taken);
    if Reaches(names, s, components, rest, taken) {
      HomeIsAnnounced(names, s, components, rest);
    } else {
      UnsentIsUnheard(names, s, components, rest, taken);
      RecordAfter(names, s, components, rest, taken);
    }
  }

  /** Everything else leaves the record alone, and Home Assistant with no more than it had. */
  lemma {:induction false} OthersKeepRecord(names: Names, s: State, event: Event)
    requires HomeKnown(s) && !event.Discover? && LeavesDevice(names, event)
    ensures HomeKnown(Step(names, s, event))
  {
    match event
    case Publish(topic, payload, retain, volatile, taken) =>
      PublishedKeepsRecord(names, s, topic, payload, retain, volatile, taken);
    case PublishState(topic, payload, retain, volatile, taken) =>
      PublishedKeepsRecord(names, s, topic, payload, retain, volatile, taken);
    case _ =>
  }

  /** A component the record lost is never removed by name: it stays until a payload announces it again. */
  lemma {:induction false} LostComponentStays(names: Names, s: State, components: map<string, Component>,
      rest: Fields, taken: bool, key: string)
    requires Canonical(names.encode) && Announced(components) && !Own(names, names.device)
    requires key in s.home && key !in s.componentKeys && key !in components
    ensures key in Discovered(names, s, components, rest, taken).home
    ensures key !in Discovered(names, s, components, rest, taken).componentKeys
  {
    RecordAfter(names, s, components, rest, taken);
    if Reaches(names, s, components, rest, taken) {
      AnnouncementHeard(names, s, components, rest);
    } else {
      UnsentIsUnheard(names, s, components, rest, taken);
    }
  }

  ghost predicate Announces(names: Names, events: seq<Event>) {
    forall e :: e in events ==> LeavesDevice(names, e) && (e.Discover? ==> Announced(e.components))
  }

  /** Every announcement of the run that was recorded unsent dropped nothing Home Assistant had. */
  ghost predicate NoneForgotten(names: Names, s: State, events: seq<Event>) {
    events != [] ==>
      var n := |events| - 1;
      && NoneForgotten(names, s, events[..n])
      && var before := Run(names, s, events[..n]);
         match events[n]
         case Discover(components, rest, taken) =>
           RecordedUnsent(names, before, components, rest, taken) ==> before.home <= components.Keys
         case _ => true
  }

  /** Over any run, withheld announcements included, the record names every component Home Assistant has. */
  lemma {:induction false} RecordThroughout(names: Names, s: State, events: seq<Event>)
    requires Canonical(names.encode) && HomeKnown(s) && !Own(names, names.device)
    requires Announces(names, events) && NoneForgotten(names, s, events)
    ensures HomeKnown(Run(names, s, events))
  {
    if events == [] {
    } else {
      var n := |events| - 1;
      var before := Run(names, s, events[..n]);
      RecordThroughout(names, s, events[..n]);
      assert events[n] in events;
      match events[n]
      case Discover(components, rest, taken) => AnnouncementKeepsRecord(names, before, components, rest, taken);
      case _ => OthersKeepRecord(names, before, events[n]);
    }
  }

  /** So the last announcement of a run, once taken, leaves Home Assistant with exactly what it announces. */
  lemma {:induction false} HomeFollows(names: Names, s: State, events: seq<Event>,
      components: map<string, Component>, rest: Fields)
    requires Canonical(names.encode) && HomeKnown(s) && !Own(names, names.device)
    requires Announces(names, events) && NoneForgotten(names, s, events) && Announced(components)
    requires Reaches(names, Run(names, s, events), components, rest, true)
    ensures Discovered(names, Run(names, s, events), components, rest, true).home == components.Keys
  {
    RecordThroughout(names, s, events);
    HomeIsAnnounced(names, Run(names, s, events), components, rest);
  }

  /** A running session, and a volume control that both the record and Home Assistant have. */
  function WithVolume(): State {
    State(true, true, false, {}, map[], map[], map["vol" := "number"], map[], {"vol"})
  }

  lemma {:induction false} RemovalIsSmall()
    ensures |Encoded(DeviceFields(map[], map[], map["vol" := "number"]))| <= 200
  {
    var removal := Members(Removal("number"));
    var components := Written(Finish(map[], map["vol" := "number"]));
    assert components == Members(map["vol" := removal]);
    assert DeviceFields(map[], map[], map["vol" := "number"]) == map["cmps" := components];
    EscapeIsBounded("number");
    hide Escape, DeviceFields, Finish, Written;
    OneMemberIsBounded("p", Quoted("number"));
    OneMemberIsBounded("vol", removal);
    OneMemberIsBounded("cmps", components);
  }

  /** An announcement without it, answered "no connection": the record forgets what Home Assistant still has. */
  lemma {:induction false} UnsentForgets(names: Names)
    requires Canonical(names.encode) && !Own(names, names.device)
    requires Goes(names, WithVolume(), names.device, Object(DeviceFields(map[], map[], map["vol" := "number"])))
    ensures HomeKnown(WithVolume()) && !HomeKnown(Step(names, WithVolume(), Discover(map[], map[], false)))
  {
    hide Discovered, Goes, DeviceFields;
    AnnouncementKeepsRecord(names, WithVolume(), map[], map[], false);
    assert "vol" in WithVolume().home;
  }

  ghost function Node(): (names: Names)
    ensures |names.device| <= 100 && names.encode == Encoded && !Own(names, names.device)
  {
    var names := Names("node/", "homeassistant/device/node/config", Encoded);
    assert names.root[0] != names.device[0];
    names
  }

  /** On a node as it is set up, the payload goes out, and so it happens there. */
  lemma {:induction false} DiscoverCanLose()
    ensures HomeKnown(WithVolume()) && !HomeKnown(Step(Node(), WithVolume(), Discover(map[], map[], false)))
  {
    RemovalIsSmall();
    EncodedIsCanonical();
    hide Node, Encoded, DeviceFields, Canonical, Own;
    assert Goes(Node(), WithVolume(), Node().device, Object(DeviceFields(map[], map[], map["vol" := "number"])));
    UnsentForgets(Node());
  }
}
