/** What each publish and retraction does, said on the fields of the node's state (src/MQTTBridge/bridge.py). */
module RetainedLaws {
  import opened Json
  import opened Packet
  import opened Retained
  import Discovery

  predicate TooBig(names: Names, topic: string, payload: Payload) {
    PacketSize(topic, Wire(names.encode, payload)) > MAX_PACKET_BYTES
  }

  /** The broker holds the topic no longer, and with the device topic's copy goes the device. */
  ghost predicate Gone(names: Names, s: State, t: State, topic: string) {
    && t.broker == s.broker - {topic} && t.remembered == s.remembered - {topic}
    && t.home == if topic == names.device then {} else s.home
  }

  ghost predicate SameOutside(s: State, t: State) {
    t.broker == s.broker && t.remembered == s.remembered && t.home == s.home
  }

  /**
   A retained payload that will not be sent for its size: the first size is noted, and of a topic of the node's own
   the older copy is taken back - when it is remembered, the session is open and the client takes the retraction.
   */
  ghost predicate HeldBack(names: Names, s: State, t: State, topic: string, size: nat, taken: bool) {
    && t.notPublished == (if topic in s.notPublished then s.notPublished else s.notPublished[topic := size])
    && t.published == (if names.root <= topic then s.published - {topic} else s.published)
    && t.componentKeys == s.componentKeys
    && if names.root <= topic && s.connected && topic in s.remembered && taken
       then Gone(names, s, t, topic) else SameOutside(s, t)
  }

  /** A payload that was handed over: the broker has it when it is retained and was taken, and none when it is empty. */
  ghost predicate HandedOver(names: Names, s: State, t: State, topic: string, payload: Payload, retain: bool,
      volatile: set<string>, taken: bool) {
    && t.notPublished == s.notPublished - {topic} && t.componentKeys == s.componentKeys
    && (if !retain then t.published == s.published && SameOutside(s, t)
        else
          && t.remembered == s.remembered + (if topic == "" then {} else {topic})
          && (topic != names.device || !taken ==> t.home == s.home)
          && topic in t.published && t.published - {topic} == s.published - {topic}
          && t.broker == (if !taken then s.broker
                          else if BodyLength(Wire(names.encode, payload)) == 0 then s.broker - {topic}
                          else s.broker[topic := Sent(payload, volatile)]))
  }

  ghost predicate GoesOut(names: Names, s: State, t: State, topic: string, payload: Payload, retain: bool,
      volatile: set<string>, taken: bool) {
    if !s.client || s.quiet then t == s
    else if !TooBig(names, topic, payload) then HandedOver(names, s, t, topic, payload, retain, volatile, taken)
    else if !retain then t == s
    else HeldBack(names, s, t, topic, PacketSize(topic, Wire(names.encode, payload)), taken)
  }

  lemma {:induction false} WithheldIsHeldBack(names: Names, s: State, topic: string, size: nat, taken: bool)
    requires !s.quiet
    ensures HeldBack(names, s, Withheld(names, s, topic, size, true, taken), topic, size, taken)
  {
    hide Listed, TakenBack;
    var listed := s.(notPublished := Listed(s, topic, size));
    TakenBackKeeps(names, listed, topic, taken);
    TakenBackIs(names, listed, topic, taken);
    ListedIs(s, topic, size);
  }

  lemma {:induction false} ListedIs(s: State, topic: string, size: nat)
    ensures Listed(s, topic, size) == if topic in s.notPublished then s.notPublished else s.notPublished[topic := size]
  {
  }

  lemma {:induction false} TakenBackIs(names: Names, s: State, topic: string, taken: bool)
    requires !s.quiet
    ensures var t := TakenBack(names, s, topic, taken);
      if s.connected && topic in s.remembered && taken then Gone(names, s, t, topic) else t == s
  {
  }

  lemma {:induction false} UnretainedIsLeft(names: Names, s: State, topic: string, size: nat, taken: bool)
    ensures Withheld(names, s, topic, size, false, taken) == s
  {
  }

  lemma {:induction false} PublishedDecides(names: Names, s: State, topic: string, payload: Payload, retain: bool,
      volatile: set<string>, taken: bool)
    ensures GoesOut(names, s, Published(names, s, topic, payload, retain, volatile, taken), topic, payload, retain,
                       volatile, taken)
  {
    hide Wire, ChangeKey, Own, PacketSize, Oversize, Withheld, HeldBack;
    var size := PacketSize(topic, Wire(names.encode, payload));
    OversizeIsExact(topic, Wire(names.encode, payload));
    if !s.quiet { WithheldIsHeldBack(names, s, topic, size, taken); }
    UnretainedIsLeft(names, s, topic, size, taken);
    CachedElsewhere(s.published, topic, ChangeKey(names.encode, payload, volatile));
  }

  lemma {:induction false} CachedElsewhere(published: map<string, Body>, topic: string, key: Body)
    ensures published[topic := key] - {topic} == published - {topic}
  {
  }

  /** A payload that is sent: withheld when it is too big, else handed over. */
  lemma {:induction false} PublishDecides(names: Names, s: State, topic: string, payload: Payload, retain: bool,
      volatile: set<string>, taken: bool)
    ensures GoesOut(names, s, Step(names, s, Publish(topic, payload, retain, volatile, taken)), topic, payload, retain,
                       volatile, taken)
  {
    hide Published, GoesOut;
    PublishedDecides(names, s, topic, payload, retain, volatile, taken);
  }

  /** A payload known to be too big is withheld as if it had been handed over. */
  lemma {:induction false} WithholdDecides(names: Names, s: State, topic: string, size: nat, taken: bool)
    ensures var t := Step(names, s, WithholdState(topic, size, taken));
      if !s.client || s.quiet then t == s else HeldBack(names, s, t, topic, size, taken)
  {
    hide Withheld, HeldBack;
    if !s.quiet { WithheldIsHeldBack(names, s, topic, size, taken); }
  }

  // ---------------------------------------------------------------- only changes are sent

  /** The same but for volatile fields. */
  ghost predicate Alike(a: Payload, b: Payload, volatile: set<string>) {
    match (a, b)
    case (Raw(x), Raw(y)) => x == y
    case (Object(x), Object(y)) =>
      forall name :: name !in volatile ==> (name in x <==> name in y) && (name in x ==> x[name] == y[name])
    case _ => false
  }

  lemma {:induction false} SameApart(x: Fields, y: Fields, volatile: set<string>)
    requires forall name :: name !in volatile ==> (name in x <==> name in y) && (name in x ==> x[name] == y[name])
    ensures x - volatile == y - volatile
  {
  }

  lemma {:induction false} AlikeExactly(encode: Encoder, a: Payload, b: Payload, volatile: set<string>)
    requires Canonical(encode) && a.Raw? == b.Raw?
    ensures ChangeKey(encode, a, volatile) == ChangeKey(encode, b, volatile) <==> Alike(a, b, volatile)
  {
    if a.Object? {
      var x, y := a.fields - volatile, b.fields - volatile;
      assert a.fields - {} == a.fields && b.fields - {} == b.fields;
      if x == y {
        forall name | name !in volatile
          ensures (name in a.fields <==> name in b.fields) && (name in a.fields ==> a.fields[name] == b.fields[name])
        {
          assert name in x <==> name in a.fields;
          assert name in y <==> name in b.fields;
          if name in a.fields { assert a.fields[name] == x[name] == y[name] == b.fields[name]; }
        }
      } else if Alike(a, b, volatile) {
        SameApart(a.fields, b.fields, volatile);
      }
    }
  }

  /**
   Once a retained payload was handed over, `publish_state` drops the next one of its kind exactly when it is the same
   but for volatile fields; any other goes the way of a plain publish.
   */
  lemma {:induction false} ChangesAreSent(names: Names, s: State, topic: string, first: Payload, second: Payload,
      volatile: set<string>, taken: bool, again: bool)
    requires Canonical(names.encode) && s.client && !s.quiet && !TooBig(names, topic, first)
    requires first.Raw? == second.Raw?
    ensures var t := Step(names, s, Publish(topic, first, true, volatile, taken));
      var u := Step(names, t, PublishState(topic, second, true, volatile, again));
      if Alike(first, second, volatile) then u == t
      else GoesOut(names, t, u, topic, second, true, volatile, again)
  {
    AlikeExactly(names.encode, first, second, volatile);
    OversizeIsExact(topic, Wire(names.encode, first));
    hide Wire, ChangeKey, PacketSize, Oversize, GoesOut, Alike, Delivered;
    var t := Step(names, s, Publish(topic, first, true, volatile, taken));
    assert t.published[topic] == ChangeKey(names.encode, first, volatile);
    PublishedDecides(names, t, topic, second, true, volatile, again);
  }

  /** Without a copy in the cache, or unretained, everything is sent. */
  lemma {:induction false} UncachedIsSent(names: Names, s: State, topic: string, payload: Payload, retain: bool,
      volatile: set<string>, taken: bool)
    requires !retain || topic !in s.published
    ensures GoesOut(names, s, Step(names, s, PublishState(topic, payload, retain, volatile, taken)), topic, payload,
                       retain, volatile, taken)
  {
    hide Published, GoesOut;
    PublishedDecides(names, s, topic, payload, retain, volatile, taken);
  }

  /** A connect forgets what was cached; a session that opens, closes or falls quiet changes only that. */
  lemma {:induction false} SessionDecides(names: Names, s: State, client: bool, connected: bool, quiet: bool)
    ensures Step(names, s, ForgetPublished) == s.(published := map[])
    ensures var t := Step(names, s, Session(client, connected, quiet));
      && t.client == client && t.connected == connected && t.quiet == quiet
      && t.broker == s.broker && t.home == s.home && t.remembered == s.remembered && t.published == s.published
      && t.notPublished == s.notPublished && t.componentKeys == s.componentKeys
  {
  }

  /** A run takes its events one after another. */
  lemma {:induction false} RunsInTurn(names: Names, s: State, before: seq<Event>, after: seq<Event>)
    ensures Run(names, s, before + after) == Run(names, Run(names, s, before), after)
    ensures |after| == 1 ==> Run(names, s, after) == Step(names, s, after[0])
  {
    hide Step;
    if after == [] {
      assert before + after == before;
    } else {
      var n := |after| - 1;
      RunsInTurn(names, s, before, after[..n]);
      assert (before + after)[..|before + after| - 1] == before + after[..n];
      if n == 0 { assert after[..0] == []; }
    }
  }

  // ---------------------------------------------------------------- retractions

  /** `retract`: forgotten everywhere; off the broker when it was taken. */
  lemma {:induction false} RetractDecides(names: Names, s: State, topic: string, taken: bool)
    ensures var t := Step(names, s, Retract(topic, taken));
      if !s.client || s.quiet then t == s
      else
        && t.remembered == s.remembered - {topic} && t.published == s.published - {topic}
        && t.notPublished == s.notPublished - {topic} && t.componentKeys == s.componentKeys
        && if taken then Gone(names, s, t, topic) else t.broker == s.broker && t.home == s.home
  {
    hide Own;
  }

  /** The retraction of `last_error`: all or nothing. */
  lemma {:induction false} LastErrorDecides(names: Names, s: State, topic: string, taken: bool)
    ensures var t := Step(names, s, RetractLastError(topic, taken));
      if !s.client || s.quiet || !taken then t == s
      else
        && Gone(names, s, t, topic) && t.published == s.published - {topic}
        && t.notPublished == s.notPublished && t.componentKeys == s.componentKeys
  {
    hide Own;
  }

  /** A connect takes back, of the node's own withheld topics, those remembered whose retraction is taken. */
  lemma {:induction false} TakingBackDecides(names: Names, s: State, accepted: set<string>, topic: string)
    ensures var t := Step(names, s, TakeBackWithheld(accepted));
      var back := !s.quiet && s.connected && topic in s.notPublished && names.root <= topic && topic in s.remembered
        && topic in accepted;
      && (topic in t.broker <==> topic in s.broker && !back)
      && (topic in t.broker ==> t.broker[topic] == s.broker[topic])
      && (topic in t.remembered <==> topic in s.remembered && !back)
      && (topic == names.device ==> t.home == if back then {} else s.home)
      && t == s.(broker := t.broker, remembered := t.remembered, home := t.home)
  {
  }

  // ---------------------------------------------------------------- announcements

  /** The payload of an announcement: what is announced, a removal for what is not any more, and the rest as it is. */
  lemma {:induction false} PayloadOfAnnouncement(components: map<string, Discovery.Component>, rest: Fields,
      previous: map<string, string>, name: string)
    ensures var fields := DeviceFields(components, rest, previous);
      && (name != "cmps" ==> (name in fields <==> name in rest) && (name in rest ==> fields[name] == rest[name]))
      && "cmps" in fields && fields["cmps"].Members?
      && var written := fields["cmps"].members;
         && (name in written <==> name in components || name in previous)
         && (name in components ==> written[name] == Members(components[name]))
         && (name in previous && name !in components ==>
               written[name] == Members(map["p" := Quoted(previous[name])]))
  {
  }

  lemma {:induction false} RecordDecides(components: map<string, Discovery.Component>, previous: map<string, string>,
      key: string)
    requires Discovery.Announced(components)
    ensures var record := Discovery.ComponentPlatforms(Discovery.Finish(components, previous));
      && (key in record <==> key in components)
      && (key in components ==> "p" in components[key] && components[key]["p"] == Quoted(record[key]))
  {
    Discovery.RecordIsAnnounced(components, previous);
    var record := Discovery.ComponentPlatforms(Discovery.Finish(components, previous));
    assert key in record.Keys <==> key in components.Keys;
  }

  lemma {:induction false} DiscoveredIs(names: Names, s: State, components: map<string, Discovery.Component>,
      rest: Fields, taken: bool)
    ensures var sent := Published(names, s, names.device, Object(DeviceFields(components, rest, s.componentKeys)), true,
                                  {}, taken);
      Step(names, s, Discover(components, rest, taken)) ==
      if names.device in sent.notPublished then sent
      else sent.(componentKeys := Discovery.ComponentPlatforms(Discovery.Finish(components, s.componentKeys)))
  {
    hide Published, DeviceFields, Discovery.ComponentPlatforms, Discovery.Finish;
  }

  /** An announcement is a retained publish; its components are recorded unless its topic is withheld after it. */
  lemma {:induction false} AnnouncementDecides(names: Names, s: State, components: map<string, Discovery.Component>,
      rest: Fields, taken: bool, key: string)
    requires Discovery.Announced(components)
    ensures var t := Step(names, s, Discover(components, rest, taken));
      var payload := Object(DeviceFields(components, rest, s.componentKeys));
      && GoesOut(names, s, t.(componentKeys := s.componentKeys), names.device, payload, true, {}, taken)
      && if names.device in t.notPublished then t.componentKeys == s.componentKeys
         else
           && (key in t.componentKeys <==> key in components)
           && (key in components ==> "p" in components[key] && components[key]["p"] == Quoted(t.componentKeys[key]))
  {
    hide Published, GoesOut, Step, DeviceFields, Discovery.ComponentPlatforms, Discovery.Finish, Discovery.Announced;
    var payload := Object(DeviceFields(components, rest, s.componentKeys));
    PublishedDecides(names, s, names.device, payload, true, {}, taken);
    PublishedKeepsRecord(names, s, names.device, payload, true, {}, taken);
    RecordDecides(components, s.componentKeys, key);
    DiscoveredIs(names, s, components, rest, taken);
  }

  // ---------------------------------------------------------------- when the cache misleads

  /** The broker's copy compares like this payload; a topic it does not hold, like an empty one. */
  ghost predicate Covered(names: Names, s: State, topic: string, payload: Payload, volatile: set<string>) {
    var key := ChangeKey(names.encode, payload, volatile);
    if topic in s.broker then ChangeKey(names.encode, s.broker[topic].payload, s.broker[topic].volatile) == key
    else IsEmpty(key)
  }

  lemma {:induction false} PublishAgreesExactly(names: Names, s: State, topic: string, payload: Payload, retain: bool,
      volatile: set<string>, taken: bool)
    requires Canonical(names.encode) && Agrees(names.encode, s)
    ensures Agrees(names.encode, Published(names, s, topic, payload, retain, volatile, taken)) <==>
      (taken || !retain || !Goes(names, s, topic, payload) || Covered(names, s, topic, payload, volatile))
  {
    var t := Published(names, s, topic, payload, retain, volatile, taken);
    if taken || !retain || !Goes(names, s, topic, payload) {
      forall other ensures AgreesOn(names.encode, t, other) {
        assert AgreesOn(names.encode, s, other);
        PublishedAgrees(names, s, topic, payload, retain, volatile, taken, other);
      }
    } else {
      UntakenIsCached(names, s, topic, payload, volatile);
      forall other | other != topic ensures AgreesOn(names.encode, t, other) {
        assert AgreesOn(names.encode, s, other);
      }
      assert Agrees(names.encode, t) ==> AgreesOn(names.encode, t, topic);
    }
  }

  lemma {:induction false} UntakenIsCached(names: Names, s: State, topic: string, payload: Payload,
      volatile: set<string>)
    requires Goes(names, s, topic, payload)
    ensures var t := Published(names, s, topic, payload, true, volatile, false);
      t.broker == s.broker && t.published == s.published[topic := ChangeKey(names.encode, payload, volatile)]
  {
    hide Wire, ChangeKey, Oversize, Withheld;
  }

  /**
   Cache and broker agree after an event exactly when no publish of it that was handed over was left untaken - or what
   was left untaken is what the broker holds already.
   */
  lemma {:induction false} StepAgreesExactly(names: Names, s: State, event: Event)
    requires Canonical(names.encode) && Agrees(names.encode, s) && WithheldUncached(names, s)
    ensures Agrees(names.encode, Step(names, s, event)) <==>
      (!Lost(names, s, event)
       || match event
          case Publish(topic, payload, _, volatile, _) => Covered(names, s, topic, payload, volatile)
          case PublishState(topic, payload, _, volatile, _) => Covered(names, s, topic, payload, volatile)
          case Discover(components, rest, _) =>
            Covered(names, s, names.device, Object(DeviceFields(components, rest, s.componentKeys)), {})
          case _ => false)
  {
    hide Published, Goes, Covered, Dropped;
    if !Lost(names, s, event) {
      StepAgrees(names, s, event);
    } else {
      match event
      case Publish(topic, payload, retain, volatile, taken) =>
        PublishAgreesExactly(names, s, topic, payload, retain, volatile, taken);
      case PublishState(topic, payload, retain, volatile, taken) =>
        PublishAgreesExactly(names, s, topic, payload, retain, volatile, taken);
      case Discover(components, rest, taken) =>
        var payload := Object(DeviceFields(components, rest, s.componentKeys));
        PublishAgreesExactly(names, s, names.device, payload, true, {}, taken);
        SameCopiesAgree(names.encode, Published(names, s, names.device, payload, true, {}, taken),
                        Step(names, s, event));
      case _ =>
    }
  }

  lemma {:induction false} SameCopiesAgree(encode: Encoder, s: State, t: State)
    requires t.broker == s.broker && t.published == s.published
    ensures Agrees(encode, s) <==> Agrees(encode, t)
  {
    forall topic ensures AgreesOn(encode, s, topic) <==> AgreesOn(encode, t, topic) {}
  }

  /** From a connect on, with every publish taken, cache and broker agree. */
  lemma {:induction false} AgreesWhenTaken(names: Names, s: State, events: seq<Event>)
    requires Canonical(names.encode)
    requires forall e :: e in events ==>
               (e.Publish? ==> e.taken) && (e.PublishState? ==> e.taken) && (e.Discover? ==> e.taken)
    ensures Agrees(names.encode, Run(names, Step(names, s, ForgetPublished), events))
  {
    NoneIsLost(names, Step(names, s, ForgetPublished), events);
    AgreesSinceConnect(names, s, events);
  }

  lemma {:induction false} NoneIsLost(names: Names, s: State, events: seq<Event>)
    requires forall e :: e in events ==>
               (e.Publish? ==> e.taken) && (e.PublishState? ==> e.taken) && (e.Discover? ==> e.taken)
    ensures NoneLost(names, s, events)
  {
    hide Step, Goes;
    if events == [] {
    } else {
      NoneIsLost(names, s, events[..|events| - 1]);
      assert events[|events| - 1] in events;
    }
  }

  /**
   A node that announces the same components every time keeps its record, whichever announcements are lost: Home
   Assistant never has another, and all it has are recorded.
   */
  lemma {:induction false} SameAnnouncementsKeep(names: Names, s: State, events: seq<Event>, all: set<string>)
    requires Canonical(names.encode) && HomeKnown(s) && !Own(names, names.device) && s.home <= all
    requires forall e :: e in events ==>
               && (e.Publish? ==> e.topic != names.device) && (e.PublishState? ==> e.topic != names.device)
               && (e.Discover? ==> Discovery.Announced(e.components) && e.components.Keys == all)
    ensures HomeKnown(Run(names, s, events)) && Run(names, s, events).home <= all
  {
    if events == [] {
    } else {
      var n := |events| - 1;
      SameAnnouncementsKeep(names, s, events[..n], all);
      assert events[n] in events;
      SameAnnouncementKeeps(names, Run(names, s, events[..n]), events[n], all);
    }
  }

  lemma {:induction false} SameAnnouncementKeeps(names: Names, s: State, e: Event, all: set<string>)
    requires Canonical(names.encode) && HomeKnown(s) && !Own(names, names.device) && s.home <= all
    requires (e.Publish? ==> e.topic != names.device) && (e.PublishState? ==> e.topic != names.device)
    requires e.Discover? ==> Discovery.Announced(e.components) && e.components.Keys == all
    ensures HomeKnown(Step(names, s, e)) && Step(names, s, e).home <= all
  {
    hide Discovered, Published, Dropped, Withheld, Canonical, Own;
    match e
    case Publish(topic, payload, retain, volatile, taken) =>
      PublishedKeepsRecord(names, s, topic, payload, retain, volatile, taken);
    case PublishState(topic, payload, retain, volatile, taken) =>
      PublishedKeepsRecord(names, s, topic, payload, retain, volatile, taken);
    case WithholdState(topic, size, taken) => WithheldKeeps(names, s, topic, size, true, taken);
    case Discover(components, rest, taken) => AnnouncingAllKeeps(names, s, components, rest, taken);
    case _ =>
  }

  lemma {:induction false} AnnouncingAllKeeps(names: Names, s: State, components: map<string, Discovery.Component>,
      rest: Fields, taken: bool)
    requires Canonical(names.encode) && HomeKnown(s) && !Own(names, names.device) && s.home <= components.Keys
    requires Discovery.Announced(components)
    ensures var t := Discovered(names, s, components, rest, taken); HomeKnown(t) && t.home <= components.Keys
  {
    hide Discovered, Goes, RecordedUnsent, Canonical, Own;
    AnnouncementKeepsRecord(names, s, components, rest, taken);
    if Reaches(names, s, components, rest, taken) {
      HomeIsAnnounced(names, s, components, rest);
    } else {
      UnsentIsUnheard(names, s, components, rest, taken);
    }
  }
}
