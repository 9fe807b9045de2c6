/** The node as it runs: the state file in memory and the bridge's publishing methods. */
module Bridge {
  import opened Json
  import opened Packet
  import opened Discovery
  import opened Retained

  /** What the state file holds, in memory. */
  class StateStore {
    var topics: set<string>
    var componentKeys: map<string, string>
    var dirty: bool

    constructor ()
      ensures topics == {} && componentKeys == map[] && !dirty
    {
      topics, componentKeys, dirty := {}, map[], false;
    }

    method Remember(topic: string) returns (added: bool)
      modifies this
      ensures topics == old(topics) + (if topic == "" then {} else {topic})
      ensures added <==> topic != "" && topic !in old(topics)
      ensures dirty == (old(dirty) || added) && componentKeys == old(componentKeys)
    {
      if topic == "" || topic in topics { return false; }
      topics, dirty := topics + {topic}, true;
      return true;
    }

    method Forget(topic: string) returns (dropped: bool)
      modifies this
      ensures topics == old(topics) - {topic}
      ensures dropped <==> topic in old(topics)
      ensures dirty == (old(dirty) || dropped) && componentKeys == old(componentKeys)
    {
      if topic !in topics { return false; }
      topics, dirty := topics - {topic}, true;
      return true;
    }

    method SetComponentKeys(mapping: map<string, string>)
      modifies this
      ensures componentKeys == mapping && topics == old(topics)
      ensures dirty <==> old(dirty) || mapping != old(componentKeys)
    {
      if mapping != componentKeys { componentKeys, dirty := mapping, true; }
    }
  }

  class Node {
    const names: Names
    const store: StateStore
    var client: bool
    var connected: bool
    var quiet: bool
    var published: map<string, Body>
    var notPublished: map<string, nat>
    ghost var broker: map<string, Sent>
    ghost var home: set<string>

    ghost function Model(): State
      reads this, store
    {
      State(client, connected, quiet, store.topics, published, notPublished, store.componentKeys, broker, home)
    }

    constructor (names: Names, store: StateStore, ghost broker: map<string, Sent>, ghost home: set<string>)
      ensures this.names == names && this.store == store
      ensures Model() == State(false, false, false, store.topics, map[], map[], store.componentKeys, broker, home)
    {
      this.names, this.store := names, store;
      client, connected, quiet, published, notPublished := false, false, false, map[], map[];
      this.broker, this.home := broker, home;
    }

    /** A retained publish handed to the client: what the broker and Home Assistant see of it when it is taken. */
    ghost method Hand(topic: string, sent: Sent, taken: bool)
      modifies this`broker, this`home
      ensures Model() == if taken then Delivered(names, old(Model()), topic, sent) else old(Model())
    {
      if taken {
        var after := Delivered(names, Model(), topic, sent);
        broker, home := after.broker, after.home;
      }
    }

    method TakeBack(topic: string, taken: bool) returns (gone: bool)
      modifies this`broker, this`home, store
      ensures Model() == TakenBack(names, old(Model()), topic, taken)
      ensures gone <==> taken && !quiet && connected && topic in old(store.topics)
    {
      if quiet { return false; }
      if !connected || topic !in store.topics { return false; }
      Hand(topic, NOTHING, taken);
      if !taken { return false; }
      var _ := store.Forget(topic);
      return true;
    }

    method Withhold(topic: string, size: nat, retain: bool, taken: bool)
      modifies this, store
      ensures Model() == Withheld(names, old(Model()), topic, size, retain, taken)
    {
      if !retain { return; }
      if topic !in notPublished { notPublished := notPublished[topic := size]; }
      if Own(names, topic) {
        var _ := TakeBack(topic, taken);
        published := published - {topic};
      }
    }

    method WithholdSuffix(topic: string, size: nat, taken: bool)
      modifies this, store
      ensures Model() == Step(names, old(Model()), WithholdState(topic, size, taken))
    {
      if !client || quiet { return; }
      Withhold(topic, size, true, taken);
    }

    method PublishRaw(topic: string, payload: Payload, retain: bool, volatile: set<string>, taken: bool)
      modifies this, store
      ensures Model() == Step(names, old(Model()), Publish(topic, payload, retain, volatile, taken))
    {
      if !client || quiet { return; }
      var size := Oversize(topic, Wire(names.encode, payload));
      if size > 0 {
        Withhold(topic, size, retain, taken);
        return;
      }
      if retain {
        Hand(topic, Sent(payload, volatile), taken);
        var _ := store.Remember(topic);
        published := published[topic := ChangeKey(names.encode, payload, volatile)];
      }
      notPublished := notPublished - {topic};
    }

    method PublishChanged(topic: string, payload: Payload, retain: bool, volatile: set<string>, taken: bool)
      modifies this, store
      ensures Model() == Step(names, old(Model()), PublishState(topic, payload, retain, volatile, taken))
    {
      var key := ChangeKey(names.encode, payload, volatile);
      if retain && topic in published && published[topic] == key { return; }
      PublishRaw(topic, payload, retain, volatile, taken);
    }

    method RetractTopic(topic: string, taken: bool)
      modifies this, store
      ensures Model() == Step(names, old(Model()), Retract(topic, taken))
    {
      if !client || quiet { return; }
      Hand(topic, NOTHING, taken);
      var _ := store.Forget(topic);
      published := published - {topic};
      notPublished := notPublished - {topic};
    }

    method RetractError(topic: string, taken: bool) returns (gone: bool)
      modifies this, store
      ensures Model() == Step(names, old(Model()), RetractLastError(topic, taken))
      ensures gone <==> client && !quiet && taken
    {
      if !client || quiet { return false; }
      Hand(topic, NOTHING, taken);
      if !taken { return false; }
      var _ := store.Forget(topic);
      published := published - {topic};
      return true;
    }

    method Forget()
      modifies this`published
      ensures Model() == Step(names, old(Model()), ForgetPublished)
    {
      published := map[];
    }

    method TakeBackAll(accepted: set<string>)
      modifies this`broker, this`home, store
      ensures Model() == Step(names, old(Model()), TakeBackWithheld(accepted))
    {
      var rest := notPublished.Keys;
      ghost var start := Model();
      while rest != {}
        invariant rest <= notPublished.Keys
        invariant TakenSoFar(names, start, accepted, rest, Model())
        decreases rest
      {
        var topic :| topic in rest;
        ghost var before := Model();
        if Own(names, topic) { var _ := TakeBack(topic, topic in accepted); }
        OneMoreTaken(names, start, accepted, rest, topic, before);
        rest := rest - {topic};
      }
      AllTaken(names, start, accepted, Model());
    }

    method PublishDiscovery(components: map<string, Component>, rest: Fields, taken: bool)
      modifies this, store
      ensures Model() == Step(names, old(Model()), Discover(components, rest, taken))
    {
      hide Oversize, Withheld, Delivered, Finish, ComponentPlatforms, Written;
      var all := FinishComponents(components, store.componentKeys);
      PublishRaw(names.device, Object(rest["cmps" := Written(all)]), true, {}, taken);
      if names.device in notPublished { return; }
      var platforms := FindPlatforms(all);
      store.SetComponentKeys(platforms);
    }
  }

  /** The retractions made before the topics of `rest` are looked at. */
  ghost predicate TakenSoFar(names: Names, start: State, accepted: set<string>, rest: set<string>, s: State) {
    var back := ToTakeBack(names, start, accepted) - rest;
    s == start.(broker := start.broker - back, remembered := start.remembered - back,
                home := if names.device in back then {} else start.home)
  }

  lemma {:induction false} OneMoreTaken(names: Names, start: State, accepted: set<string>, rest: set<string>,
      topic: string, s: State)
    requires TakenSoFar(names, start, accepted, rest, s) && topic in rest && rest <= start.notPublished.Keys
    ensures TakenSoFar(names, start, accepted, rest - {topic},
                       if Own(names, topic) then TakenBack(names, s, topic, topic in accepted) else s)
  {
    var all := ToTakeBack(names, start, accepted);
    if topic in all {
      assert all - (rest - {topic}) == (all - rest) + {topic};
      assert s.broker - {topic} == start.broker - ((all - rest) + {topic});
    } else {
      assert all - (rest - {topic}) == all - rest;
    }
  }

  lemma {:induction false} AllTaken(names: Names, start: State, accepted: set<string>, s: State)
    requires TakenSoFar(names, start, accepted, {}, s)
    ensures s == AllTakenBack(names, start, accepted)
  {
  }
}
