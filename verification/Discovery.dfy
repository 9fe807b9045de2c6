/** Home Assistant's component set and how a payload changes it (src/MQTTBridge/discovery.py). */
module Discovery {
  import opened Json

  /** A component's fields by name; `p` is its platform. */
  type Component = Fields

  function Platform(c: Component): string {
    if "p" in c && c["p"].Quoted? then c["p"].text else ""
  }

  /** A component cut down to nothing but its platform: a removal. */
  predicate IsRemoval(c: Component) {
    c.Keys == {"p"}
  }

  function Removal(platform: string): (c: Component)
    ensures IsRemoval(c)
  {
    map["p" := Quoted(platform)]
  }

  /** What `add` makes: a platform that is not empty, and more fields beside it. */
  predicate IsAnnounced(c: Component) {
    Platform(c) != "" && |c| > 1
  }

  ghost predicate Announced(components: map<string, Component>) {
    forall key :: key in components ==> IsAnnounced(components[key])
  }

  /** Such as a volume control with its platform and its name. */
  lemma {:induction false} VolumeIsAnnounced()
    ensures Announced(map["vol" := map["p" := Quoted("number"), "name" := Quoted("Volume")]])
  {
    var volume: Component := map["p" := Quoted("number"), "name" := Quoted("Volume")];
    assert volume.Keys == {"p", "name"};
  }

  // ---------------------------------------------------------------- as a member of the payload

  function Written(components: map<string, Component>): Value {
    Members(map key | key in components :: Members(components[key]))
  }

  function Read(value: Value): map<string, Component> {
    if value.Members?
    then map key | key in value.members && value.members[key].Members? :: value.members[key].members
    else map[]
  }

  lemma {:induction false} ReadsBack(components: map<string, Component>)
    ensures Read(Written(components)) == components
  {
  }

  // ---------------------------------------------------------------- removals and the record

  /** `finish`: the removals of what was announced last time and is not here now. */
  function Finish(components: map<string, Component>, previous: map<string, string>): map<string, Component> {
    components + map key | key in previous.Keys - components.Keys :: Removal(previous[key])
  }

  ghost predicate Finished(components: map<string, Component>, previous: map<string, string>, rest: set<string>,
                           all: map<string, Component>)
  {
    && (forall key :: key in all <==> key in components || (key in previous && key !in rest))
    && (forall key :: key in all ==> all[key] == if key in components then components[key] else Removal(previous[key]))
  }

  lemma {:induction false} FinishedIsFinish(components: map<string, Component>, previous: map<string, string>,
      all: map<string, Component>)
    requires Finished(components, previous, {}, all)
    ensures all == Finish(components, previous)
  {
    var finished := Finish(components, previous);
    assert forall key :: key in all <==> key in finished;
  }

  method FinishComponents(components: map<string, Component>, previous: map<string, string>)
    returns (all: map<string, Component>)
    ensures all == Finish(components, previous)
  {
    all := components;
    var rest := previous.Keys;
    while rest != {}
      invariant rest <= previous.Keys
      invariant Finished(components, previous, rest, all)
      decreases rest
    {
      var key :| key in rest;
      var removal := Removal(previous[key]);
      if key !in all { all := all[key := removal]; }
      rest := rest - {key};
    }
    FinishedIsFinish(components, previous, all);
  }

  /** `component_platforms`: the platforms of the components that are not removals. */
  function ComponentPlatforms(components: map<string, Component>): map<string, string> {
    map key | key in components && IsAnnounced(components[key]) :: Platform(components[key])
  }

  method FindPlatforms(components: map<string, Component>) returns (found: map<string, string>)
    ensures found == ComponentPlatforms(components)
  {
    found := map[];
    var rest := components.Keys;
    while rest != {}
      invariant rest <= components.Keys
      invariant found == map key | key in ComponentPlatforms(components).Keys - rest :: Platform(components[key])
      decreases rest
    {
      var key :| key in rest;
      var component := components[key];
      var platform := Platform(component);
      if platform != "" && |component| > 1 { found := found[key := platform]; }
      rest := rest - {key};
    }
  }

  /**
   The components Home Assistant has after a payload: it keeps what the
   payload leaves out and drops what is cut down.
   */
  function Received(home: set<string>, components: map<string, Component>): set<string> {
    home + components.Keys - set key | key in components && IsRemoval(components[key])
  }

  lemma {:induction false} RemovalIsShort(c: Component)
    requires IsRemoval(c)
    ensures |c| == 1
  {
  }

  /** The record kept of a payload is exactly what it announces. */
  lemma {:induction false} RecordIsAnnounced(components: map<string, Component>, previous: map<string, string>)
    requires Announced(components)
    ensures ComponentPlatforms(Finish(components, previous)).Keys == components.Keys
    ensures forall key :: key in components ==>
      ComponentPlatforms(Finish(components, previous))[key] == Platform(components[key])
  {
    var all := Finish(components, previous);
    forall key | key in all && key !in components ensures |all[key]| == 1 {
      RemovalIsShort(all[key]);
    }
  }

  /** After a payload, Home Assistant has what was announced - exactly when the record named whatever else it had. */
  lemma {:induction false} ReceivedIsAnnounced(home: set<string>, components: map<string, Component>,
      previous: map<string, string>)
    requires Announced(components)
    ensures Received(home, Finish(components, previous)) == components.Keys <==> home <= previous.Keys + components.Keys
  {
  }
}
