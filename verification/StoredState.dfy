/** What a reader stores, and what it judges with when its key set has changed (src/MQTTBridge/trust.py). */
module StoredState {
  import opened Trust
  import opened KeyEvolution
  import Json

  /** The ids of the key set that wrote an entry, and the memory it wrote. */
  datatype Entry = Entry(keys: set<string>, memory: Memory)

  /** One lineage: an entry under each key set's fingerprint. */
  type Part = map<string, Entry>

  datatype State = State(release: Part, acceptance: Part)

  type Fingerprint = seq<Key> -> string

  function Ids(keys: seq<Key>): set<string> {
    set k | k in keys :: k.id
  }

  /** Sets with different ids never share a fingerprint. */
  ghost predicate Distinguishes(fingerprint: Fingerprint) {
    forall a, b :: KeySet(a) && KeySet(b) && fingerprint(a) == fingerprint(b) ==> Ids(a) == Ids(b)
  }

  /** The ids of a set, in order, as one text. */
  ghost function Listing(keys: seq<Key>): string {
    Json.Encode(Json.Items(seq(|keys|, i requires 0 <= i < |keys| => Json.Quoted(keys[i].id))))
  }

  /** A text that lists the ids does that. */
  lemma {:induction false} ListingDistinguishes()
    ensures Distinguishes(Listing)
  {
    forall a: seq<Key>, b: seq<Key> | Listing(a) == Listing(b) ensures Ids(a) == Ids(b) {
      var x := seq(|a|, i requires 0 <= i < |a| => Json.Quoted(a[i].id));
      var y := seq(|b|, i requires 0 <= i < |b| => Json.Quoted(b[i].id));
      Json.EncodeDiffers(Json.Items(x), Json.Items(y));
      assert |a| == |x| == |y| == |b|;
      forall i | 0 <= i < |a| ensures a[i].id == b[i].id { assert x[i] == y[i]; }
      SameIds(a, b);
    }
  }

  lemma {:induction false} SameIds(a: seq<Key>, b: seq<Key>)
    requires |a| == |b| && forall i :: 0 <= i < |a| ==> a[i].id == b[i].id
    ensures Ids(a) == Ids(b)
  {
    forall id ensures id in Ids(a) <==> id in Ids(b) {
      if id in Ids(a) {
        var i :| 0 <= i < |a| && a[i].id == id;
        assert b[i] in b;
      }
      if id in Ids(b) {
        var i :| 0 <= i < |b| && b[i].id == id;
        assert a[i] in a;
      }
    }
  }

  function PartOf(state: State, acceptance: bool): Part {
    if acceptance then state.acceptance else state.release
  }

  // ---------------------------------------------------------------- reading

  /** The entries of sets that share a key with these. */
  function Sources(part: Part, held: set<string>): set<string> {
    set f | f in part && part[f].keys * held != {}
  }

  function Told(part: Part, names: set<string>, id: string): set<nat>
    requires names <= part.Keys
  {
    set f | f in names && id in part[f].memory.serials :: part[f].memory.serials[id]
  }

  ghost predicate IsLargest(numbers: set<nat>, n: nat) {
    n in numbers && forall m :: m in numbers ==> m <= n
  }

  lemma {:induction false} LargestExists(numbers: set<nat>)
    requires numbers != {}
    ensures exists n :: IsLargest(numbers, n)
    decreases numbers
  {
    var some :| some in numbers;
    var rest := numbers - {some};
    assert forall m :: m in numbers <==> m == some || m in rest;
    if rest == {} {
      assert IsLargest(numbers, some);
    } else {
      LargestExists(rest);
      var other :| IsLargest(rest, other);
      assert IsLargest(numbers, if some <= other then other else some);
    }
  }

  ghost function Largest(numbers: set<nat>): (n: nat)
    requires numbers != {}
    ensures IsLargest(numbers, n)
  {
    LargestExists(numbers);
    var n :| IsLargest(numbers, n);
    n
  }

  /** The largest serial these entries hold of each key held, and every key they silence. */
  ghost function MemoryFrom(part: Part, names: set<string>, held: set<string>): Memory
    requires names <= part.Keys
  {
    Memory(map id | id in held && Told(part, names, id) != {} :: Largest(Told(part, names, id)),
           set f, id | f in names && id in part[f].memory.silenced :: id)
  }

  /** `memory_for`, in one lineage. */
  ghost function MemoryFor(part: Part, keys: seq<Key>): Memory {
    MemoryFrom(part, Sources(part, Ids(keys)), Ids(keys))
  }

  /** What a reader judges with, of what is stored: only what sets wrote that share a key with its own. */
  lemma {:induction false} MemoryForExactly(part: Part, keys: seq<Key>, id: string)
    ensures (id in MemoryFor(part, keys).silenced) <==>
            (exists f :: f in part && id in part[f].memory.silenced && Shares(part[f], keys))
    ensures (id in MemoryFor(part, keys).serials) <==>
            (Holds(keys, id) && exists f :: f in part && id in part[f].memory.serials && Shares(part[f], keys))
    ensures id in MemoryFor(part, keys).serials ==>
              exists f :: f in part && id in part[f].memory.serials && Shares(part[f], keys)
                          && part[f].memory.serials[id] == MemoryFor(part, keys).serials[id]
    ensures id in MemoryFor(part, keys).serials ==>
              forall f :: f in part && id in part[f].memory.serials && Shares(part[f], keys) ==>
                            part[f].memory.serials[id] <= MemoryFor(part, keys).serials[id]
  {
    var names := Sources(part, Ids(keys));
    forall f ensures f in names <==> f in part && Shares(part[f], keys) {
      if f in part && Shares(part[f], keys) {
        var k :| k in keys && k.id in part[f].keys;
        assert k.id in part[f].keys * Ids(keys);
      }
    }
    assert forall f :: f in names && id in part[f].memory.serials ==>
                         part[f].memory.serials[id] in Told(part, names, id);
  }

  ghost predicate Holds(keys: seq<Key>, id: string) {
    exists k :: k in keys && k.id == id
  }

  /** The set that wrote the entry carries a key the reader holds. */
  ghost predicate Shares(entry: Entry, keys: seq<Key>) {
    exists k :: k in keys && k.id in entry.keys
  }

  /** These serials, raised to what `more` holds of the wanted ones. */
  function Merged(serials: map<string, nat>, more: map<string, nat>, wanted: set<string>): map<string, nat>
    requires wanted <= more.Keys
  {
    map id | id in serials.Keys + wanted ::
      if id !in wanted then serials[id] else if id !in serials || serials[id] < more[id] then more[id] else serials[id]
  }

  lemma {:induction false} LargestIs(numbers: set<nat>, n: nat)
    requires IsLargest(numbers, n)
    ensures Largest(numbers) == n
  {
  }

  lemma {:induction false} OneMoreTold(part: Part, names: set<string>, f: string, id: string)
    requires names <= part.Keys && f in part
    ensures Told(part, names + {f}, id) ==
            Told(part, names, id) + if id in part[f].memory.serials then {part[f].memory.serials[id]} else {}
  {
  }

  lemma {:induction false} OneMoreSerial(part: Part, names: set<string>, held: set<string>, f: string, id: string)
    requires names <= part.Keys && f in part
    ensures var before, after := MemoryFrom(part, names, held).serials, MemoryFrom(part, names + {f}, held).serials;
      var more := part[f].memory.serials;
      var merged := Merged(before, more, more.Keys * held);
      (id in after <==> id in merged) && (id in merged ==> after[id] == merged[id])
  {
    hide Told;
    var before, more := MemoryFrom(part, names, held).serials, part[f].memory.serials;
    var merged := Merged(before, more, more.Keys * held);
    OneMoreTold(part, names, f, id);
    if id in merged { LargestIs(Told(part, names + {f}, id), merged[id]); }
  }

  lemma {:induction false} OneMoreSilenced(part: Part, names: set<string>, held: set<string>, f: string)
    requires names <= part.Keys && f in part
    ensures MemoryFrom(part, names + {f}, held).silenced ==
            MemoryFrom(part, names, held).silenced + part[f].memory.silenced
  {
  }

  lemma {:induction false} OneMoreSource(part: Part, names: set<string>, held: set<string>, f: string)
    requires names <= part.Keys && f in part
    ensures var before, memory := MemoryFrom(part, names, held), part[f].memory;
      MemoryFrom(part, names + {f}, held) ==
      Memory(Merged(before.serials, memory.serials, memory.serials.Keys * held), before.silenced + memory.silenced)
  {
    hide Told, MemoryFrom, Merged;
    var before, after := MemoryFrom(part, names, held), MemoryFrom(part, names + {f}, held);
    var memory := part[f].memory;
    var merged := Merged(before.serials, memory.serials, memory.serials.Keys * held);
    forall id ensures (id in after.serials <==> id in merged) && (id in merged ==> after.serials[id] == merged[id]) {
      OneMoreSerial(part, names, held, f, id);
    }
    assert after.serials == merged;
    OneMoreSilenced(part, names, held, f);
  }

  lemma {:induction false} MergeOne(serials: map<string, nat>, more: map<string, nat>, wanted: set<string>, id: string)
    requires wanted <= more.Keys && id in more && id !in wanted
    ensures var before := Merged(serials, more, wanted);
      Merged(serials, more, wanted + {id}) ==
      before[id := if id in before && before[id] > more[id] then before[id] else more[id]]
  {
  }

  method MergeSerials(serials: map<string, nat>, more: map<string, nat>, held: set<string>)
    returns (merged: map<string, nat>)
    ensures merged == Merged(serials, more, more.Keys * held)
  {
    merged := serials;
    var rest := more.Keys;
    ghost var wanted: set<string> := {};
    assert merged == Merged(serials, more, wanted);
    hide Merged;
    while rest != {}
      invariant rest <= more.Keys && wanted == (more.Keys - rest) * held
      invariant merged == Merged(serials, more, wanted)
      decreases rest
    {
      var id :| id in rest;
      if id in held {
        MergeOne(serials, more, wanted, id);
        wanted := wanted + {id};
        var known := if id in merged then merged[id] else 0;
        merged := merged[id := if known > more[id] then known else more[id]];
      }
      rest := rest - {id};
    }
    assert wanted == more.Keys * held;
  }

  method ReadMemory(part: Part, keys: seq<Key>) returns (memory: Memory)
    ensures memory == MemoryFor(part, keys)
  {
    var held := Ids(keys);
    ghost var sources := Sources(part, held);
    var serials: map<string, nat>, silenced: set<string> := map[], {};
    var rest := part.Keys;
    while rest != {}
      invariant rest <= part.Keys
      invariant Memory(serials, silenced) == MemoryFrom(part, sources - rest, held)
      decreases rest
    {
      var f :| f in rest;
      if part[f].keys * held != {} {
        OneMoreSource(part, sources - rest, held, f);
        assert sources - (rest - {f}) == (sources - rest) + {f};
        serials := MergeSerials(serials, part[f].memory.serials, held);
        silenced := silenced + part[f].memory.silenced;
      } else {
        assert sources - (rest - {f}) == sources - rest;
      }
      rest := rest - {f};
    }
    assert sources - rest == sources;
    return Memory(serials, silenced);
  }

  // ---------------------------------------------------------------- storing, and runs

  /** `store`, in one lineage. */
  function Stored(fingerprint: Fingerprint, part: Part, keys: seq<Key>, memory: Memory): Part {
    part[fingerprint(keys) := Entry(Ids(keys), memory)]
  }

  /** An index signed by `key` reaches a build of one lineage that holds `keys`. */
  datatype Event = Event(acceptance: bool, keys: seq<Key>, key: Key, serial: nat)

  ghost function Verdict(part: Part, e: Event): Trust.Verdict {
    Judge(e.key, e.serial, e.keys, MemoryFor(part, e.keys))
  }

  ghost function PartAfter(fingerprint: Fingerprint, part: Part, e: Event): Part {
    match Verdict(part, e)
    case Accept(memory) => Stored(fingerprint, part, e.keys, memory)
    case Refuse(_) => part
  }

  ghost function Step(fingerprint: Fingerprint, state: State, e: Event): State {
    var part := PartAfter(fingerprint, PartOf(state, e.acceptance), e);
    if e.acceptance then state.(acceptance := part) else state.(release := part)
  }

  /** From a reader that has stored nothing, over any builds it is given: updates, downgrades, other lineages. */
  ghost function Run(fingerprint: Fingerprint, events: seq<Event>): State {
    if events == [] then State(map[], map[])
    else Step(fingerprint, Run(fingerprint, events[..|events| - 1]), events[|events| - 1])
  }

  ghost predicate Builds(events: seq<Event>) {
    forall e :: e in events ==> KeySet(e.keys) && e.key in e.keys
  }

  ghost predicate Accepted(fingerprint: Fingerprint, events: seq<Event>, k: nat)
    requires k < |events|
  {
    Verdict(PartOf(Run(fingerprint, events[..k]), events[k].acceptance), events[k]).Accept?
  }

  lemma {:induction false} LastStep(fingerprint: Fingerprint, events: seq<Event>, acceptance: bool)
    requires events != []
    ensures var n := |events| - 1;
      var before := PartOf(Run(fingerprint, events[..n]), acceptance);
      PartOf(Run(fingerprint, events), acceptance) ==
      if events[n].acceptance == acceptance then PartAfter(fingerprint, before, events[n]) else before
  {
    hide PartAfter;
  }

  lemma {:induction false} AcceptMeans(part: Part, e: Event)
    requires Verdict(part, e).Accept?
    ensures var memory := MemoryFor(part, e.keys);
      && Verdict(part, e).memory == Remember(memory, e.key, e.serial, e.keys)
      && e.key.id !in memory.silenced && e.key.rank >= RankFloor(e.keys, memory)
      && (e.key.id in memory.serials ==> memory.serials[e.key.id] < e.serial)
  {
    hide MemoryFor, RankFloor, Remember;
  }

  // ---------------------------------------------------------------- nothing learned is lost

  /** Some entry of a set that carries the key holds at least this serial of it. */
  ghost predicate Knows(part: Part, id: string, serial: nat) {
    exists f :: f in part && KnowsIn(part[f], id, serial)
  }

  ghost predicate KnowsIn(entry: Entry, id: string, serial: nat) {
    id in entry.keys && id in entry.memory.serials && entry.memory.serials[id] >= serial
  }

  ghost predicate Silences(part: Part, id: string) {
    exists f :: f in part && SilencesIn(part[f], id)
  }

  ghost predicate SilencesIn(entry: Entry, id: string) {
    id in entry.keys && id in entry.memory.silenced
  }

  /** What accepting the index taught is in the part. */
  ghost predicate Learned(part: Part, e: Event) {
    && Knows(part, e.key.id, e.serial)
    && forall id :: id in Below(e.keys, e.key.rank) ==> Silences(part, id)
  }

  /** Each entry says which keys the set that wrote it has. */
  ghost predicate Labelled(fingerprint: Fingerprint, part: Part) {
    forall keys :: KeySet(keys) && fingerprint(keys) in part ==> part[fingerprint(keys)].keys == Ids(keys)
  }

  lemma {:induction false} MemoryKnows(part: Part, keys: seq<Key>, id: string, serial: nat)
    requires Knows(part, id, serial) && id in Ids(keys)
    ensures id in MemoryFor(part, keys).serials && MemoryFor(part, keys).serials[id] >= serial
  {
    var f :| f in part && KnowsIn(part[f], id, serial);
    assert id in part[f].keys * Ids(keys);
    assert part[f].memory.serials[id] in Told(part, Sources(part, Ids(keys)), id);
  }

  lemma {:induction false} MemorySilences(part: Part, keys: seq<Key>, id: string)
    requires Silences(part, id) && id in Ids(keys)
    ensures id in MemoryFor(part, keys).silenced
  {
    var f :| f in part && SilencesIn(part[f], id);
    assert id in part[f].keys * Ids(keys);
  }

  lemma {:induction false} StaysLabelled(fingerprint: Fingerprint, part: Part, e: Event)
    requires Distinguishes(fingerprint) && Labelled(fingerprint, part) && KeySet(e.keys)
    ensures Labelled(fingerprint, PartAfter(fingerprint, part, e))
  {
    hide Verdict, KeySet, Ids;
  }

  lemma {:induction false} StaysKnown(fingerprint: Fingerprint, part: Part, e: Event, id: string, serial: nat)
    requires Labelled(fingerprint, part) && KeySet(e.keys) && Knows(part, id, serial)
    ensures Knows(PartAfter(fingerprint, part, e), id, serial)
  {
    hide Verdict, MemoryFor, KeySet, Ids, RankFloor, Below;
    var f :| f in part && KnowsIn(part[f], id, serial);
    if Verdict(part, e).Accept? {
      AcceptMeans(part, e);
      if id in Ids(e.keys) { MemoryKnows(part, e.keys, id, serial); }
      var after := PartAfter(fingerprint, part, e);
      assert KnowsIn(after[f], id, serial);
    }
  }

  lemma {:induction false} StaysSilenced(fingerprint: Fingerprint, part: Part, e: Event, id: string)
    requires Labelled(fingerprint, part) && KeySet(e.keys) && Silences(part, id)
    ensures Silences(PartAfter(fingerprint, part, e), id)
  {
    hide Verdict, MemoryFor, KeySet, Ids, RankFloor, Below;
    var f :| f in part && SilencesIn(part[f], id);
    if Verdict(part, e).Accept? {
      AcceptMeans(part, e);
      if id in Ids(e.keys) { MemorySilences(part, e.keys, id); }
      var after := PartAfter(fingerprint, part, e);
      assert SilencesIn(after[f], id);
    }
  }

  lemma {:induction false} StaysLearned(fingerprint: Fingerprint, part: Part, e: Event, earlier: Event)
    requires Labelled(fingerprint, part) && KeySet(e.keys) && Learned(part, earlier)
    ensures Learned(PartAfter(fingerprint, part, e), earlier)
  {
    hide Labelled, KeySet, PartAfter, Knows, Silences, Below;
    StaysKnown(fingerprint, part, e, earlier.key.id, earlier.serial);
    forall id | id in Below(earlier.keys, earlier.key.rank) ensures Silences(PartAfter(fingerprint, part, e), id) {
      StaysSilenced(fingerprint, part, e, id);
    }
  }

  lemma {:induction false} AcceptedIsStored(fingerprint: Fingerprint, part: Part, e: Event)
    requires e.key in e.keys && Verdict(part, e).Accept?
    ensures Learned(PartAfter(fingerprint, part, e), e)
  {
    hide Verdict, MemoryFor, RankFloor;
    AcceptMeans(part, e);
    var after, f := PartAfter(fingerprint, part, e), fingerprint(e.keys);
    assert KnowsIn(after[f], e.key.id, e.serial);
    forall id | id in Below(e.keys, e.key.rank) ensures Silences(after, id) {
      assert SilencesIn(after[f], id);
    }
  }

  lemma {:induction false} RunLabelled(fingerprint: Fingerprint, events: seq<Event>, acceptance: bool)
    requires Distinguishes(fingerprint) && Builds(events)
    ensures Labelled(fingerprint, PartOf(Run(fingerprint, events), acceptance))
  {
    if events == [] {
      assert PartOf(Run(fingerprint, events), acceptance) == map[];
    } else {
      hide PartAfter, PartOf, Labelled, Distinguishes, KeySet, Run;
      var n := |events| - 1;
      assert events[n] in events;
      RunLabelled(fingerprint, events[..n], acceptance);
      LastStep(fingerprint, events, acceptance);
      StaysLabelled(fingerprint, PartOf(Run(fingerprint, events[..n]), acceptance), events[n]);
    }
  }

  /** What an accepted index taught stays for the rest of the run, whatever builds follow. */
  lemma {:induction false} LearnedForGood(fingerprint: Fingerprint, events: seq<Event>, k: nat)
    requires Distinguishes(fingerprint) && Builds(events) && k < |events| && Accepted(fingerprint, events, k)
    ensures Learned(PartOf(Run(fingerprint, events), events[k].acceptance), events[k])
  {
    hide PartAfter, PartOf, Labelled, Distinguishes, KeySet, Run, Learned, Verdict;
    var n := |events| - 1;
    var acceptance := events[k].acceptance;
    var part := PartOf(Run(fingerprint, events[..n]), acceptance);
    assert events[n] in events;
    LastStep(fingerprint, events, acceptance);
    if k == n {
      AcceptedIsStored(fingerprint, part, events[n]);
    } else {
      assert events[..n][..k] == events[..k];
      LearnedForGood(fingerprint, events[..n], k);
      RunLabelled(fingerprint, events[..n], acceptance);
      StaysLearned(fingerprint, part, events[n], events[k]);
    }
  }

  /** An index judged later in the run is judged by a memory that has it. */
  lemma {:induction false} LearnedBefore(fingerprint: Fingerprint, events: seq<Event>, k: nat, l: nat)
    requires Distinguishes(fingerprint) && Builds(events) && k < l < |events|
    requires events[k].acceptance == events[l].acceptance && Accepted(fingerprint, events, k)
    ensures Learned(PartOf(Run(fingerprint, events[..l]), events[l].acceptance), events[k])
  {
    hide PartOf, Distinguishes, KeySet, Run, Learned, Verdict;
    assert events[..l][..k] == events[..k];
    LearnedForGood(fingerprint, events[..l], k);
  }

  // ---------------------------------------------------------------- over any run

  /** A key's accepted serials only rise, whichever builds that carry it come and go. */
  lemma {:induction false} SerialsRise(fingerprint: Fingerprint, events: seq<Event>, k: nat, l: nat)
    requires Distinguishes(fingerprint) && Builds(events) && k < l < |events|
    requires events[k].acceptance == events[l].acceptance && events[k].key.id == events[l].key.id
    requires Accepted(fingerprint, events, k) && Accepted(fingerprint, events, l)
    ensures events[k].serial < events[l].serial
  {
    hide PartOf, Distinguishes, KeySet, Run, Knows, Silences, Below, Verdict, MemoryFor, Remember, RankFloor;
    var part := PartOf(Run(fingerprint, events[..l]), events[l].acceptance);
    assert events[l] in events;
    LearnedBefore(fingerprint, events, k, l);
    MemoryKnows(part, events[l].keys, events[l].key.id, events[k].serial);
    AcceptMeans(part, events[l]);
  }

  /** A key ranked below one that was accepted is never accepted again, whichever builds come and go. */
  lemma {:induction false} SilencedForGood(fingerprint: Fingerprint, events: seq<Event>, k: nat, l: nat)
    requires Distinguishes(fingerprint) && Builds(events) && k < l < |events|
    requires events[k].acceptance == events[l].acceptance && Accepted(fingerprint, events, k)
    requires events[l].key.id in Below(events[k].keys, events[k].key.rank)
    ensures !Accepted(fingerprint, events, l)
  {
    hide PartOf, Distinguishes, KeySet, Run, Knows, Silences, Below, Verdict, MemoryFor, Remember, RankFloor;
    var part := PartOf(Run(fingerprint, events[..l]), events[l].acceptance);
    assert events[l] in events;
    LearnedBefore(fingerprint, events, k, l);
    MemorySilences(part, events[l].keys, events[l].key.id);
    if Verdict(part, events[l]).Accept? { AcceptMeans(part, events[l]); }
  }

  /** Updating along a chain of releases, a reader never accepts a key ranked below one it accepted before. */
  lemma {:induction false} RanksNeverFall(fingerprint: Fingerprint, releases: seq<seq<Key>>, i: nat, j: nat,
      events: seq<Event>, k: nat, l: nat)
    requires Distinguishes(fingerprint) && Builds(events) && k < l < |events|
    requires events[k].acceptance == events[l].acceptance
    requires Accepted(fingerprint, events, k) && Accepted(fingerprint, events, l)
    requires Chain(releases) && i <= j < |releases| && events[k].keys == releases[i] && events[l].keys == releases[j]
    ensures events[k].key.rank <= events[l].key.rank
  {
    hide PartOf, Distinguishes, KeySet, Run, Knows, Silences, Below, Verdict, MemoryFor, Remember, RankFloor, Chain;
    var a, b := events[k], events[l];
    var part := PartOf(Run(fingerprint, events[..l]), b.acceptance);
    assert a in events && b in events;
    CarriedOrAbove(releases, i, j, a.key);
    if !AllAbove(releases[j], a.key.rank) {
      var c :| c in releases[j] && c.id == a.key.id && c.rank == a.key.rank;
      LearnedBefore(fingerprint, events, k, l);
      MemoryKnows(part, b.keys, c.id, a.serial);
      AcceptMeans(part, b);
    }
  }

  // ---------------------------------------------------------------- what the last rule is for

  lemma {:induction false} FirstSightAccepted(part: Part, e: Event)
    requires e.key.baseline == 0 && e.serial == 1
    requires var memory := MemoryFor(part, e.keys);
      e.key.id !in memory.silenced && forall k :: k in e.keys ==> k.id !in memory.serials
    requires e.key in e.keys
    ensures Verdict(part, e) == Accept(Remember(MemoryFor(part, e.keys), e.key, 1, e.keys))
  {
    hide MemoryFor, Remember;
    assert e.key.id !in MemoryFor(part, e.keys).serials;
    assert RankFloor(e.keys, MemoryFor(part, e.keys)) == 0;
  }

  lemma {:induction false} HighSilencesLow(fingerprint: Fingerprint, low: Key, high: Key)
    requires low.rank < high.rank && low.id != high.id && high.baseline == 0
    ensures var e := Event(false, [low, high], high, 1);
      && Verdict(map[], e).Accept?
      && PartAfter(fingerprint, map[], e) ==
         map[fingerprint([low, high]) := Entry({low.id, high.id}, Memory(map[high.id := 1], {low.id}))]
  {
    var e := Event(false, [low, high], high, 1);
    assert e.keys[0] in e.keys && e.keys[1] in e.keys;
    assert MemoryFor(map[], e.keys) == EMPTY;
    FirstSightAccepted(map[], e);
    assert Below(e.keys, high.rank) == {low.id};
    assert Ids(e.keys) == {low.id, high.id};
    hide MemoryFor, Verdict, Below, Ids;
    var memory := Remember(EMPTY, high, 1, e.keys);
    assert memory.serials == map[high.id := 1] && memory.silenced == {low.id};
    var none: Part := map[];
    assert PartAfter(fingerprint, none, e) == none[fingerprint(e.keys) := Entry({low.id, high.id}, memory)];
  }

  lemma {:induction false} InPair(a: Key, b: Key, k: Key)
    ensures k in [a, b] <==> k == a || k == b
    ensures k in [a] <==> k == a
  {
  }

  lemma {:induction false} AddedOnTop(low: Key, mid: Key)
    requires 1 <= low.rank < mid.rank && low.id != mid.id
    ensures KeySet([low, mid]) && KeepsRules([low], [low, mid])
  {
    forall k ensures (k in [low, mid] <==> k == low || k == mid) && (k in [low] <==> k == low) {
      InPair(low, mid, k);
    }
  }

  lemma {:induction false} DroppedFromAbove(low: Key, high: Key)
    requires 1 <= low.rank < high.rank && low.id != high.id
    ensures KeySet([low, high]) && KeptKeepTheirPlace([low, high], [low]) && NewGoOnTop([low, high], [low])
    ensures !DroppedFromBelow([low, high], [low])
  {
    forall k ensures (k in [low, high] <==> k == low || k == high) && (k in [low] <==> k == low) {
      InPair(low, high, k);
    }
    assert Carries([low], low.id) && !Carries([low], high.id);
    assert low in [low, high] && high in [low, high];
  }

  /**
   The last rule keeps ranks from falling. A release that drops the higher of two keys, and a next one that adds a key
   between them, break no other rule - and a reader that accepted the dropped key accepts the one ranked below it.
   */
  lemma {:induction false} WithoutTheLastRule(fingerprint: Fingerprint, low: Key, mid: Key, high: Key)
    requires 1 <= low.rank < mid.rank < high.rank && low.id != mid.id && low.id != high.id && mid.id != high.id
    requires mid.baseline == 0 && high.baseline == 0
    ensures KeptKeepTheirPlace([low, high], [low]) && NewGoOnTop([low, high], [low])
    ensures !DroppedFromBelow([low, high], [low]) && KeepsRules([low], [low, mid])
    ensures var events := [Event(false, [low, high], high, 1), Event(false, [low, mid], mid, 1)];
      Builds(events) && Accepted(fingerprint, events, 0) && Accepted(fingerprint, events, 1)
  {
    AddedOnTop(low, mid);
    DroppedFromAbove(low, high);
    hide PartAfter, Verdict, KeptKeepTheirPlace, NewGoOnTop, DroppedFromBelow, KeepsRules, Accepted, KeySet, Builds;
    var first, second := Event(false, [low, high], high, 1), Event(false, [low, mid], mid, 1);
    assert first.keys[1] == high && second.keys[1] == mid;
    HighSilencesLow(fingerprint, low, high);
    BetweenIsAccepted(fingerprint, low, mid, high);
    AcceptedInTurn(fingerprint, first, second);
    PairBuilds(first, second);
  }

  lemma {:induction false} PairBuilds(first: Event, second: Event)
    requires KeySet(first.keys) && first.key in first.keys && KeySet(second.keys) && second.key in second.keys
    ensures Builds([first, second])
  {
    hide KeySet;
  }

  lemma {:induction false} AcceptedInTurn(fingerprint: Fingerprint, first: Event, second: Event)
    requires !first.acceptance && !second.acceptance
    requires Verdict(map[], first).Accept? && Verdict(PartAfter(fingerprint, map[], first), second).Accept?
    ensures Accepted(fingerprint, [first, second], 0) && Accepted(fingerprint, [first, second], 1)
  {
    hide PartAfter, Verdict;
    var events, none: seq<Event> := [first, second], [];
    assert events[..0] == none && events[..1] == [first] && [first][..0] == none;
    LastStep(fingerprint, [first], false);
  }

  lemma {:induction false} BetweenIsAccepted(fingerprint: Fingerprint, low: Key, mid: Key, high: Key)
    requires low.rank < mid.rank < high.rank && low.id != mid.id && low.id != high.id && mid.id != high.id
    requires mid.baseline == 0 && high.baseline == 0
    ensures var part := PartAfter(fingerprint, map[], Event(false, [low, high], high, 1));
      Verdict(part, Event(false, [low, mid], mid, 1)).Accept?
  {
    HighSilencesLow(fingerprint, low, high);
    var part := PartAfter(fingerprint, map[], Event(false, [low, high], high, 1));
    var e := Event(false, [low, mid], mid, 1);
    hide PartAfter, Verdict, Sources;
    assert e.keys[0] == low && e.keys[1] == mid;
    FirstSightAccepted(part, e);
  }

  // ---------------------------------------------------------------- after an update

  /** An accepted memory speaks of no key its reader does not hold. */
  lemma {:induction false} AcceptedIsOwn(part: Part, e: Event)
    requires e.key in e.keys && Verdict(part, e).Accept?
    ensures Verdict(part, e).memory.serials.Keys <= Ids(e.keys)
  {
    hide Verdict, RankFloor, Told;
    AcceptMeans(part, e);
  }

  lemma {:induction false} StoredIsHeld(fingerprint: Fingerprint, part: Part, keys: seq<Key>, memory: Memory,
      later: seq<Key>)
    requires memory.serials.Keys <= Ids(keys)
    ensures KeepsHeld(later, memory, MemoryFor(Stored(fingerprint, part, keys, memory), later))
  {
    var after := Stored(fingerprint, part, keys, memory);
    forall k | k in later && k.id in memory.serials ensures k.id in MemoryFor(after, later).serials {
      assert KnowsIn(after[fingerprint(keys)], k.id, memory.serials[k.id]);
      MemoryKnows(after, later, k.id, memory.serials[k.id]);
    }
  }

  /** Updated right after it accepted an index, a reader still has every serial of the keys it holds now. */
  lemma {:induction false} AcceptedIsHeld(fingerprint: Fingerprint, part: Part, e: Event, later: seq<Key>)
    requires e.key in e.keys && Verdict(part, e).Accept?
    ensures KeepsHeld(later, Verdict(part, e).memory, MemoryFor(PartAfter(fingerprint, part, e), later))
  {
    hide Verdict, MemoryFor, KeepsHeld;
    AcceptedIsOwn(part, e);
    StoredIsHeld(fingerprint, part, e.keys, Verdict(part, e).memory, later);
  }

  // ---------------------------------------------------------------- the lineages

  function Only(events: seq<Event>, acceptance: bool): seq<Event> {
    if events == [] then []
    else
      var n := |events| - 1;
      Only(events[..n], acceptance) + if events[n].acceptance == acceptance then [events[n]] else []
  }

  /** What a reader of one lineage knows is what it would know had no build of the other ever run. */
  lemma {:induction false} LineagesApart(fingerprint: Fingerprint, events: seq<Event>, acceptance: bool)
    ensures PartOf(Run(fingerprint, events), acceptance) ==
            PartOf(Run(fingerprint, Only(events, acceptance)), acceptance)
  {
    hide PartAfter, PartOf, Run;
    if events == [] {
      assert Only(events, acceptance) == events;
    } else {
      var n := |events| - 1;
      LineagesApart(fingerprint, events[..n], acceptance);
      LastStep(fingerprint, events, acceptance);
      if events[n].acceptance == acceptance {
        var before := Only(events[..n], acceptance);
        assert (before + [events[n]])[..|before|] == before;
        LastStep(fingerprint, before + [events[n]], acceptance);
      } else {
        assert Only(events, acceptance) == Only(events[..n], acceptance);
      }
    }
  }
}
