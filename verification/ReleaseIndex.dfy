/** The chain of published indexes (tools/make-index.py): what the branch has published, and what may follow. */
module ReleaseIndex {
  import opened Options
  import opened Trust

  /** An authentic index a commit of the branch carried. */
  datatype Entry = Entry(commit: nat, key: Key, serial: nat)

  /** The index and signature at the branch's tip, once verified. */
  datatype Pair = Pair(key: Key, serial: nat)

  datatype Record = Record(count: nat, memory: Memory, top: map<string, (nat, nat)>)

  const NOTHING := Record(0, EMPTY, map[])

  ghost predicate Entries(keys: seq<Key>, entries: seq<Entry>) {
    KeySet(keys) && forall e :: e in entries ==> e.key in keys && e.serial >= 1
  }

  function LastSerial(memory: Memory, id: string): nat {
    if id in memory.serials then memory.serials[id] else 0
  }

  /** `History.add`. */
  function AddEntry(keys: seq<Key>, r: Record, e: Entry): Record {
    var higher := e.serial > LastSerial(r.memory, e.key.id);
    Record(r.count + 1,
           Memory(if higher then r.memory.serials[e.key.id := e.serial] else r.memory.serials,
                  r.memory.silenced + Below(keys, e.key.rank)),
           if higher then r.top[e.key.id := (e.serial, e.commit)] else r.top)
  }

  function Recorded(keys: seq<Key>, entries: seq<Entry>): Record {
    if entries == [] then NOTHING
    else AddEntry(keys, Recorded(keys, entries[..|entries| - 1]), entries[|entries| - 1])
  }

  class History {
    const keys: seq<Key>
    var count: nat
    var memory: Memory
    var top: map<string, (nat, nat)>

    function Model(): Record
      reads this
    {
      Record(count, memory, top)
    }

    constructor (keys: seq<Key>)
      ensures this.keys == keys && Model() == Recorded(keys, [])
    {
      this.keys := keys;
      count, memory, top := 0, EMPTY, map[];
    }

    method Add(commit: nat, key: Key, serial: nat)
      modifies this
      ensures Model() == AddEntry(keys, old(Model()), Entry(commit, key, serial))
    {
      count := count + 1;
      var serials := memory.serials;
      if serial > LastSerial(memory, key.id) {
        serials := serials[key.id := serial];
        top := top[key.id := (serial, commit)];
      }
      memory := Memory(serials, memory.silenced + Below(keys, key.rank));
    }

    /** The commit to restore from: the largest (rank, serial, commit) among the keys nothing silenced. */
    method RestoreFrom() returns (commit: Option<nat>)
      ensures commit.None? <==> top.Keys - memory.silenced == {}
      ensures commit.Some? ==>
        exists id :: id in top.Keys - memory.silenced && commit.value == top[id].1
          && forall other :: other in top.Keys - memory.silenced ==> !Larger(keys, top, other, id)
    {
      var live := top.Keys - memory.silenced;
      var rest, best := live, None;
      while rest != {}
        invariant rest <= live
        invariant best.None? <==> rest == live
        invariant best.Some? ==> best.value in live - rest
        invariant best.Some? ==> forall id :: id in live - rest ==> !Larger(keys, top, id, best.value)
        decreases rest
      {
        var id :| id in rest;
        ghost var seen := live - rest;
        if best.None? || Larger(keys, top, id, best.value) {
          forall other | other in seen ensures best.Some? && !Larger(keys, top, other, id) {
            assert !Larger(keys, top, other, best.value);
          }
          best := Some(id);
        }
        rest := rest - {id};
        assert live - rest == seen + {id};
      }
      if best.None? { return None; }
      return Some(top[best.value].1);
    }
  }

  function Live(r: Record): set<string> {
    r.top.Keys - r.memory.silenced
  }

  ghost predicate IsLargest(keys: seq<Key>, r: Record, id: string) {
    id in Live(r) && forall other :: other in Live(r) ==> !Larger(keys, r.top, other, id)
  }

  function RankOf(keys: seq<Key>, id: string): nat {
    if keys == [] then 0 else if keys[0].id == id then keys[0].rank else RankOf(keys[1..], id)
  }

  /** Python's order on the tuples (rank, serial, commit). */
  predicate Larger(keys: seq<Key>, top: map<string, (nat, nat)>, a: string, b: string)
    requires a in top && b in top
  {
    var ra, rb := RankOf(keys, a), RankOf(keys, b);
    ra > rb || (ra == rb && (top[a].0 > top[b].0 || (top[a].0 == top[b].0 && top[a].1 > top[b].1)))
  }

  // ---------------------------------------------------------------- what the record says

  /** The highest serial a key ever published; 0 when it published none. */
  function HighestSerial(entries: seq<Entry>, id: string): nat {
    if entries == [] then 0
    else
      var n := |entries| - 1;
      var before := HighestSerial(entries[..n], id);
      if entries[n].key.id == id && entries[n].serial > before then entries[n].serial else before
  }

  ghost predicate Silences(keys: seq<Key>, e: Entry, id: string) {
    id in Below(keys, e.key.rank)
  }

  lemma {:induction false} HighestBounds(entries: seq<Entry>, id: string)
    ensures forall i :: 0 <= i < |entries| && entries[i].key.id == id ==>
      entries[i].serial <= HighestSerial(entries, id)
  {
    if entries == [] {
    } else {
      var n := |entries| - 1;
      HighestBounds(entries[..n], id);
      forall i | 0 <= i < |entries| && entries[i].key.id == id ensures entries[i].serial <= HighestSerial(entries, id) {
        if i < n { assert entries[..n][i] == entries[i]; }
      }
    }
  }

  lemma {:induction false} HighestReached(entries: seq<Entry>, id: string) returns (i: nat)
    requires HighestSerial(entries, id) > 0
    ensures i < |entries| && entries[i].key.id == id && entries[i].serial == HighestSerial(entries, id)
    ensures forall j :: 0 <= j < i && entries[j].key.id == id ==> entries[j].serial < entries[i].serial
  {
    var n := |entries| - 1;
    var before := entries[..n];
    if entries[n].key.id == id && entries[n].serial > HighestSerial(before, id) {
      i := n;
      HighestBounds(before, id);
      forall j | 0 <= j < n && entries[j].key.id == id ensures entries[j].serial < entries[n].serial {
        assert before[j] == entries[j];
      }
    } else {
      i := HighestReached(before, id);
      assert before[i] == entries[i];
      forall j | 0 <= j < i && entries[j].key.id == id ensures entries[j].serial < entries[i].serial {
        assert before[j] == entries[j];
      }
    }
  }

  /** The serials of the record are the highest ever published, key by key. */
  lemma {:induction false} SerialsAreHighest(keys: seq<Key>, entries: seq<Entry>, id: string)
    requires Entries(keys, entries)
    ensures var r := Recorded(keys, entries);
      && LastSerial(r.memory, id) == HighestSerial(entries, id)
      && (id in r.memory.serials <==> HighestSerial(entries, id) > 0)
      && (id in r.top <==> id in r.memory.serials)
  {
    if entries == [] {
    } else {
      SerialsAreHighest(keys, entries[..|entries| - 1], id);
    }
  }

  /** The commit kept for a key is the first that carried its highest serial. */
  lemma {:induction false} TopIsFirst(keys: seq<Key>, entries: seq<Entry>, id: string) returns (i: nat)
    requires Entries(keys, entries) && HighestSerial(entries, id) > 0
    ensures i < |entries| && entries[i].key.id == id && entries[i].serial == HighestSerial(entries, id)
    ensures var r := Recorded(keys, entries); id in r.top && r.top[id] == (entries[i].serial, entries[i].commit)
  {
    var n := |entries| - 1;
    var before := entries[..n];
    SerialsAreHighest(keys, before, id);
    if entries[n].key.id == id && entries[n].serial > HighestSerial(before, id) {
      i := n;
    } else {
      i := TopIsFirst(keys, before, id);
      assert before[i] == entries[i];
    }
  }

  /** A key is silenced exactly when some index was signed by a key ranked above it. */
  lemma {:induction false} SilencedExactly(keys: seq<Key>, entries: seq<Entry>, id: string)
    requires Entries(keys, entries)
    ensures id in Recorded(keys, entries).memory.silenced <==>
      exists i :: 0 <= i < |entries| && Silences(keys, entries[i], id)
  {
    hide KeySet, LastSerial;
    if entries == [] {
    } else {
      var n := |entries| - 1;
      var before := entries[..n];
      SilencedExactly(keys, before, id);
      if i :| 0 <= i < |before| && Silences(keys, before[i], id) { assert Silences(keys, entries[i], id); }
      if i :| 0 <= i < |entries| && Silences(keys, entries[i], id) {
        if i < n { assert before[i] == entries[i]; }
      }
    }
  }

  lemma {:induction false} CountIsLength(keys: seq<Key>, entries: seq<Entry>)
    ensures Recorded(keys, entries).count == |entries|
  {
    if entries == [] {
    } else {
      CountIsLength(keys, entries[..|entries| - 1]);
    }
  }

  lemma {:induction false} HighestOfSubset(one: seq<Entry>, two: seq<Entry>, id: string)
    requires forall e :: e in one ==> e in two
    ensures HighestSerial(one, id) <= HighestSerial(two, id)
  {
    HighestBounds(two, id);
    if HighestSerial(one, id) > 0 {
      var i := HighestReached(one, id);
      assert one[i] in two;
    }
  }

  lemma {:induction false} SilencedOfSubset(keys: seq<Key>, one: seq<Entry>, two: seq<Entry>, id: string)
    requires Entries(keys, one) && Entries(keys, two) && forall e :: e in one ==> e in two
    requires id in Recorded(keys, one).memory.silenced
    ensures id in Recorded(keys, two).memory.silenced
  {
    SilencedExactly(keys, one, id);
    SilencedExactly(keys, two, id);
    var i :| 0 <= i < |one| && Silences(keys, one[i], id);
    assert one[i] in two;
    var j :| 0 <= j < |two| && two[j] == one[i];
    assert Silences(keys, two[j], id);
  }

  /** The memory does not depend on the order in which the indexes were added, nor on repeats. */
  lemma {:induction false} MemoryIgnoresOrder(keys: seq<Key>, one: seq<Entry>, two: seq<Entry>)
    requires Entries(keys, one) && Entries(keys, two)
    requires forall e :: e in one <==> e in two
    ensures Recorded(keys, one).memory == Recorded(keys, two).memory
  {
    var a, b := Recorded(keys, one).memory, Recorded(keys, two).memory;
    forall id ensures id in a.serials <==> id in b.serials ensures LastSerial(a, id) == LastSerial(b, id) {
      SerialsAreHighest(keys, one, id);
      SerialsAreHighest(keys, two, id);
      HighestOfSubset(one, two, id);
      HighestOfSubset(two, one, id);
    }
    forall id | id in a.serials ensures a.serials[id] == b.serials[id] {
      assert LastSerial(a, id) == LastSerial(b, id);
    }
    assert a.serials == b.serials;
    forall id ensures id in a.silenced <==> id in b.silenced {
      if id in a.silenced { SilencedOfSubset(keys, one, two, id); }
      if id in b.silenced { SilencedOfSubset(keys, two, one, id); }
    }
    assert a.silenced == b.silenced;
  }

  // ---------------------------------------------------------------- the branch

  /** A signed pair as bytes: who it says signed it, what it carries, and whether that signature verifies. */
  datatype Signed = Signed(signer: string, serial: nat, issued: nat, genuine: bool)

  datatype Files = Absent | Half | Both(pair: Signed)

  datatype Commit = Commit(id: nat, files: Files)

  /** `authenticate`, as a filter: the key that signed a well-formed index. */
  function Authenticate(pair: Signed, keys: seq<Key>): Option<Key> {
    if pair.genuine && pair.serial >= 1 then ById(keys, pair.signer) else None
  }

  /** The authentic indexes of a branch, oldest first. */
  function Authentic(keys: seq<Key>, commits: seq<Commit>): (r: seq<Entry>)
    ensures KeySet(keys) ==> Entries(keys, r)
  {
    if commits == [] then []
    else
      var n := |commits| - 1;
      var before, c := Authentic(keys, commits[..n]), commits[n];
      if !c.files.Both? || Authenticate(c.files.pair, keys).None? then before
      else before + [Entry(c.id, Authenticate(c.files.pair, keys).value, c.files.pair.serial)]
  }

  method PublishedHistory(commits: seq<Commit>, keys: seq<Key>) returns (history: History)
    ensures fresh(history) && history.keys == keys
    ensures history.Model() == Recorded(keys, Authentic(keys, commits))
  {
    history := new History(keys);
    var n := 0;
    while n < |commits|
      invariant 0 <= n <= |commits| && fresh(history) && history.keys == keys
      invariant history.Model() == Recorded(keys, Authentic(keys, commits[..n]))
    {
      assert commits[..n + 1][..n] == commits[..n];
      var c := commits[n];
      n := n + 1;
      if !c.files.Both? { continue; }
      var key := Authenticate(c.files.pair, keys);
      if key.None? { continue; }
      ghost var before := Authentic(keys, commits[..n - 1]);
      ghost var e := Entry(c.id, key.value, c.files.pair.serial);
      assert (before + [e])[..|before|] == before;
      history.Add(c.id, key.value, c.files.pair.serial);
    }
    assert commits[..n] == commits;
  }

  datatype Complaint =
    | Unverifiable | Deleted | SilencedKey | RolledBack | LowerKey | WrongSerial | IssuedEarlier | WrongKey

  datatype Checked<+T> = Passed(value: T) | Failed(complaint: Complaint)

  /** `verified_published`: the published index, or None before the first. */
  function VerifiedPublished(files: Files, keys: seq<Key>): Checked<Option<Pair>> {
    match files
    case Absent => Passed(None)
    case Half => Failed(Unverifiable)
    case Both(pair) =>
      match Authenticate(pair, keys)
      case None => Failed(Unverifiable)
      case Some(key) => Passed(Some(Pair(key, pair.serial)))
  }

  /** `guard_history`: refuse to build on a published pair older than what the branch published. */
  function GuardHistory(files: Files, history: Record, keys: seq<Key>): Option<Complaint> {
    if history.count == 0 then None
    else
      match VerifiedPublished(files, keys)
      case Failed(complaint) => Some(complaint)
      case Passed(None) => Some(Deleted)
      case Passed(Some(last)) =>
        if last.key.id in history.memory.silenced then Some(SilencedKey)
        else if last.serial < LastSerial(history.memory, last.key.id) then Some(RolledBack)
        else None
  }

  function NextSerial(key: Key, last: Option<Pair>): Checked<nat> {
    if last.None? || last.value.key.id != key.id then
      if last.Some? && last.value.key.rank > key.rank then Failed(LowerKey) else Passed(key.baseline + 1)
    else Passed(last.value.serial + 1)
  }

  /** `check_unsigned`, its serial part: what an unsigned index naming `named` must carry before `id` signs it. */
  function CheckUnsigned(named: string, serial: nat, issued: nat, keys: seq<Key>, id: string, files: Files,
      history: Record)
    : Checked<Key>
  {
    match ById(keys, id)
    case None => Failed(WrongKey)
    case Some(key) =>
      if named != key.id then Failed(WrongKey)
      else
        match VerifiedPublished(files, keys)
        case Failed(complaint) => Failed(complaint)
        case Passed(last) =>
          var guard := GuardHistory(files, history, keys);
          if guard.Some? then Failed(guard.value)
          else
            match NextSerial(key, last)
            case Failed(complaint) => Failed(complaint)
            case Passed(expected) =>
              if serial != expected then Failed(WrongSerial)
              else if last.Some? && last.value.key.id == key.id && files.pair.issued > issued then Failed(IssuedEarlier)
              else Passed(key)
  }

  // ---------------------------------------------------------------- what a passing index is worth

  /** Every index signed by a key ranked above `key` silences it. */
  lemma {:induction false} SilencedByHigher(keys: seq<Key>, entries: seq<Entry>, i: nat, key: Key)
    requires Entries(keys, entries) && key in keys && i < |entries| && key.rank < entries[i].key.rank
    ensures key.id in Recorded(keys, entries).memory.silenced
  {
    assert key.id in Below(keys, entries[i].key.rank);
    assert Silences(keys, entries[i], key.id);
    SilencedExactly(keys, entries, key.id);
  }

  /** A key that nothing silenced is ranked no lower than any key that published. */
  lemma {:induction false} NotSilencedIsHighest(keys: seq<Key>, entries: seq<Entry>, key: Key)
    requires Entries(keys, entries) && key in keys
    ensures key.id !in Recorded(keys, entries).memory.silenced
       <==> forall i :: 0 <= i < |entries| ==> entries[i].key.rank <= key.rank
  {
    SilencedExactly(keys, entries, key.id);
    if i :| 0 <= i < |entries| && entries[i].key.rank > key.rank { SilencedByHigher(keys, entries, i, key); }
    if i :| 0 <= i < |entries| && Silences(keys, entries[i], key.id) {
      var k :| k in keys && k.rank < entries[i].key.rank && k.id == key.id;
      SameKey(keys, k, key);
    }
  }

  /**
   On any history of the branch, rolled back or not: an index that passes the guard and carries the next serial
   is above everything its key ever published, and no index ever published silences its key.
   */
  lemma {:induction false} PassingIndexIsNew(keys: seq<Key>, entries: seq<Entry>, named: string, serial: nat,
      issued: nat, id: string, files: Files)
    requires Entries(keys, entries)
    requires CheckUnsigned(named, serial, issued, keys, id, files, Recorded(keys, entries)).Passed?
    ensures var key := CheckUnsigned(named, serial, issued, keys, id, files, Recorded(keys, entries)).value;
      && key in keys && key.id == named
      && serial > HighestSerial(entries, key.id) && serial >= 1
      && key.id !in Recorded(keys, entries).memory.silenced
  {
    var r := Recorded(keys, entries);
    var key := CheckUnsigned(named, serial, issued, keys, id, files, r).value;
    CountIsLength(keys, entries);
    SerialsAreHighest(keys, entries, key.id);
    NotSilencedIsHighest(keys, entries, key);
    if entries != [] {
      var last := VerifiedPublished(files, keys).value.value;
      NotSilencedIsHighest(keys, entries, last.key);
      if last.key.id == key.id {
        SameKey(keys, last.key, key);
      } else if HighestSerial(entries, key.id) > 0 {
        var i := HighestReached(entries, key.id);
        SameKey(keys, entries[i].key, key);
        SameKey(keys, last.key, last.key);
        SameRank(keys, last.key, key);
      }
    }
  }

  lemma {:induction false} SameRank(keys: seq<Key>, a: Key, b: Key)
    requires KeySet(keys) && a in keys && b in keys && a.id != b.id
    ensures a.rank != b.rank
  {
  }

  // ---------------------------------------------------------------- runs of the branch

  function TipFiles(commits: seq<Commit>): Files {
    if commits == [] then Absent else commits[|commits| - 1].files
  }

  /** Commit `j` published an index that passed the checks made against the branch before it. */
  ghost predicate PublishedAt(keys: seq<Key>, commits: seq<Commit>, j: nat)
    requires j < |commits|
  {
    && commits[j].files.Both? && Authenticate(commits[j].files.pair, keys).Some?
    && var p := commits[j].files.pair;
    CheckUnsigned(p.signer, p.serial, p.issued, keys, p.signer, TipFiles(commits[..j]),
                  Recorded(keys, Authentic(keys, commits[..j]))).Passed?
  }

  lemma {:induction false} CommitIsRecorded(keys: seq<Key>, commits: seq<Commit>, i: nat) returns (k: nat)
    requires KeySet(keys) && i < |commits| && commits[i].files.Both? && Authenticate(commits[i].files.pair, keys).Some?
    ensures k < |Authentic(keys, commits)|
    ensures Authentic(keys, commits)[k].key == Authenticate(commits[i].files.pair, keys).value
    ensures Authentic(keys, commits)[k].serial == commits[i].files.pair.serial
  {
    var n := |commits| - 1;
    if i == n {
      k := |Authentic(keys, commits[..n])|;
    } else {
      assert commits[..n][i] == commits[i];
      k := CommitIsRecorded(keys, commits[..n], i);
    }
  }

  /**
   Over any branch - rolled back, emptied or overwritten between in any way - an index that passed its checks has a
   serial above that of every earlier commit its key signed, and no key publishes after a key ranked above it.
   */
  lemma {:induction false} PublishedSerialsIncrease(keys: seq<Key>, commits: seq<Commit>, i: nat, j: nat)
    requires KeySet(keys) && i < j < |commits| && PublishedAt(keys, commits, j)
    requires commits[i].files.Both? && Authenticate(commits[i].files.pair, keys).Some?
    ensures var p, q := commits[i].files.pair, commits[j].files.pair;
      && (p.signer == q.signer ==> p.serial < q.serial)
      && Authenticate(p, keys).value.rank <= Authenticate(q, keys).value.rank
  {
    var q, before := commits[j].files.pair, commits[..j];
    var entries := Authentic(keys, before);
    assert before[i] == commits[i];
    var k := CommitIsRecorded(keys, before, i);
    PassingIndexIsNew(keys, entries, q.signer, q.serial, q.issued, q.signer, TipFiles(before));
    HighestBounds(entries, q.signer);
    NotSilencedIsHighest(keys, entries, Authenticate(q, keys).value);
  }

  // ---------------------------------------------------------------- readers

  /** A reader offered indexes one after another, keeping the memory of those it accepts. */
  function Reads(keys: seq<Key>, offers: seq<Entry>): Memory {
    if offers == [] then EMPTY
    else
      var n := |offers| - 1;
      var before := Reads(keys, offers[..n]);
      match Judge(offers[n].key, offers[n].serial, keys, before)
      case Accept(memory) => memory
      case Refuse(_) => before
  }

  /** A reader has no serial above what the branch published. */
  lemma {:induction false} ReaderIsBehind(keys: seq<Key>, entries: seq<Entry>, offers: seq<Entry>, id: string)
    requires Entries(keys, entries) && forall e :: e in offers ==> e in entries
    ensures LastSerial(Reads(keys, offers), id) <= HighestSerial(entries, id)
    ensures id in Reads(keys, offers).serials ==> HighestSerial(entries, id) > 0
  {
    if offers == [] {
    } else {
      var n := |offers| - 1;
      var before, offer := Reads(keys, offers[..n]), offers[n];
      ReaderIsBehind(keys, entries, offers[..n], id);
      HighestBounds(entries, id);
      assert offer in entries;
      var i :| 0 <= i < |entries| && entries[i] == offer;
      match Judge(offer.key, offer.serial, keys, before)
      case Accept(memory) => assert memory == Remember(before, offer.key, offer.serial, keys);
      case Refuse(_) =>
    }
  }

  /** A reader silences only keys that the branch's record silences. */
  lemma {:induction false} ReaderSilencesNoMore(keys: seq<Key>, entries: seq<Entry>, offers: seq<Entry>, id: string)
    requires Entries(keys, entries) && forall e :: e in offers ==> e in entries
    requires id in Reads(keys, offers).silenced
    ensures id in Recorded(keys, entries).memory.silenced
  {
    if offers == [] {
    } else {
      var n := |offers| - 1;
      if id in Reads(keys, offers[..n]).silenced {
        ReaderSilencesNoMore(keys, entries, offers[..n], id);
      } else {
        OfferSilences(keys, entries, offers[n], id);
      }
    }
  }

  lemma {:induction false} OfferSilences(keys: seq<Key>, entries: seq<Entry>, offer: Entry, id: string)
    requires Entries(keys, entries) && offer in entries && id in Below(keys, offer.key.rank)
    ensures id in Recorded(keys, entries).memory.silenced
  {
    var i :| 0 <= i < |entries| && entries[i] == offer;
    assert Silences(keys, entries[i], id);
    SilencedExactly(keys, entries, id);
  }

  /**
   Whatever a reader was offered of what the branch published, in whatever order, it never refuses the next index
   as a replay or for its key's rank: only for its distance.
   */
  lemma {:induction false} NextIsNeverReplay(keys: seq<Key>, entries: seq<Entry>, offers: seq<Entry>, key: Key,
      serial: nat)
    requires Entries(keys, entries) && key in keys && forall e :: e in offers ==> e in entries
    requires serial > HighestSerial(entries, key.id) && key.id !in Recorded(keys, entries).memory.silenced
    ensures var memory := Reads(keys, offers);
      Judge(key, serial, keys, memory) ==
        if key.id in memory.serials
        then (if serial <= memory.serials[key.id] + MAX_JUMP then Accept(Remember(memory, key, serial, keys))
              else Refuse(Jump))
        else (if key.baseline <= serial <= key.baseline + MAX_JUMP then Accept(Remember(memory, key, serial, keys))
              else Refuse(FirstSight))
  {
    hide Reads, Recorded, KeySet, Remember, HighestSerial;
    var memory := Reads(keys, offers);
    ReaderIsBehind(keys, entries, offers, key.id);
    if key.id in memory.silenced { ReaderSilencesNoMore(keys, entries, offers, key.id); }
    NotSilencedIsHighest(keys, entries, key);
    var floor := RankFloor(keys, memory);
    if floor > 0 {
      var k :| k in keys && k.id in memory.serials && k.rank == floor;
      ReaderIsBehind(keys, entries, offers, k.id);
      var i := HighestReached(entries, k.id);
      SameKey(keys, entries[i].key, k);
    }
  }

  /**
   What the sign job passes, the publish job accepts: a reader that has
   seen exactly the published index takes the next.
   */
  lemma {:induction false} SignedIsAccepted(keys: seq<Key>, named: string, serial: nat, issued: nat, id: string,
      files: Files, history: Record)
    requires KeySet(keys) && CheckUnsigned(named, serial, issued, keys, id, files, history).Passed?
    ensures var key := CheckUnsigned(named, serial, issued, keys, id, files, history).value;
      var last := VerifiedPublished(files, keys).value;
      var memory := if last.None? then EMPTY else Remember(EMPTY, last.value.key, last.value.serial, keys);
      Judge(key, serial, keys, memory).Accept?
  {
    var key := CheckUnsigned(named, serial, issued, keys, id, files, history).value;
    var last := VerifiedPublished(files, keys).value;
    if last.Some? { JudgedAfter(keys, last.value, key, serial); }
  }

  lemma {:induction false} JudgedAfter(keys: seq<Key>, last: Pair, key: Key, serial: nat)
    requires KeySet(keys) && key in keys && last.key in keys
    requires NextSerial(key, Some(last)) == Passed(serial)
    ensures Judge(key, serial, keys, Remember(EMPTY, last.key, last.serial, keys)).Accept?
  {
  }

  // ---------------------------------------------------------------- recovery

  lemma {:induction false} HighestRanked(entries: seq<Entry>) returns (i: nat)
    requires entries != []
    ensures i < |entries| && forall j :: 0 <= j < |entries| ==> entries[j].key.rank <= entries[i].key.rank
  {
    var n := |entries| - 1;
    if n == 0 { return 0; }
    i := HighestRanked(entries[..n]);
    var before := entries[..n];
    assert forall j :: 0 <= j < n ==> before[j] == entries[j];
    if entries[n].key.rank > entries[i].key.rank { i := n; }
  }

  /** Exactly one key is live after any history: the highest-ranked one that ever published. */
  lemma {:induction false} OneLiveKey(keys: seq<Key>, entries: seq<Entry>) returns (key: Key)
    requires Entries(keys, entries) && entries != []
    ensures key in keys && Live(Recorded(keys, entries)) == {key.id} && HighestSerial(entries, key.id) > 0
    ensures forall i :: 0 <= i < |entries| ==> entries[i].key.rank <= key.rank
    ensures IsLargest(keys, Recorded(keys, entries), key.id)
  {
    var r := Recorded(keys, entries);
    var i := HighestRanked(entries);
    key := entries[i].key;
    assert entries[i] in entries;
    HighestBounds(entries, key.id);
    SerialsAreHighest(keys, entries, key.id);
    NotSilencedIsHighest(keys, entries, key);
    forall id | id in Live(r) ensures id == key.id {
      SerialsAreHighest(keys, entries, id);
      var j := HighestReached(entries, id);
      assert entries[j] in entries;
      NotSilencedIsHighest(keys, entries, entries[j].key);
      SameKey(keys, entries[j].key, key);
    }
  }

  lemma {:induction false} EntryIsCommit(keys: seq<Key>, commits: seq<Commit>, k: nat) returns (i: nat)
    requires KeySet(keys) && k < |Authentic(keys, commits)|
    ensures i < |commits| && commits[i].files.Both? && commits[i].id == Authentic(keys, commits)[k].commit
    ensures Authenticate(commits[i].files.pair, keys) == Some(Authentic(keys, commits)[k].key)
    ensures commits[i].files.pair.serial == Authentic(keys, commits)[k].serial
  {
    var n := |commits| - 1;
    if k < |Authentic(keys, commits[..n])| {
      i := EntryIsCommit(keys, commits[..n], k);
      assert commits[..n][i] == commits[i];
    } else {
      i := n;
    }
  }

  lemma {:induction false} AuthenticExtends(keys: seq<Key>, commits: seq<Commit>, commit: Commit)
    requires KeySet(keys) && commit.files.Both? && Authenticate(commit.files.pair, keys).Some?
    ensures Authentic(keys, commits + [commit]) == Authentic(keys, commits)
      + [Entry(commit.id, Authenticate(commit.files.pair, keys).value, commit.files.pair.serial)]
  {
  }

  lemma {:induction false} AuthenticSigner(keys: seq<Key>, pair: Signed, key: Key)
    requires Authenticate(pair, keys) == Some(key)
    ensures pair.signer == key.id
  {
  }

  /** Publishing a live key's highest serial again passes the guard, and the key's next index passes its checks. */
  lemma {:induction false} GuardPasses(keys: seq<Key>, entries: seq<Entry>, e: Entry, files: Files, later: nat)
    requires Entries(keys, entries + [e]) && files.Both? && Authenticate(files.pair, keys) == Some(e.key)
    requires files.pair.serial == e.serial && e.serial >= HighestSerial(entries, e.key.id)
    requires forall i :: 0 <= i < |entries| ==> entries[i].key.rank <= e.key.rank
    ensures GuardHistory(files, Recorded(keys, entries + [e]), keys).None?
    ensures CheckUnsigned(e.key.id, e.serial + 1, files.pair.issued + later, keys, e.key.id, files,
                          Recorded(keys, entries + [e])) == Passed(e.key)
  {
    var all := entries + [e];
    assert e in all;
    assert all[..|entries|] == entries;
    SerialsAreHighest(keys, all, e.key.id);
    NotSilencedIsHighest(keys, all, e.key);
    SameKey(keys, ById(keys, e.key.id).value, e.key);
  }

  /** The branch's record once `files` are restored on it. */
  function Restored(keys: seq<Key>, commits: seq<Commit>, restoring: nat, files: Files): Record {
    Recorded(keys, Authentic(keys, commits + [Commit(restoring, files)]))
  }

  lemma {:induction false} RestoredPasses(keys: seq<Key>, commits: seq<Commit>, restoring: nat, later: nat,
      files: Files, key: Key)
    requires KeySet(keys) && files.Both? && Authenticate(files.pair, keys) == Some(key)
    requires files.pair.serial >= HighestSerial(Authentic(keys, commits), key.id)
    requires forall e :: e in Authentic(keys, commits) ==> e.key.rank <= key.rank
    ensures var history := Restored(keys, commits, restoring, files);
      && GuardHistory(files, history, keys).None?
      && CheckUnsigned(files.pair.signer, files.pair.serial + 1, files.pair.issued + later, keys, files.pair.signer,
                       files, history) == Passed(key)
  {
    hide CheckUnsigned, GuardHistory, Recorded, Authentic, Authenticate, KeySet, HighestSerial;
    AuthenticSigner(keys, files.pair, key);
    AuthenticExtends(keys, commits, Commit(restoring, files));
    GuardPasses(keys, Authentic(keys, commits), Entry(restoring, key, files.pair.serial), files, later);
  }

  /**
   The commit the advice names carries a pair which, restored in a new commit, makes the guard pass - and then the
   next index of that key, issued no earlier, passes its checks: publishing goes on.
   */
  lemma {:induction false} RecoveryWorks(keys: seq<Key>, commits: seq<Commit>, restoring: nat, later: nat)
    returns (i: nat)
    requires KeySet(keys) && Authentic(keys, commits) != []
    ensures i < |commits| && commits[i].files.Both?
    ensures var r := Recorded(keys, Authentic(keys, commits));
      exists id :: Live(r) == {id} && IsLargest(keys, r, id) && r.top[id].1 == commits[i].id
    ensures var files := commits[i].files;
      var history := Restored(keys, commits, restoring, files);
      && GuardHistory(files, history, keys).None?
      && CheckUnsigned(files.pair.signer, files.pair.serial + 1, files.pair.issued + later, keys, files.pair.signer,
                       files, history).Passed?
  {
    hide Authenticate, Authentic, CheckUnsigned, GuardHistory, Recorded, Restored;
    var entries := Authentic(keys, commits);
    var key := OneLiveKey(keys, entries);
    var k := TopIsFirst(keys, entries, key.id);
    i := EntryIsCommit(keys, commits, k);
    assert entries[k] in entries;
    SameKey(keys, entries[k].key, key);
    RestoredPasses(keys, commits, restoring, later, commits[i].files, key);
  }
}
