/** When an index passes and when a reader takes one, said of what was published (tools/make-index.py, trust.py). */
module ReleaseLaws {
  import opened Options
  import opened Trust
  import opened ReleaseIndex

  /** The pair on the branch is one of these keys' own, and no older or lower than anything published. */
  ghost predicate Upholds(keys: seq<Key>, entries: seq<Entry>, pair: Signed, last: Key) {
    && last in keys && last.id == pair.signer && pair.genuine && pair.serial >= 1
    && forall e :: e in entries ==> e.key.rank <= last.rank && (e.key.id == last.id ==> e.serial <= pair.serial)
  }

  /** The serial an index of `key` must carry behind this pair: one more for its key, else one above the baseline. */
  predicate Follows(key: Key, serial: nat, issued: nat, last: Key, pair: Signed) {
    if last.id == key.id then serial == pair.serial + 1 && issued >= pair.issued
    else last.rank < key.rank && serial == key.baseline + 1
  }

  lemma {:induction false} ByIdIs(keys: seq<Key>, key: Key)
    requires KeySet(keys) && key in keys
    ensures ById(keys, key.id) == Some(key)
  {
    SameKey(keys, ById(keys, key.id).value, key);
  }

  lemma {:induction false} GuardExactly(keys: seq<Key>, entries: seq<Entry>, pair: Signed, last: Key)
    requires Entries(keys, entries) && KeySet(keys) && Authenticate(pair, keys) == Some(last)
    ensures GuardHistory(Both(pair), Recorded(keys, entries), keys).None? <==> Upholds(keys, entries, pair, last)
  {
    var r := Recorded(keys, entries);
    CountIsLength(keys, entries);
    SerialsAreHighest(keys, entries, last.id);
    NotSilencedIsHighest(keys, entries, last);
    HighestBounds(entries, last.id);
    if entries != [] && !(forall e :: e in entries && e.key.id == last.id ==> e.serial <= pair.serial) {
      var e :| e in entries && e.key.id == last.id && e.serial > pair.serial;
      var i :| 0 <= i < |entries| && entries[i] == e;
    }
    if entries != [] && HighestSerial(entries, last.id) > pair.serial {
      var i := HighestReached(entries, last.id);
      assert entries[i] in entries;
    }
  }

  /**
   What passes before it is signed: an index of the one key that signs, behind the pair on the branch - which upholds
   everything published - with the next serial of its key and issued no earlier, or, for a key ranked above the pair's,
   with the serial above its baseline. On a branch that published nothing, that serial.
   */
  lemma {:induction false} PassesExactly(keys: seq<Key>, entries: seq<Entry>, key: Key, named: string, serial: nat,
      issued: nat, files: Files)
    requires Entries(keys, entries) && KeySet(keys) && key in keys
    ensures CheckUnsigned(named, serial, issued, keys, key.id, files, Recorded(keys, entries)).Passed? <==>
      && named == key.id
      && match files
         case Absent => entries == [] && serial == key.baseline + 1
         case Half => false
         case Both(pair) =>
           exists last :: Upholds(keys, entries, pair, last) && Follows(key, serial, issued, last, pair)
  {
    ByIdIs(keys, key);
    CountIsLength(keys, entries);
    match files
    case Absent =>
    case Half =>
    case Both(pair) =>
      match Authenticate(pair, keys)
      case None =>
        forall last | last in keys && last.id == pair.signer && pair.genuine && pair.serial >= 1 ensures false {
          ByIdIs(keys, last);
        }
      case Some(last) =>
        GuardExactly(keys, entries, pair, last);
        forall other | other in keys && other.id == pair.signer ensures other == last { SameKey(keys, other, last); }
        if last.rank == key.rank { SameKey(keys, last, key); }
  }

  /** An index only its own key's holder may name passes for no other key. */
  lemma {:induction false} UnknownKeyFails(keys: seq<Key>, named: string, serial: nat, issued: nat, id: string,
      files: Files, history: Record)
    requires forall k :: k in keys ==> k.id != id
    ensures CheckUnsigned(named, serial, issued, keys, id, files, history).Failed?
  {
  }

  // ---------------------------------------------------------------- readers

  /**
   What a reader takes: nothing of a silenced key or of one ranked below a key it accepted; of a key it never accepted,
   a serial from the baseline to 1000 above it; of any other, a serial above the last by 1000 at most.
   */
  lemma {:induction false} TakenExactly(key: Key, serial: nat, keys: seq<Key>, memory: Memory)
    ensures Judge(key, serial, keys, memory).Accept? <==>
      && key.id !in memory.silenced
      && (forall k :: k in keys && k.id in memory.serials ==> k.rank <= key.rank)
      && if key.id in memory.serials
         then memory.serials[key.id] < serial <= memory.serials[key.id] + 1000
         else key.baseline <= serial <= key.baseline + 1000
  {
  }

  /** What it remembers then: this serial for this key, and every key of its set ranked below silenced. */
  lemma {:induction false} TakenIsRemembered(key: Key, serial: nat, keys: seq<Key>, memory: Memory, id: string)
    requires Judge(key, serial, keys, memory).Accept?
    ensures var after := Judge(key, serial, keys, memory).memory;
      && (id in after.serials <==> id == key.id || id in memory.serials)
      && (id in after.serials ==> after.serials[id] == if id == key.id then serial else memory.serials[id])
      && (id in after.silenced <==>
            id in memory.silenced || exists k :: k in keys && k.id == id && k.rank < key.rank)
  {
  }

  /** Why it is refused. */
  lemma {:induction false} RefusedFor(key: Key, serial: nat, keys: seq<Key>, memory: Memory)
    requires Judge(key, serial, keys, memory).Refuse?
    ensures var ranked := key.id in memory.silenced
        || exists k :: k in keys && k.id in memory.serials && k.rank > key.rank;
      Judge(key, serial, keys, memory).reason ==
      if ranked then Rank
      else if key.id !in memory.serials then FirstSight
      else if serial <= memory.serials[key.id] then Replay else Jump
  {
  }

  // ---------------------------------------------------------------- the branch

  /** What a commit must carry to publish an index: one of a key of the set that passes behind the commit before it. */
  lemma {:induction false} PublishedExactly(keys: seq<Key>, commits: seq<Commit>, j: nat)
    requires KeySet(keys) && j < |commits|
    ensures PublishedAt(keys, commits, j) <==>
      && commits[j].files.Both?
      && var p := commits[j].files.pair;
         exists key ::
           && key in keys && key.id == p.signer && p.genuine && p.serial >= 1
           && CheckUnsigned(key.id, p.serial, p.issued, keys, key.id,
                            if j == 0 then Absent else commits[j - 1].files,
                            Recorded(keys, Authentic(keys, commits[..j]))).Passed?
  {
    hide CheckUnsigned, Recorded, Authentic;
    if commits[j].files.Both? {
      var p := commits[j].files.pair;
      forall key | key in keys && key.id == p.signer ensures ById(keys, p.signer) == Some(key) { ByIdIs(keys, key); }
      match ById(keys, p.signer)
      case None =>
      case Some(key) => assert key in keys && key.id == p.signer;
    }
  }

  /** The first index a key publishes on an empty branch: the serial above its baseline. */
  lemma {:induction false} FirstIsPublished(keys: seq<Key>, key: Key, id: nat, issued: nat)
    requires KeySet(keys) && key in keys
    ensures PublishedAt(keys, [Commit(id, Both(Signed(key.id, key.baseline + 1, issued, true)))], 0)
  {
    var commits, none: seq<Commit> := [Commit(id, Both(Signed(key.id, key.baseline + 1, issued, true)))], [];
    assert commits[..0] == none;
    PassesExactly(keys, [], key, key.id, key.baseline + 1, issued, Absent);
    PublishedExactly(keys, commits, 0);
  }

  lemma {:induction false} RankIs(keys: seq<Key>, key: Key)
    requires KeySet(keys) && key in keys
    ensures RankOf(keys, key.id) == key.rank
  {
    RankIsFound(keys, key.id);
    var k :| k in keys && k.id == key.id && k.rank == RankOf(keys, key.id);
    SameKey(keys, k, key);
  }

  lemma {:induction false} RankIsFound(keys: seq<Key>, id: string)
    requires exists k :: k in keys && k.id == id
    ensures exists k :: k in keys && k.id == id && k.rank == RankOf(keys, id)
  {
    if keys[0].id == id {
      assert keys[0] in keys;
    } else {
      assert forall k :: k in keys <==> k == keys[0] || k in keys[1..];
      RankIsFound(keys[1..], id);
    }
  }

  /** Of two keys that published and that nothing silenced, the one to restore is the higher ranked. */
  lemma {:induction false} RestoresHighest(keys: seq<Key>, r: Record, a: Key, b: Key)
    requires KeySet(keys) && a in keys && b in keys && a != b
    requires a.id in r.top && a.id !in r.memory.silenced && b.id in r.top && b.id !in r.memory.silenced
    ensures Larger(keys, r.top, a.id, b.id) <==> a.rank > b.rank
  {
    RankIs(keys, a);
    RankIs(keys, b);
    if a.rank == b.rank { SameKey(keys, a, b); }
  }

  /** One index more offered to a reader: what is taken is remembered, what is refused changes nothing. */
  lemma {:induction false} OfferIsRemembered(keys: seq<Key>, offers: seq<Entry>, e: Entry)
    ensures var before, after := Reads(keys, offers), Reads(keys, offers + [e]);
      if Judge(e.key, e.serial, keys, before).Refuse? then after == before
      else
        && e.key.id in after.serials && after.serials[e.key.id] == e.serial
        && (forall id :: id in before.serials && id != e.key.id ==>
              id in after.serials && after.serials[id] == before.serials[id])
        && forall k :: k in keys && k.rank < e.key.rank ==> k.id in after.silenced
  {
    assert (offers + [e])[..|offers|] == offers;
    if Judge(e.key, e.serial, keys, Reads(keys, offers)).Accept? {
      TakenIsRemembered(e.key, e.serial, keys, Reads(keys, offers), e.key.id);
      forall id
        ensures id in Reads(keys, offers + [e]).serials <==> id == e.key.id || id in Reads(keys, offers).serials
      {
        TakenIsRemembered(e.key, e.serial, keys, Reads(keys, offers), id);
      }
    }
  }
}
