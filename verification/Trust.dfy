/** The one rule by which every reader accepts a signed index (src/MQTTBridge/trust.py). */
module Trust {
  import opened Options

  datatype Key = Key(id: string, rank: nat, baseline: nat)

  /** What `check_keys` lets through: at least one key, ids and ranks unique. */
  ghost predicate KeySet(keys: seq<Key>) {
    && keys != []
    && (forall i, j :: 0 <= i < j < |keys| ==> keys[i].id != keys[j].id && keys[i].rank != keys[j].rank)
    && (forall i :: 0 <= i < |keys| ==> keys[i].rank >= 1)
  }

  function ById(keys: seq<Key>, id: string): (r: Option<Key>)
    ensures r.Some? ==> r.value in keys && r.value.id == id
    ensures r.None? ==> forall k :: k in keys ==> k.id != id
  {
    if keys == [] then None else if keys[0].id == id then Some(keys[0]) else ById(keys[1..], id)
  }

  /** What a reader keeps: the last serial it accepted from each key, and the keys it ignores for good. */
  datatype Memory = Memory(serials: map<string, nat>, silenced: set<string>)

  const EMPTY := Memory(map[], {})

  const MAX_JUMP := 1000

  datatype Reason = Rank | Replay | Jump | FirstSight

  datatype Verdict = Accept(memory: Memory) | Refuse(reason: Reason)

  /** The ids of the keys ranked below `rank`. */
  function Below(keys: seq<Key>, rank: nat): set<string> {
    set k | k in keys && k.rank < rank :: k.id
  }

  function Remember(memory: Memory, key: Key, serial: nat, keys: seq<Key>): Memory {
    Memory(memory.serials[key.id := serial], memory.silenced + Below(keys, key.rank))
  }

  /** The highest rank, among `keys`, of a key this reader has accepted an index from; 0 when there is none. */
  function RankFloor(keys: seq<Key>, memory: Memory): (floor: nat)
    ensures forall k :: k in keys && k.id in memory.serials ==> k.rank <= floor
    ensures floor == 0 || exists k :: k in keys && k.id in memory.serials && k.rank == floor
  {
    if keys == [] then 0
    else
      var rest := RankFloor(keys[1..], memory);
      assert forall k :: k in keys <==> k == keys[0] || k in keys[1..];
      if keys[0].id in memory.serials && keys[0].rank > rest then keys[0].rank else rest
  }

  /** Steps 5 and 6 for an authentic index: the memory to store after it, or the reason it is refused. */
  function Judge(key: Key, serial: nat, keys: seq<Key>, memory: Memory): Verdict {
    if key.id in memory.silenced then Refuse(Rank)
    else if key.rank < RankFloor(keys, memory) then Refuse(Rank)
    else if key.id !in memory.serials then
      if key.baseline <= serial <= key.baseline + MAX_JUMP then Accept(Remember(memory, key, serial, keys))
      else Refuse(FirstSight)
    else if serial <= memory.serials[key.id] then Refuse(Replay)
    else if serial > memory.serials[key.id] + MAX_JUMP then Refuse(Jump)
    else Accept(Remember(memory, key, serial, keys))
  }

  lemma {:induction false} SameKey(keys: seq<Key>, a: Key, b: Key)
    requires KeySet(keys) && a in keys && b in keys && (a.id == b.id || a.rank == b.rank)
    ensures a == b
  {
  }
}
