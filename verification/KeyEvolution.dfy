/** How a release's key set may follow the previous one's (tools/make-index.py). */
module KeyEvolution {
  import opened Trust

  datatype Problem =
    | RankChanged(id: string, before: nat, after: nat)
    | BaselineLowered(id: string, before: nat, after: nat)
    | NewTooLow(id: string, rank: nat, highest: nat)
    | DroppedAbove(id: string, rank: nat, kept: seq<string>)

  /** The dictionary by id that the tool builds. */
  function Indexed(keys: seq<Key>): (m: map<string, Key>)
    ensures forall k :: k in keys ==> k.id in m
    ensures forall id :: id in m ==> m[id] in keys && m[id].id == id
  {
    if keys == [] then map[] else Indexed(keys[..|keys| - 1])[keys[|keys| - 1].id := keys[|keys| - 1]]
  }

  function HighestRank(keys: seq<Key>): (r: nat)
    requires keys != []
    ensures forall k :: k in keys ==> k.rank <= r
    ensures exists k :: k in keys && k.rank == r
  {
    if |keys| == 1 then keys[0].rank
    else
      var rest := HighestRank(keys[1..]);
      assert forall k :: k in keys <==> k == keys[0] || k in keys[1..];
      if keys[0].rank > rest then keys[0].rank else rest
  }

  /** The ids of the keys carried over and ranked below `rank`, in the set's order. */
  function KeptBelow(before: map<string, Key>, current: seq<Key>, rank: nat): (r: seq<string>)
    ensures forall id :: id in r <==> exists k :: k in current && k.id == id && id in before && k.rank < rank
  {
    if current == [] then []
    else
      var rest := KeptBelow(before, current[1..], rank);
      assert forall k :: k in current <==> k == current[0] || k in current[1..];
      if current[0].id in before && current[0].rank < rank then [current[0].id] + rest else rest
  }

  /** What each reported line says. */
  ghost predicate IsProblem(previous: seq<Key>, current: seq<Key>, p: Problem)
    requires KeySet(previous)
  {
    var before, after := Indexed(previous), Indexed(current);
    match p
    case RankChanged(id, x, y) =>
      id in before && id in after && x != y && x == before[id].rank && y == after[id].rank
    case BaselineLowered(id, x, y) =>
      id in before && id in after && y < x && x == before[id].baseline && y == after[id].baseline
    case NewTooLow(id, rank, highest) =>
      id !in before && id in after && rank == after[id].rank && rank <= highest && highest == HighestRank(previous)
    case DroppedAbove(id, rank, kept) =>
      id in before && id !in after && rank == before[id].rank && kept != [] && kept == KeptBelow(before, current, rank)
  }

  method KeyEvolutionProblems(previous: seq<Key>, current: seq<Key>) returns (problems: seq<Problem>)
    requires KeySet(previous) && KeySet(current)
    ensures forall p :: p in problems <==> IsProblem(previous, current, p)
  {
    var before, after := Indexed(previous), Indexed(current);
    var kept := KeptProblems(before, after);
    var added := NewProblems(before, after, HighestRank(previous));
    var dropped := DroppedProblems(current, before, after);
    problems := kept + added + dropped;
  }

  method NewProblems(before: map<string, Key>, after: map<string, Key>, highest: nat) returns (problems: seq<Problem>)
    ensures forall p: Problem :: p in problems <==>
      (p.NewTooLow? && p.id in after.Keys - before.Keys
       && p.rank == after[p.id].rank && p.rank <= p.highest && p.highest == highest)
  {
    problems := [];
    var rest := after.Keys - before.Keys;
    while rest != {}
      invariant rest <= after.Keys - before.Keys
      invariant forall p: Problem :: p in problems <==>
        (p.NewTooLow? && p.id in after.Keys - before.Keys - rest
         && p.rank == after[p.id].rank && p.rank <= p.highest && p.highest == highest)
      decreases rest
    {
      var id :| id in rest;
      if after[id].rank <= highest { problems := problems + [NewTooLow(id, after[id].rank, highest)]; }
      rest := rest - {id};
    }
  }

  method KeptProblems(before: map<string, Key>, after: map<string, Key>) returns (problems: seq<Problem>)
    ensures forall p :: p in problems <==>
      p.id in before && p.id in after &&
      match p
      case RankChanged(id, x, y) => x != y && x == before[id].rank && y == after[id].rank
      case BaselineLowered(id, x, y) => y < x && x == before[id].baseline && y == after[id].baseline
      case _ => false
  {
    problems := [];
    var rest := before.Keys * after.Keys;
    while rest != {}
      invariant rest <= before.Keys * after.Keys
      invariant forall p :: p in problems <==>
        p.id in before && p.id in after && p.id !in rest &&
        match p
        case RankChanged(id, x, y) => x != y && x == before[id].rank && y == after[id].rank
        case BaselineLowered(id, x, y) => y < x && x == before[id].baseline && y == after[id].baseline
        case _ => false
      decreases rest
    {
      var id :| id in rest;
      if before[id].rank != after[id].rank {
        problems := problems + [RankChanged(id, before[id].rank, after[id].rank)];
      }
      if after[id].baseline < before[id].baseline {
        problems := problems + [BaselineLowered(id, before[id].baseline, after[id].baseline)];
      }
      rest := rest - {id};
    }
  }

  method DroppedProblems(current: seq<Key>, before: map<string, Key>, after: map<string,
      Key>) returns (problems: seq<Problem>)
    ensures forall p: Problem :: p in problems <==>
      (p.DroppedAbove? && p.id in before.Keys - after.Keys
       && p.rank == before[p.id].rank && p.kept != [] && p.kept == KeptBelow(before, current, p.rank))
  {
    problems := [];
    var rest := before.Keys - after.Keys;
    while rest != {}
      invariant rest <= before.Keys - after.Keys
      invariant forall p: Problem :: p in problems <==>
        (p.DroppedAbove? && p.id in before.Keys - after.Keys - rest
         && p.rank == before[p.id].rank && p.kept != [] && p.kept == KeptBelow(before, current, p.rank))
      decreases rest
    {
      var id :| id in rest;
      var keptBelow := KeptBelow(before, current, before[id].rank);
      if keptBelow != [] { problems := problems + [DroppedAbove(id, before[id].rank, keptBelow)]; }
      rest := rest - {id};
    }
  }

  // ---------------------------------------------------------------- what a problem-free step means

  ghost predicate ProblemFree(previous: seq<Key>, current: seq<Key>)
    requires KeySet(previous)
  {
    forall p :: !IsProblem(previous, current, p)
  }

  ghost predicate Carries(keys: seq<Key>, id: string) {
    exists k :: k in keys && k.id == id
  }

  ghost predicate KeptKeepTheirPlace(previous: seq<Key>, current: seq<Key>) {
    forall a, b :: a in previous && b in current && a.id == b.id ==> a.rank == b.rank && a.baseline <= b.baseline
  }

  ghost predicate NewGoOnTop(previous: seq<Key>, current: seq<Key>) {
    forall a, b :: a in previous && b in current && !Carries(previous, b.id) ==> a.rank < b.rank
  }

  ghost predicate DroppedFromBelow(previous: seq<Key>, current: seq<Key>) {
    forall a, b :: a in previous && b in previous && a.rank < b.rank && Carries(current, a.id) ==>
      Carries(current, b.id)
  }

  /**
   The rules in the set's own terms: kept keys keep their place, new ones go
   on top, and what is dropped is dropped from below.
   */
  ghost predicate KeepsRules(previous: seq<Key>, current: seq<Key>) {
    KeptKeepTheirPlace(previous, current) && NewGoOnTop(previous, current) && DroppedFromBelow(previous, current)
  }

  lemma {:induction false} KeptRule(previous: seq<Key>, current: seq<Key>, a: Key, b: Key)
    requires KeySet(previous) && KeySet(current) && ProblemFree(previous, current)
    requires a in previous && b in current && a.id == b.id
    ensures a.rank == b.rank && a.baseline <= b.baseline
  {
    SameKey(previous, a, Indexed(previous)[a.id]);
    SameKey(current, b, Indexed(current)[a.id]);
    assert !IsProblem(previous, current, RankChanged(a.id, a.rank, b.rank));
    assert !IsProblem(previous, current, BaselineLowered(a.id, a.baseline, b.baseline));
  }

  lemma {:induction false} NewRule(previous: seq<Key>, current: seq<Key>, a: Key, b: Key)
    requires KeySet(previous) && KeySet(current) && ProblemFree(previous, current)
    requires a in previous && b in current && !Carries(previous, b.id)
    ensures a.rank < b.rank
  {
    SameKey(current, b, Indexed(current)[b.id]);
    assert !IsProblem(previous, current, NewTooLow(b.id, b.rank, HighestRank(previous)));
  }

  lemma {:induction false} DroppedIsReported(previous: seq<Key>, current: seq<Key>, b: Key, c: Key)
    requires KeySet(previous) && KeySet(current) && b in previous && c in current
    requires Carries(previous, c.id) && c.rank < b.rank && !Carries(current, b.id)
    ensures !ProblemFree(previous, current)
  {
    var before := Indexed(previous);
    SameKey(previous, b, before[b.id]);
    var kept := KeptBelow(before, current, b.rank);
    assert c.id in kept;
    assert IsProblem(previous, current, DroppedAbove(b.id, b.rank, kept));
  }

  lemma {:induction false} DroppedRule(previous: seq<Key>, current: seq<Key>, a: Key, b: Key)
    requires KeySet(previous) && KeySet(current) && ProblemFree(previous, current)
    requires a in previous && b in previous && a.rank < b.rank && Carries(current, a.id)
    ensures Carries(current, b.id)
  {
    var c :| c in current && c.id == a.id;
    KeptRule(previous, current, a, c);
    if !Carries(current, b.id) { DroppedIsReported(previous, current, b, c); }
  }

  lemma {:induction false} RulesWhenProblemFree(previous: seq<Key>, current: seq<Key>)
    requires KeySet(previous) && KeySet(current) && ProblemFree(previous, current)
    ensures KeepsRules(previous, current)
  {
    forall a, b | a in previous && b in current && a.id == b.id ensures a.rank == b.rank && a.baseline <= b.baseline {
      KeptRule(previous, current, a, b);
    }
    forall a, b | a in previous && b in current && !Carries(previous, b.id) ensures a.rank < b.rank {
      NewRule(previous, current, a, b);
    }
    forall a, b | a in previous && b in previous && a.rank < b.rank && Carries(current, a.id)
      ensures Carries(current, b.id)
    {
      DroppedRule(previous, current, a, b);
    }
  }

  lemma {:induction false} NoneDroppedAbove(previous: seq<Key>, current: seq<Key>, id: string, k: Key)
    requires KeySet(previous) && KeySet(current) && KeepsRules(previous, current)
    requires id in Indexed(previous) && k in current && k.id in Indexed(previous) && k.rank < Indexed(previous)[id].rank
    ensures id in Indexed(current)
  {
    var a, b := Indexed(previous)[k.id], Indexed(previous)[id];
    assert Carries(current, a.id);
    assert Carries(current, b.id);
  }

  lemma {:induction false} ProblemFreeWhenRules(previous: seq<Key>, current: seq<Key>, p: Problem)
    requires KeySet(previous) && KeySet(current) && KeepsRules(previous, current)
    ensures !IsProblem(previous, current, p)
  {
    var before, after := Indexed(previous), Indexed(current);
    match p
    case RankChanged(id, _, _) =>
      if id in before && id in after { assert before[id] in previous && after[id] in current; }
    case BaselineLowered(id, _, _) =>
      if id in before && id in after { assert before[id] in previous && after[id] in current; }
    case NewTooLow(id, _, highest) =>
      if id !in before && id in after {
        var a :| a in previous && a.rank == HighestRank(previous);
        assert after[id] in current && !Carries(previous, id);
      }
    case DroppedAbove(id, rank, kept) =>
      if IsProblem(previous, current, p) {
        assert kept[0] in kept;
        var k :| k in current && k.id == kept[0] && k.id in before && k.rank < rank;
        NoneDroppedAbove(previous, current, id, k);
      }
  }

  /** No line is reported exactly when the release keeps the rules. */
  lemma {:induction false} ProblemFreeExactly(previous: seq<Key>, current: seq<Key>)
    requires KeySet(previous) && KeySet(current)
    ensures ProblemFree(previous, current) <==> KeepsRules(previous, current)
  {
    if ProblemFree(previous, current) { RulesWhenProblemFree(previous, current); }
    if KeepsRules(previous, current) {
      forall p ensures !IsProblem(previous, current, p) { ProblemFreeWhenRules(previous, current, p); }
    }
  }

  // ---------------------------------------------------------------- chains of releases

  /** Releases one after another, each with no problem against the one before. */
  ghost predicate Chain(releases: seq<seq<Key>>) {
    && (forall i :: 0 <= i < |releases| ==> KeySet(releases[i]))
    && (forall i: nat :: i + 1 < |releases| ==> ProblemFree(releases[i], releases[i + 1]))
  }

  /** Such as a set of two that drops its lower key and gains a higher one. */
  lemma {:induction false} ChainExists(low: Key, mid: Key, high: Key)
    requires 1 <= low.rank < mid.rank < high.rank
    requires low.id != mid.id && mid.id != high.id && low.id != high.id
    ensures Chain([[low, mid], [mid, high]])
  {
    hide ProblemFree;
    var before, after := [low, mid], [mid, high];
    assert before[0] == low && before[1] == mid && after[0] == mid && after[1] == high;
    forall k ensures k in before <==> k == low || k == mid {}
    forall k ensures k in after <==> k == mid || k == high {}
    assert KeySet(before) && KeySet(after);
    assert KeepsRules(before, after) by { assert Carries(before, mid.id) && Carries(after, mid.id); }
    ProblemFreeExactly(before, after);
  }

  ghost predicate AllAbove(keys: seq<Key>, rank: nat) {
    forall k :: k in keys ==> k.rank > rank
  }

  lemma {:induction false} StepAbove(previous: seq<Key>, current: seq<Key>, rank: nat)
    requires KeySet(previous) && KeySet(current) && ProblemFree(previous, current) && AllAbove(previous, rank)
    ensures AllAbove(current, rank)
  {
    forall b | b in current ensures b.rank > rank {
      if Carries(previous, b.id) {
        var a :| a in previous && a.id == b.id;
        KeptRule(previous, current, a, b);
      } else {
        assert previous[0] in previous;
        NewRule(previous, current, previous[0], b);
      }
    }
  }

  lemma {:induction false} StaysAbove(releases: seq<seq<Key>>, i: nat, j: nat, rank: nat)
    requires Chain(releases) && i <= j < |releases| && AllAbove(releases[i], rank)
    ensures AllAbove(releases[j], rank)
    decreases j
  {
    if i == j {
    } else {
      StaysAbove(releases, i, j - 1, rank);
      StepAbove(releases[j - 1], releases[j], rank);
    }
  }

  /** The lowest rank carried never goes down. */
  lemma {:induction false} LowestNeverFalls(releases: seq<seq<Key>>, i: nat, j: nat, b: Key) returns (a: Key)
    requires Chain(releases) && i <= j < |releases| && b in releases[j]
    ensures a in releases[i] && a.rank <= b.rank
  {
    if AllAbove(releases[i], b.rank) { StaysAbove(releases, i, j, b.rank); }
    a :| a in releases[i] && a.rank <= b.rank;
  }

  lemma {:induction false} StepRises(previous: seq<Key>, current: seq<Key>, a: Key) returns (b: Key)
    requires KeySet(previous) && KeySet(current) && ProblemFree(previous, current) && a in previous
    ensures b in current && b.rank >= a.rank
  {
    if Carries(current, a.id) {
      b :| b in current && b.id == a.id;
      KeptRule(previous, current, a, b);
    } else {
      b := current[0];
      StepDrops(previous, current, a);
    }
  }

  /** The highest rank carried never goes down. */
  lemma {:induction false} HighestNeverFalls(releases: seq<seq<Key>>, i: nat, j: nat, a: Key) returns (b: Key)
    requires Chain(releases) && i <= j < |releases| && a in releases[i]
    ensures b in releases[j] && b.rank >= a.rank
    decreases j
  {
    b := a;
    if i == j {
    } else {
      var c := HighestNeverFalls(releases, i, j - 1, a);
      b := StepRises(releases[j - 1], releases[j], c);
    }
  }

  lemma {:induction false} StepDrops(previous: seq<Key>, current: seq<Key>, a: Key)
    requires KeySet(previous) && KeySet(current) && ProblemFree(previous, current)
    requires a in previous && !Carries(current, a.id)
    ensures AllAbove(current, a.rank)
  {
    forall b | b in current ensures b.rank > a.rank {
      if Carries(previous, b.id) {
        var c :| c in previous && c.id == b.id;
        KeptRule(previous, current, c, b);
        if c.rank < a.rank {
          DroppedRule(previous, current, c, a);
        } else if c.rank == a.rank {
          SameKey(previous, a, c);
        }
      } else {
        NewRule(previous, current, a, b);
      }
    }
  }

  /** Once a key of some rank is dropped, no later release carries a key of that rank or a lower one. */
  lemma {:induction false} DroppedForGood(releases: seq<seq<Key>>, i: nat, j: nat, k: nat, a: Key)
    requires Chain(releases) && i < j <= k < |releases| && a in releases[i] && !Carries(releases[j], a.id)
    ensures AllAbove(releases[k], a.rank)
    decreases j - i
  {
    if Carries(releases[i + 1], a.id) {
      var b :| b in releases[i + 1] && b.id == a.id;
      KeptRule(releases[i], releases[i + 1], a, b);
      DroppedForGood(releases, i + 1, j, k, b);
    } else {
      StepDrops(releases[i], releases[i + 1], a);
      StaysAbove(releases, i + 1, k, a.rank);
    }
  }

  /** A key every release carries keeps its rank, and its baseline never goes down. */
  lemma {:induction false} KeptThroughout(releases: seq<seq<Key>>, i: nat, j: nat, a: Key, b: Key)
    requires Chain(releases) && i <= j < |releases| && a in releases[i] && b in releases[j] && a.id == b.id
    requires forall n :: i <= n <= j ==> Carries(releases[n], a.id)
    ensures a.rank == b.rank && a.baseline <= b.baseline
    decreases j - i
  {
    if i == j {
      SameKey(releases[i], a, b);
    } else {
      var c :| c in releases[i + 1] && c.id == a.id;
      KeptRule(releases[i], releases[i + 1], a, c);
      KeptThroughout(releases, i + 1, j, c, b);
    }
  }

  /** Of a key some release carried, a later one carries the same key at the same rank, or nothing ranked as low. */
  lemma {:induction false} CarriedOrAbove(releases: seq<seq<Key>>, i: nat, j: nat, h: Key)
    requires Chain(releases) && i <= j < |releases| && h in releases[i]
    ensures AllAbove(releases[j], h.rank) || exists b :: b in releases[j] && b.id == h.id && b.rank == h.rank
    decreases j
  {
    if i < j {
      CarriedOrAbove(releases, i, j - 1, h);
      if AllAbove(releases[j - 1], h.rank) {
        StepAbove(releases[j - 1], releases[j], h.rank);
      } else {
        var b :| b in releases[j - 1] && b.id == h.id && b.rank == h.rank;
        if Carries(releases[j], h.id) {
          var c :| c in releases[j] && c.id == h.id;
          KeptRule(releases[j - 1], releases[j], b, c);
        } else {
          StepDrops(releases[j - 1], releases[j], b);
        }
      }
    }
  }

  /** What an updated reader judges with still knows every serial it had from a key it still holds (`memory_for`). */
  ghost predicate KeepsHeld(keys: seq<Key>, memory: Memory, later: Memory) {
    forall k :: k in keys && k.id in memory.serials ==> k.id in later.serials
  }

  /**
   Updating along a chain never reopens a reader: what it accepts after the update, whatever it remembers, is signed
   by a key ranked no lower than the floor it had before.
   */
  lemma {:induction false} UpdateKeepsFloor(releases: seq<seq<Key>>, i: nat, j: nat, memory: Memory, later: Memory,
      key: Key, serial: nat)
    requires Chain(releases) && i <= j < |releases| && key in releases[j] && KeepsHeld(releases[j], memory, later)
    requires Judge(key, serial, releases[j], later).Accept?
    ensures key.rank >= RankFloor(releases[i], memory)
  {
    var floor := RankFloor(releases[i], memory);
    if floor > 0 {
      var h :| h in releases[i] && h.id in memory.serials && h.rank == floor;
      CarriedOrAbove(releases, i, j, h);
      if !AllAbove(releases[j], h.rank) {
        var b :| b in releases[j] && b.id == h.id && b.rank == h.rank;
        assert b.rank <= RankFloor(releases[j], later);
      }
    }
  }
}
