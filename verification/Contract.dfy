/** What a contract may not take away from the one before it (tools/check-contract.py). */
module Contract {
  import opened Options

  /** What a part says of a name: an object, by key, or any other value. Values are compared as JSON text. */
  datatype Value = Fields(fields: map<string, string>) | Plain(json: string)

  /** A part of the contract: a list of names, an object by name, or nothing. */
  datatype Part = Names(names: seq<string>) | Mapping(entries: map<string, Value>) | Missing

  /** A row of the exception record, or something that is no object. */
  datatype Row = Row(name: string, release: string) | NotARow

  datatype Contract = Contract(major: Option<int>, parts: map<string, Part>, exceptions: seq<Row>)

  const LABELS :=
    ["state_topics", "commands", "info_members", "info_wol_members", "info_build_members", "info_menu_members",
                   "info_list_members", "settings", "capabilities", "other_topics"]

  const UNRELEASED := "unreleased"

  /** How texts are read: a version's three numbers, and the choices of an `enum(...)` type. */
  datatype Reader = Reader(versionKey: string -> Option<(nat, nat, nat)>, choices: string -> Option<set<string>>)

  datatype Problem =
    | NoMajor
    | MajorWentDown
    | Removed(part: string, name: string)
    | LostChoice(part: string, name: string, choice: string)
    | Changed(part: string, name: string)
    | DroppedException(name: string)
    | Redated(name: string)
    | BadDate(name: string)

  // ---------------------------------------------------------------- reading a contract

  /** `_as_mapping`: every part compares the same way. */
  function AsMapping(part: Part): map<string, Value> {
    match part
    case Names(names) => map name | name in names :: Plain("null")
    case Mapping(entries) => entries
    case Missing => map[]
  }

  function PartOf(c: Contract, part: string): map<string, Value> {
    AsMapping(if part in c.parts then c.parts[part] else Missing)
  }

  /** `_exception_map`: of two rows with one name, the later counts. */
  function ExceptionMap(rows: seq<Row>): map<string, string> {
    if rows == [] then map[]
    else
      var before, row := ExceptionMap(rows[..|rows| - 1]), rows[|rows| - 1];
      if row.Row? then before[row.name := row.release] else before
  }

  /** `_enum_choices`. */
  function EnumChoices(reader: Reader, value: Value): Option<set<string>> {
    if value.Fields? && "type" in value.fields then reader.choices(value.fields["type"]) else None
  }

  predicate BothEnums(reader: Reader, was: Value, now: Value) {
    EnumChoices(reader, was).Some? && EnumChoices(reader, now).Some?
  }

  /** What is compared of two values: their types only when not both enumerations, and never `since`. */
  function Compared(reader: Reader, value: Value, other: Value): Value {
    if value.Fields? && other.Fields?
    then Fields(value.fields - (if BothEnums(reader, value, other) then {"type", "since"} else {"since"}))
    else value
  }

  // ---------------------------------------------------------------- what is reported

  /** `_date_problem`: why a date given now is wrong. */
  predicate DateProblem(reader: Reader, release: string, previous: Option<string>, current: Option<string>) {
    release != UNRELEASED
    && (reader.versionKey(release).None?
        || (current.Some? && release != current.value)
        || (previous.Some? && reader.versionKey(previous.value).Some?
            && !Later(reader.versionKey(release).value, reader.versionKey(previous.value).value)))
  }

  /** Python's order on version tuples. */
  predicate Later(a: (nat, nat, nat), b: (nat, nat, nat)) {
    a.0 > b.0 || (a.0 == b.0 && (a.1 > b.1 || (a.1 == b.1 && a.2 > b.2)))
  }

  ghost predicate IsPartProblem(reader: Reader, older: Contract, newer: Contract, p: Problem) {
    match p
    case Removed(part, name) => part in LABELS && name in PartOf(older, part) && name !in PartOf(newer, part)
    case LostChoice(part, name, choice) =>
      && part in LABELS && name in PartOf(older, part) && name in PartOf(newer, part)
      && var was, now := PartOf(older, part)[name], PartOf(newer, part)[name];
      BothEnums(reader, was, now) && choice in EnumChoices(reader, was).value - EnumChoices(reader, now).value
    case Changed(part, name) =>
      && part in LABELS && name in PartOf(older, part) && name in PartOf(newer, part)
      && var was, now := PartOf(older, part)[name], PartOf(newer, part)[name];
      Compared(reader, was, now) != Compared(reader, now, was)
    case _ => false
  }

  ghost predicate IsRecordProblem(reader: Reader, before: map<string, string>, after: map<string, string>,
                                  previous: Option<string>, current: Option<string>, p: Problem) {
    match p
    case DroppedException(name) => name in before && name !in after
    case Redated(name) => name in before && name in after && before[name] != UNRELEASED && before[name] != after[name]
    case BadDate(name) =>
      name in after && (name !in before || before[name] == UNRELEASED)
        && DateProblem(reader, after[name], previous, current)
    case _ => false
  }

  ghost predicate IsProblem(reader: Reader, older: Contract, newer: Contract, previous: Option<string>,
      current: Option<string>, p: Problem) {
    if older.major.None? || newer.major.None? then p == NoMajor
    else if newer.major.value < older.major.value then p == MajorWentDown
    else if newer.major.value > older.major.value then false
    else
      IsPartProblem(reader, older, newer, p)
      || IsRecordProblem(reader, ExceptionMap(older.exceptions), ExceptionMap(newer.exceptions), previous, current, p)
  }

  // ---------------------------------------------------------------- comparing

  method ComparePart(reader: Reader, part: string, before: map<string, Value>, after: map<string,
      Value>) returns (problems: seq<Problem>)
    ensures forall p :: p in problems <==> IsNameProblem(reader, part, before, after, p)
  {
    problems := [];
    var rest := before.Keys;
    while rest != {}
      invariant rest <= before.Keys
      invariant forall p :: p in problems <==> IsNameProblem(reader, part, before, after, p) && p.name !in rest
      decreases rest
    {
      var name :| name in rest;
      var found := CompareName(reader, part, before, after, name);
      problems := problems + found;
      rest := rest - {name};
    }
  }

  ghost predicate IsNameProblem(reader: Reader, part: string, before: map<string, Value>, after: map<string, Value>,
      p: Problem) {
    match p
    case Removed(where, name) => where == part && name in before && name !in after
    case LostChoice(where, name, choice) =>
      && where == part && name in before && name in after && BothEnums(reader, before[name], after[name])
      && choice in EnumChoices(reader, before[name]).value - EnumChoices(reader, after[name]).value
    case Changed(where, name) =>
      && where == part && name in before && name in after
      && Compared(reader, before[name], after[name]) != Compared(reader, after[name], before[name])
    case _ => false
  }

  method CompareName(reader: Reader, part: string, before: map<string, Value>, after: map<string, Value>, name: string)
    returns (problems: seq<Problem>)
    requires name in before
    ensures forall p :: p in problems <==> IsNameProblem(reader, part, before, after, p) && p.name == name
  {
    if name !in after { return [Removed(part, name)]; }
    var was, now := before[name], after[name];
    problems := [];
    if BothEnums(reader, was, now) {
      problems := LostChoices(part, name, EnumChoices(reader, was).value - EnumChoices(reader, now).value);
    }
    if Compared(reader, was, now) != Compared(reader, now, was) { problems := problems + [Changed(part, name)]; }
  }

  method LostChoices(part: string, name: string, lost: set<string>) returns (problems: seq<Problem>)
    ensures forall p :: p in problems <==> p.LostChoice? && p.part == part && p.name == name && p.choice in lost
  {
    problems := [];
    var rest := lost;
    while rest != {}
      invariant rest <= lost
      invariant forall p :: p in problems <==>
        p.LostChoice? && p.part == part && p.name == name && p.choice in lost - rest
      decreases rest
    {
      var choice :| choice in rest;
      problems := problems + [LostChoice(part, name, choice)];
      rest := rest - {choice};
    }
  }

  method CompareRecord(reader: Reader, before: map<string, string>, after: map<string, string>,
      previous: Option<string>, current: Option<string>)
    returns (problems: seq<Problem>)
    ensures forall p :: p in problems <==> IsRecordProblem(reader, before, after, previous, current, p)
  {
    hide DateProblem;
    problems := [];
    var rest := before.Keys;
    while rest != {}
      invariant rest <= before.Keys
      invariant forall p :: p in problems <==>
        IsRecordProblem(reader, before, after, previous, current, p) && p.name in before && p.name !in rest
      decreases rest
    {
      var name :| name in rest;
      if name !in after {
        problems := problems + [DroppedException(name)];
      } else if before[name] != UNRELEASED {
        if after[name] != before[name] { problems := problems + [Redated(name)]; }
      } else if DateProblem(reader, after[name], previous, current) {
        problems := problems + [BadDate(name)];
      }
      rest := rest - {name};
    }
    ghost var sofar := problems;
    var added := after.Keys - before.Keys;
    while added != {}
      invariant added <= after.Keys - before.Keys
      invariant forall p :: p in problems <==>
        p in sofar
          || (IsRecordProblem(reader, before, after, previous, current, p) && p.name !in before && p.name !in added)
      decreases added
    {
      var name :| name in added;
      if DateProblem(reader, after[name], previous, current) { problems := problems + [BadDate(name)]; }
      added := added - {name};
    }
  }

  /** `compare`: what `newer` takes away from `older` without the new major that would allow it. */
  method Compare(reader: Reader, older: Contract, newer: Contract, previous: Option<string>, current: Option<string>)
    returns (problems: seq<Problem>)
    ensures forall p :: p in problems <==> IsProblem(reader, older, newer, previous, current, p)
  {
    if older.major.None? || newer.major.None? { return [NoMajor]; }
    if newer.major.value < older.major.value { return [MajorWentDown]; }
    if newer.major.value > older.major.value { return []; }
    problems := [];
    var k := 0;
    while k < |LABELS|
      invariant 0 <= k <= |LABELS|
      invariant forall p :: p in problems <==>
        exists i :: 0 <= i < k
          && IsNameProblem(reader, LABELS[i], PartOf(older, LABELS[i]), PartOf(newer, LABELS[i]), p)
    {
      var found := ComparePart(reader, LABELS[k], PartOf(older, LABELS[k]), PartOf(newer, LABELS[k]));
      problems := problems + found;
      k := k + 1;
    }
    var dates :=
      CompareRecord(reader, ExceptionMap(older.exceptions), ExceptionMap(newer.exceptions), previous, current);
    problems := problems + dates;
  }

  // ---------------------------------------------------------------- promises kept

  /** `compare` without release arguments reports nothing. */
  ghost predicate Keeps(reader: Reader, older: Contract, newer: Contract) {
    forall p :: !IsProblem(reader, older, newer, None, None, p)
  }

  /** One value keeps what another promised: the same but for `since`, and an enumeration only gains choices. */
  ghost predicate ValueKept(reader: Reader, was: Value, now: Value) {
    && Compared(reader, was, now) == Compared(reader, now, was)
    && (BothEnums(reader, was, now) ==> EnumChoices(reader, was).value <= EnumChoices(reader, now).value)
  }

  ghost predicate PartKept(reader: Reader, before: map<string, Value>, after: map<string, Value>) {
    forall name :: name in before ==> name in after && ValueKept(reader, before[name], after[name])
  }

  /** A date a record may be given: none yet, or a version. */
  predicate GoodDate(reader: Reader, release: string) {
    release == UNRELEASED || reader.versionKey(release).Some?
  }

  ghost predicate RecordKept(reader: Reader, before: map<string, string>, after: map<string, string>) {
    && (forall name :: name in before ==> name in after && (before[name] != UNRELEASED ==> after[name] == before[name]))
    && (forall name :: name in after && (name !in before || before[name] == UNRELEASED) ==>
        GoodDate(reader, after[name]))
  }

  ghost predicate PartsKept(reader: Reader, older: Contract, newer: Contract) {
    forall part :: part in LABELS ==> PartKept(reader, PartOf(older, part), PartOf(newer, part))
  }

  /** What a contract promises the ones after it. */
  ghost predicate PromisesKept(reader: Reader, older: Contract, newer: Contract) {
    && older.major.Some? && newer.major.Some? && older.major.value <= newer.major.value
    && (older.major == newer.major ==>
          PartsKept(reader, older, newer)
            && RecordKept(reader, ExceptionMap(older.exceptions), ExceptionMap(newer.exceptions)))
  }

  lemma {:induction false} MajorsWhenKept(reader: Reader, older: Contract, newer: Contract)
    requires Keeps(reader, older, newer)
    ensures older.major.Some? && newer.major.Some? && older.major.value <= newer.major.value
  {
    assert !IsProblem(reader, older, newer, None, None, NoMajor);
    assert !IsProblem(reader, older, newer, None, None, MajorWentDown);
  }

  lemma {:induction false} PartsWhenKept(reader: Reader, older: Contract, newer: Contract, part: string, name: string)
    requires Keeps(reader, older, newer) && older.major.Some? && older.major == newer.major
    requires part in LABELS && name in PartOf(older, part)
    ensures name in PartOf(newer, part) && ValueKept(reader, PartOf(older, part)[name], PartOf(newer, part)[name])
  {
    assert !IsProblem(reader, older, newer, None, None, Removed(part, name));
    assert !IsProblem(reader, older, newer, None, None, Changed(part, name));
    var was, now := PartOf(older, part)[name], PartOf(newer, part)[name];
    if BothEnums(reader, was, now) {
      forall choice | choice in EnumChoices(reader, was).value ensures choice in EnumChoices(reader, now).value {
        assert !IsProblem(reader, older, newer, None, None, LostChoice(part, name, choice));
      }
    }
  }

  lemma {:induction false} RecordWhenKept(reader: Reader, older: Contract, newer: Contract, name: string)
    requires Keeps(reader, older, newer) && older.major.Some? && older.major == newer.major
    ensures var before, after := ExceptionMap(older.exceptions), ExceptionMap(newer.exceptions);
      && (name in before ==> name in after && (before[name] != UNRELEASED ==> after[name] == before[name]))
      && (name in after && (name !in before || before[name] == UNRELEASED) ==> GoodDate(reader, after[name]))
  {
    assert !IsProblem(reader, older, newer, None, None, DroppedException(name));
    assert !IsProblem(reader, older, newer, None, None, Redated(name));
    assert !IsProblem(reader, older, newer, None, None, BadDate(name));
  }

  lemma {:induction false} NoProblemWhenKept(reader: Reader, older: Contract, newer: Contract, p: Problem)
    requires PromisesKept(reader, older, newer)
    ensures !IsProblem(reader, older, newer, None, None, p)
  {
  }

  /** No line is reported exactly when the promises are kept. */
  lemma {:induction false} KeepsExactly(reader: Reader, older: Contract, newer: Contract)
    ensures Keeps(reader, older, newer) <==> PromisesKept(reader, older, newer)
  {
    if Keeps(reader, older, newer) {
      MajorsWhenKept(reader, older, newer);
      if older.major == newer.major {
        forall part | part in LABELS ensures PartKept(reader, PartOf(older, part), PartOf(newer, part)) {
          forall name | name in PartOf(older, part)
            ensures name in PartOf(newer, part)
              && ValueKept(reader, PartOf(older, part)[name], PartOf(newer, part)[name])
          {
            PartsWhenKept(reader, older, newer, part, name);
          }
        }
        RecordKeptWhenKept(reader, older, newer);
      }
    }
    if PromisesKept(reader, older, newer) {
      forall p ensures !IsProblem(reader, older, newer, None, None, p) { NoProblemWhenKept(reader, older, newer, p); }
    }
  }

  lemma {:induction false} RecordKeptWhenKept(reader: Reader, older: Contract, newer: Contract)
    requires Keeps(reader, older, newer) && older.major.Some? && older.major == newer.major
    ensures RecordKept(reader, ExceptionMap(older.exceptions), ExceptionMap(newer.exceptions))
  {
    var before, after := ExceptionMap(older.exceptions), ExceptionMap(newer.exceptions);
    forall name | name in before ensures name in after && (before[name] != UNRELEASED ==> after[name] == before[name]) {
      RecordWhenKept(reader, older, newer, name);
    }
    forall name | name in after && (name !in before || before[name] == UNRELEASED)
      ensures GoodDate(reader, after[name])
    {
      RecordWhenKept(reader, older, newer, name);
    }
  }

  // ---------------------------------------------------------------- a preorder

  /** A contract keeps its own promises exactly when it has a major. */
  lemma {:induction false} KeepsItself(reader: Reader, c: Contract)
    ensures Keeps(reader, c, c) <==> c.major.Some?
  {
    KeepsExactly(reader, c, c);
  }

  /** What keeps an enumeration's promises is an enumeration, and nothing else is. */
  lemma {:induction false} EnumsStayEnums(reader: Reader, was: Value, now: Value)
    requires ValueKept(reader, was, now)
    ensures EnumChoices(reader, was).Some? <==> EnumChoices(reader, now).Some?
  {
    if was.Fields? && now.Fields? && !BothEnums(reader, was, now) {
      var a, b := was.fields - {"since"}, now.fields - {"since"};
      assert a == b;
      assert "type" in was.fields <==> "type" in a;
      assert "type" in now.fields <==> "type" in b;
    }
  }

  lemma {:induction false} ValuesInTurn(reader: Reader, a: Value, b: Value, c: Value)
    requires ValueKept(reader, a, b) && ValueKept(reader, b, c)
    ensures ValueKept(reader, a, c)
  {
    EnumsStayEnums(reader, a, b);
    EnumsStayEnums(reader, b, c);
  }

  lemma {:induction false} PartsInTurn(reader: Reader, a: map<string, Value>, b: map<string, Value>, c: map<string,
      Value>)
    requires PartKept(reader, a, b) && PartKept(reader, b, c)
    ensures PartKept(reader, a, c)
  {
    forall name | name in a ensures name in c && ValueKept(reader, a[name], c[name]) {
      ValuesInTurn(reader, a[name], b[name], c[name]);
    }
  }

  lemma {:induction false} RecordsInTurn(reader: Reader, a: map<string, string>, b: map<string, string>,
      c: map<string, string>)
    requires RecordKept(reader, a, b) && RecordKept(reader, b, c)
    ensures RecordKept(reader, a, c)
  {
  }

  /** Promises kept twice in a row are kept over both steps. */
  lemma {:induction false} PromisesInTurn(reader: Reader, a: Contract, b: Contract, c: Contract)
    requires PromisesKept(reader, a, b) && PromisesKept(reader, b, c)
    ensures PromisesKept(reader, a, c)
  {
    if a.major == c.major {
      forall part | part in LABELS ensures PartKept(reader, PartOf(a, part), PartOf(c, part)) {
        PartsInTurn(reader, PartOf(a, part), PartOf(b, part), PartOf(c, part));
      }
      RecordsInTurn(reader, ExceptionMap(a.exceptions), ExceptionMap(b.exceptions), ExceptionMap(c.exceptions));
    }
  }

  /**
   Over any chain of releases each keeping the previous one's promises,
   every release keeps those of every earlier one.
   */
  lemma {:induction false} ChainKeeps(reader: Reader, releases: seq<Contract>, i: nat, j: nat)
    requires forall k: nat :: k + 1 < |releases| ==> Keeps(reader, releases[k], releases[k + 1])
    requires i < j < |releases|
    ensures Keeps(reader, releases[i], releases[j])
    decreases j
  {
    if i + 1 < j {
      ChainKeeps(reader, releases, i, j - 1);
      assert Keeps(reader, releases[j - 1], releases[j - 1 + 1]);
      KeepsExactly(reader, releases[i], releases[j - 1]);
      KeepsExactly(reader, releases[j - 1], releases[j]);
      PromisesInTurn(reader, releases[i], releases[j - 1], releases[j]);
      KeepsExactly(reader, releases[i], releases[j]);
    } else {
      assert Keeps(reader, releases[i], releases[i + 1]);
    }
  }

  /** With release arguments nothing that is reported without them goes unreported. */
  lemma {:induction false} ArgumentsOnlyAdd(reader: Reader, older: Contract, newer: Contract,
      previous: Option<string>, current: Option<string>, p: Problem)
    requires IsProblem(reader, older, newer, None, None, p)
    ensures IsProblem(reader, older, newer, previous, current, p)
  {
  }

  // ---------------------------------------------------------------- the exception record

  /** A release and the contract its tag carries. */
  datatype Release = Release(version: string, contract: Contract)

  datatype RecordProblem =
    | StillUnreleased(index: nat, name: string)
    | DatedAfterFirst(name: string)
    | DatedElsewhere(index: nat, name: string)

  function Dates(history: seq<Release>, i: nat): map<string, string>
    requires i < |history|
  {
    ExceptionMap(history[i].contract.exceptions)
  }

  /** A dated row of that name comes before release `i`. */
  ghost predicate SeenBefore(history: seq<Release>, i: nat, name: string)
    requires i <= |history|
  {
    exists k: nat :: k < i && name in Dates(history, k) && Dates(history, k)[name] != UNRELEASED
  }

  predicate NotAfter(reader: Reader, release: string, version: string) {
    && reader.versionKey(release).Some? && reader.versionKey(version).Some?
    && !Later(reader.versionKey(release).value, reader.versionKey(version).value)
  }

  ghost predicate IsHistoryProblem(reader: Reader, history: seq<Release>, p: RecordProblem) {
    match p
    case StillUnreleased(i, name) => i < |history| && name in Dates(history, i) && Dates(history, i)[name] == UNRELEASED
    case DatedAfterFirst(name) =>
      && history != [] && name in Dates(history, 0) && Dates(history, 0)[name] != UNRELEASED
      && !NotAfter(reader, Dates(history, 0)[name], history[0].version)
    case DatedElsewhere(i, name) =>
      && 0 < i < |history| && name in Dates(history, i) && Dates(history, i)[name] != UNRELEASED
      && !SeenBefore(history, i, name) && Dates(history, i)[name] != history[i].version
  }

  /** The problems of the releases before `i`. */
  ghost predicate Collected(reader: Reader, history: seq<Release>, i: nat, problems: seq<RecordProblem>,
      seen: set<string>)
    requires i <= |history|
  {
    && (forall name :: name in seen <==> SeenBefore(history, i, name))
    && (forall p :: p in problems <==> IsHistoryProblem(reader, history, p) && IndexOf(p) < i)
  }

  function IndexOf(p: RecordProblem): nat {
    match p
    case StillUnreleased(i, _) => i
    case DatedAfterFirst(_) => 0
    case DatedElsewhere(i, _) => i
  }

  /** `check_record`: the exception record across release tags, oldest first. */
  method CheckRecord(reader: Reader, history: seq<Release>) returns (problems: seq<RecordProblem>)
    ensures forall p :: p in problems <==> IsHistoryProblem(reader, history, p)
  {
    problems := [];
    var seen: set<string> := {};
    var i := 0;
    while i < |history|
      invariant 0 <= i <= |history| && Collected(reader, history, i, problems, seen)
    {
      var found, dated := CheckRelease(reader, history, i, seen);
      NextCollected(reader, history, i, problems, seen, found, dated);
      problems, seen := problems + found, seen + dated;
      i := i + 1;
    }
  }

  lemma {:induction false} NextCollected(reader: Reader, history: seq<Release>, i: nat, problems: seq<RecordProblem>,
      seen: set<string>,
                                         found: seq<RecordProblem>, dated: set<string>)
    requires i < |history| && Collected(reader, history, i, problems, seen)
    requires forall p :: p in found <==> IsHistoryProblem(reader, history, p) && IndexOf(p) == i
    requires dated == set name | name in Dates(history, i) && Dates(history, i)[name] != UNRELEASED
    ensures Collected(reader, history, i + 1, problems + found, seen + dated)
  {
  }

  method CheckRelease(reader: Reader, history: seq<Release>, i: nat, seen: set<string>)
    returns (problems: seq<RecordProblem>, dated: set<string>)
    requires i < |history| && forall name :: name in seen <==> SeenBefore(history, i, name)
    ensures forall p :: p in problems <==> IsHistoryProblem(reader, history, p) && IndexOf(p) == i
    ensures dated == set name | name in Dates(history, i) && Dates(history, i)[name] != UNRELEASED
  {
    var dates := Dates(history, i);
    problems, dated := [], {};
    var rest := dates.Keys;
    while rest != {}
      invariant rest <= dates.Keys
      invariant forall p :: p in problems <==>
        IsHistoryProblem(reader, history, p) && IndexOf(p) == i && p.name !in rest
      invariant dated == set name | name in dates && name !in rest && dates[name] != UNRELEASED
      decreases rest
    {
      var name :| name in rest;
      var found := CheckName(reader, history, i, seen, name);
      problems := problems + found;
      if dates[name] != UNRELEASED { dated := dated + {name}; }
      rest := rest - {name};
    }
  }

  method CheckName(reader: Reader, history: seq<Release>, i: nat, seen: set<string>,
      name: string) returns (problems: seq<RecordProblem>)
    requires i < |history| && name in Dates(history, i)
    requires forall other :: other in seen <==> SeenBefore(history, i, other)
    ensures forall p :: p in problems <==> IsHistoryProblem(reader, history, p) && IndexOf(p) == i && p.name == name
  {
    var release := Dates(history, i)[name];
    if release == UNRELEASED { return [StillUnreleased(i, name)]; }
    if name in seen { return []; }
    if i == 0 {
      return if NotAfter(reader, release, history[0].version) then [] else [DatedAfterFirst(name)];
    }
    return if release != history[i].version then [DatedElsewhere(i, name)] else [];
  }

  // ---------------------------------------------------------------- dates that never change

  ghost predicate RecordIsClean(reader: Reader, history: seq<Release>) {
    forall p :: !IsHistoryProblem(reader, history, p)
  }

  /** Every release keeps the promises of the one before. */
  ghost predicate KeptHistory(reader: Reader, history: seq<Release>) {
    forall i: nat :: i + 1 < |history| ==> Keeps(reader, history[i].contract, history[i + 1].contract)
  }

  lemma {:induction false} DateStays(reader: Reader, history: seq<Release>, i: nat, j: nat, name: string)
    requires KeptHistory(reader, history) && i <= j < |history|
    requires forall k :: i <= k <= j ==> history[k].contract.major == history[i].contract.major
    requires name in Dates(history, i) && Dates(history, i)[name] != UNRELEASED
    ensures name in Dates(history, j) && Dates(history, j)[name] == Dates(history, i)[name]
    decreases j
  {
    if i == j {
    } else {
      DateStays(reader, history, i, j - 1, name);
      assert Keeps(reader, history[j - 1].contract, history[j - 1 + 1].contract);
      MajorsWhenKept(reader, history[j - 1].contract, history[j].contract);
      RecordWhenKept(reader, history[j - 1].contract, history[j].contract, name);
    }
  }

  /** Within a major, an exception that first appears in a later release is dated to that release for good. */
  lemma {:induction false} DatedForGood(reader: Reader, history: seq<Release>, i: nat, j: nat, name: string)
    requires RecordIsClean(reader, history) && KeptHistory(reader, history)
    requires 0 < i <= j < |history|
    requires forall k :: i <= k <= j ==> history[k].contract.major == history[i].contract.major
    requires name in Dates(history, i) && forall k: nat :: k < i ==> name !in Dates(history, k)
    ensures name in Dates(history, j) && Dates(history, j)[name] == history[i].version
  {
    assert !IsHistoryProblem(reader, history, StillUnreleased(i, name));
    assert !IsHistoryProblem(reader, history, DatedElsewhere(i, name));
    DateStays(reader, history, i, j, name);
  }

  /** One that the first release carries is dated at it or before, and keeps that date. */
  lemma {:induction false} FirstDatesStay(reader: Reader, history: seq<Release>, j: nat, name: string)
    requires RecordIsClean(reader, history) && KeptHistory(reader, history) && j < |history|
    requires forall k :: 0 <= k <= j ==> history[k].contract.major == history[0].contract.major
    requires name in Dates(history, 0)
    ensures NotAfter(reader, Dates(history, 0)[name], history[0].version)
    ensures name in Dates(history, j) && Dates(history, j)[name] == Dates(history, 0)[name]
  {
    assert !IsHistoryProblem(reader, history, StillUnreleased(0, name));
    assert !IsHistoryProblem(reader, history, DatedAfterFirst(name));
    DateStays(reader, history, 0, j, name);
  }

  function OneException(version: string, major: int, name: string, date: string): Release {
    Release(version, Contract(Some(major), map[], [Row(name, date)]))
  }

  lemma {:induction false} OneDate(name: string, date: string)
    ensures ExceptionMap([Row(name, date)]) == map[name := date]
  {
  }

  /**
   The date is held only within a major: whatever date the next major's release gives an exception already dated,
   neither check reports it.
   */
  lemma {:induction false} NextMajorMayRedate(reader: Reader, name: string, v1: string, m1: int, d1: string,
      v2: string, m2: int, d2: string)
    requires m1 < m2 && d1 != UNRELEASED && d2 != UNRELEASED && NotAfter(reader, d1, v1)
    ensures var history := [OneException(v1, m1, name, d1), OneException(v2, m2, name, d2)];
      && KeptHistory(reader, history) && RecordIsClean(reader, history)
      && Dates(history, 0) == map[name := d1] && Dates(history, 1) == map[name := d2]
  {
    var history := [OneException(v1, m1, name, d1), OneException(v2, m2, name, d2)];
    OneDate(name, d1);
    OneDate(name, d2);
    assert Dates(history, 0) == map[name := d1] && Dates(history, 1) == map[name := d2];
    forall p ensures !IsHistoryProblem(reader, history, p) {
      assert SeenBefore(history, 1, name) by { assert name in Dates(history, 0); }
    }
  }
}
