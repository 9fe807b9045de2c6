/** What is reported between two contracts, said of what the contracts write (tools/check-contract.py). */
module ContractLaws {
  import opened Options
  import opened Contract

  predicate IsLabel(part: string) {
    || part == "state_topics" || part == "commands" || part == "info_members" || part == "info_wol_members"
    || part == "info_build_members" || part == "info_menu_members" || part == "info_list_members"
    || part == "settings" || part == "capabilities" || part == "other_topics"
  }

  /** The part writes this of the name: a name in a list stands for itself, an entry for its value. */
  ghost predicate Says(c: Contract, part: string, name: string, value: Value) {
    && part in c.parts
    && match c.parts[part]
       case Names(names) => name in names && value == Plain("null")
       case Mapping(entries) => name in entries && value == entries[name]
       case Missing => false
  }

  ghost predicate Mentions(c: Contract, part: string, name: string) {
    exists value :: Says(c, part, name, value)
  }

  /** The last row with this name gives it this date. */
  ghost predicate Dated(rows: seq<Row>, name: string, release: string) {
    exists k :: 0 <= k < |rows| && rows[k] == Row(name, release)
      && forall j :: k < j < |rows| && rows[j].Row? ==> rows[j].name != name
  }

  ghost predicate Recorded(rows: seq<Row>, name: string) {
    exists release :: Dated(rows, name, release)
  }

  predicate IsEnum(reader: Reader, value: Value) {
    value.Fields? && "type" in value.fields && reader.choices(value.fields["type"]).Some?
  }

  /** The same, key by key: but for `since`, and but for `type` when both are enumerations. */
  ghost predicate Same(reader: Reader, was: Value, now: Value) {
    if was.Fields? && now.Fields? then
      forall key :: key != "since" && !(key == "type" && IsEnum(reader, was) && IsEnum(reader, now)) ==>
        (key in was.fields <==> key in now.fields) && (key in was.fields ==> was.fields[key] == now.fields[key])
    else was == now
  }

  ghost predicate Loses(reader: Reader, was: Value, now: Value, choice: string) {
    && IsEnum(reader, was) && IsEnum(reader, now)
    && choice in reader.choices(was.fields["type"]).value && choice !in reader.choices(now.fields["type"]).value
  }

  lemma {:induction false} LabelsAre(part: string)
    ensures part in LABELS <==> IsLabel(part)
  {
    assert LABELS[0] == "state_topics" && LABELS[1] == "commands" && LABELS[2] == "info_members";
    assert LABELS[3] == "info_wol_members" && LABELS[4] == "info_build_members" && LABELS[5] == "info_menu_members";
    assert LABELS[6] == "info_list_members" && LABELS[7] == "settings" && LABELS[8] == "capabilities";
    assert LABELS[9] == "other_topics" && |LABELS| == 10;
  }

  lemma {:induction false} PartSays(c: Contract, part: string, name: string, value: Value)
    ensures name in PartOf(c, part) && PartOf(c, part)[name] == value <==> Says(c, part, name, value)
    ensures name in PartOf(c, part) <==> Mentions(c, part, name)
  {
    if name in PartOf(c, part) { assert Says(c, part, name, PartOf(c, part)[name]); }
  }

  lemma {:induction false} RowDates(rows: seq<Row>, name: string)
    ensures forall release ::
      name in ExceptionMap(rows) && ExceptionMap(rows)[name] == release <==> Dated(rows, name, release)
  {
    if rows == [] {
    } else {
      var n := |rows| - 1;
      RowDates(rows[..n], name);
      forall release ensures Dated(rows, name, release) <==>
        if rows[n].Row? && rows[n].name == name then rows[n].release == release else Dated(rows[..n], name, release)
      {
        LastRow(rows, name, release);
      }
    }
  }

  lemma {:induction false} RecordedIs(rows: seq<Row>, name: string)
    ensures name in ExceptionMap(rows) <==> Recorded(rows, name)
    ensures name in ExceptionMap(rows) ==> Dated(rows, name, ExceptionMap(rows)[name])
    ensures forall release :: Dated(rows, name, release) ==>
      name in ExceptionMap(rows) && ExceptionMap(rows)[name] == release
  {
    RowDates(rows, name);
    hide Dated;
    if name in ExceptionMap(rows) { assert Dated(rows, name, ExceptionMap(rows)[name]); }
  }

  lemma {:induction false} LastRow(rows: seq<Row>, name: string, release: string)
    requires rows != []
    ensures var n := |rows| - 1;
      Dated(rows, name, release) <==>
      if rows[n].Row? && rows[n].name == name then rows[n].release == release else Dated(rows[..n], name, release)
  {
    var n := |rows| - 1;
    assert forall k :: 0 <= k < n ==> rows[..n][k] == rows[k];
    if rows[n] == Row(name, release) { assert rows[n] == Row(name, release); }
    if Dated(rows[..n], name, release) && !(rows[n].Row? && rows[n].name == name) {
      var k :| 0 <= k < n && rows[..n][k] == Row(name, release)
        && forall j :: k < j < n && rows[..n][j].Row? ==> rows[..n][j].name != name;
      assert rows[k] == Row(name, release);
    }
  }

  lemma {:induction false} SameExactly(reader: Reader, was: Value, now: Value)
    ensures Compared(reader, was, now) == Compared(reader, now, was) <==> Same(reader, was, now)
  {
    if was.Fields? && now.Fields? {
      var left := if BothEnums(reader, was, now) then {"type", "since"} else {"since"};
      var a, b := was.fields - left, now.fields - left;
      assert forall key :: key in a <==> key in was.fields && key !in left;
      assert forall key :: key in b <==> key in now.fields && key !in left;
      if Same(reader, was, now) { assert a == b; }
      if a == b {
        forall key | key !in left
          ensures key in was.fields <==> key in now.fields
          ensures key in was.fields ==> was.fields[key] == now.fields[key]
        {
          assert key in a <==> key in b;
          if key in a { assert a[key] == b[key]; }
        }
      }
    }
  }

  // ---------------------------------------------------------------- the dates

  /** Version `a` is a later one than `b`. */
  predicate IsLater(a: (nat, nat, nat), b: (nat, nat, nat)) {
    if a.0 != b.0 then a.0 > b.0 else if a.1 != b.1 then a.1 > b.1 else a.2 > b.2
  }

  /** A date given now is right: none yet, or the version that ships it, later than the previous release. */
  predicate RightDate(reader: Reader, release: string, previous: Option<string>, current: Option<string>) {
    || release == "unreleased"
    || (&& reader.versionKey(release).Some?
        && (current.Some? ==> release == current.value)
        && (previous.Some? && reader.versionKey(previous.value).Some? ==>
              IsLater(reader.versionKey(release).value, reader.versionKey(previous.value).value)))
  }

  lemma {:induction false} DateExactly(reader: Reader, release: string, previous: Option<string>,
      current: Option<string>)
    ensures DateProblem(reader, release, previous, current) <==> !RightDate(reader, release, previous, current)
  {
  }

  // ---------------------------------------------------------------- what is reported

  ghost predicate PartReported(reader: Reader, older: Contract, newer: Contract, p: Problem) {
    match p
    case Removed(part, name) => IsLabel(part) && Mentions(older, part, name) && !Mentions(newer, part, name)
    case LostChoice(part, name, choice) =>
      IsLabel(part) && exists was, now ::
        Says(older, part, name, was) && Says(newer, part, name, now) && Loses(reader, was, now, choice)
    case Changed(part, name) =>
      IsLabel(part) && exists was, now ::
        Says(older, part, name, was) && Says(newer, part, name, now) && !Same(reader, was, now)
    case _ => false
  }

  ghost predicate RecordReported(reader: Reader, older: seq<Row>, newer: seq<Row>, previous: Option<string>,
      current: Option<string>, p: Problem) {
    match p
    case DroppedException(name) => Recorded(older, name) && !Recorded(newer, name)
    case Redated(name) =>
      exists was, now :: Dated(older, name, was) && Dated(newer, name, now) && was != "unreleased" && was != now
    case BadDate(name) =>
      && (Recorded(older, name) ==> Dated(older, name, "unreleased"))
      && exists now :: Dated(newer, name, now) && !RightDate(reader, now, previous, current)
    case _ => false
  }

  lemma {:induction false} PartExactly(reader: Reader, older: Contract, newer: Contract, p: Problem)
    ensures IsPartProblem(reader, older, newer, p) <==> PartReported(reader, older, newer, p)
  {
    if p.Removed? || p.LostChoice? || p.Changed? {
      hide LABELS, PartOf, Says, Mentions, Same, Compared;
      LabelsAre(p.part);
      var before, after := PartOf(older, p.part), PartOf(newer, p.part);
      forall value
        ensures p.name in before && before[p.name] == value <==> Says(older, p.part, p.name, value)
        ensures p.name in after && after[p.name] == value <==> Says(newer, p.part, p.name, value)
      {
        PartSays(older, p.part, p.name, value);
        PartSays(newer, p.part, p.name, value);
      }
      PartSays(older, p.part, p.name, Plain(""));
      PartSays(newer, p.part, p.name, Plain(""));
      if p.name in PartOf(older, p.part) && p.name in PartOf(newer, p.part) {
        var was, now := PartOf(older, p.part)[p.name], PartOf(newer, p.part)[p.name];
        SameExactly(reader, was, now);
        assert Says(older, p.part, p.name, was) && Says(newer, p.part, p.name, now);
      }
    }
  }

  lemma {:induction false} RecordExactly(reader: Reader, older: seq<Row>, newer: seq<Row>, previous: Option<string>,
      current: Option<string>, p: Problem)
    ensures IsRecordProblem(reader, ExceptionMap(older), ExceptionMap(newer), previous, current, p) <==>
      RecordReported(reader, older, newer, previous, current, p)
  {
    hide ExceptionMap, Dated, Recorded, RightDate, DateProblem;
    if p.DroppedException? || p.Redated? || p.BadDate? {
      RecordedIs(older, p.name);
      RecordedIs(newer, p.name);
      if p.name in ExceptionMap(newer) { DateExactly(reader, ExceptionMap(newer)[p.name], previous, current); }
    }
  }

  /** What `compare` reports, exactly, of what the two contracts write. */
  lemma {:induction false} ReportedExactly(reader: Reader, older: Contract, newer: Contract, previous: Option<string>,
      current: Option<string>, p: Problem)
    ensures IsProblem(reader, older, newer, previous, current, p) <==>
      if older.major.None? || newer.major.None? then p == NoMajor
      else if newer.major.value < older.major.value then p == MajorWentDown
      else
        && newer.major == older.major
        && (PartReported(reader, older, newer, p)
            || RecordReported(reader, older.exceptions, newer.exceptions, previous, current, p))
  {
    hide PartReported, RecordReported, IsPartProblem, IsRecordProblem;
    PartExactly(reader, older, newer, p);
    RecordExactly(reader, older.exceptions, newer.exceptions, previous, current, p);
  }

  // ---------------------------------------------------------------- the record over releases

  /** Release `i` dates the exception. */
  ghost predicate DatesIt(history: seq<Release>, i: nat, name: string, release: string)
    requires i < |history|
  {
    Dated(history[i].contract.exceptions, name, release)
  }

  /** No earlier release gives the exception a date. */
  ghost predicate FirstDated(history: seq<Release>, i: nat, name: string)
    requires i <= |history|
  {
    forall k: nat, release :: k < i && DatesIt(history, k, name, release) ==> release == "unreleased"
  }

  /**
   What `check_record` reports: a release that still says unreleased; in the first release a date that is no version or
   after it; later, a first date that is not the release's own.
   */
  ghost predicate HistoryReported(reader: Reader, history: seq<Release>, p: RecordProblem) {
    match p
    case StillUnreleased(i, name) => i < |history| && DatesIt(history, i, name, "unreleased")
    case DatedAfterFirst(name) =>
      && history != []
      && exists release ::
           && DatesIt(history, 0, name, release) && release != "unreleased"
           && (reader.versionKey(release).None? || reader.versionKey(history[0].version).None?
               || IsLater(reader.versionKey(release).value, reader.versionKey(history[0].version).value))
    case DatedElsewhere(i, name) =>
      && 0 < i < |history| && FirstDated(history, i, name)
      && exists release ::
           DatesIt(history, i, name, release) && release != "unreleased" && release != history[i].version
  }

  lemma {:induction false} DatesAre(history: seq<Release>, i: nat, name: string)
    requires i < |history|
    ensures name in Dates(history, i) ==> DatesIt(history, i, name, Dates(history, i)[name])
    ensures forall release :: DatesIt(history, i, name, release) ==>
      name in Dates(history, i) && Dates(history, i)[name] == release
  {
    RecordedIs(history[i].contract.exceptions, name);
  }

  lemma {:induction false} SeenExactly(history: seq<Release>, i: nat, name: string)
    requires i <= |history|
    ensures SeenBefore(history, i, name) <==> !FirstDated(history, i, name)
  {
    hide Dates, DatesIt;
    if SeenBefore(history, i, name) {
      var k: nat :| k < i && name in Dates(history, k) && Dates(history, k)[name] != UNRELEASED;
      DatesAre(history, k, name);
    }
    if !FirstDated(history, i, name) {
      var k: nat, release :| k < i && DatesIt(history, k, name, release) && release != "unreleased";
      DatesAre(history, k, name);
    }
  }

  lemma {:induction false} HistoryExactly(reader: Reader, history: seq<Release>, p: RecordProblem)
    ensures IsHistoryProblem(reader, history, p) <==> HistoryReported(reader, history, p)
  {
    hide Dates, DatesIt, SeenBefore, FirstDated;
    match p
    case StillUnreleased(i, name) => if i < |history| { DatesAre(history, i, name); }
    case DatedAfterFirst(name) => if history != [] { DatesAre(history, 0, name); }
    case DatedElsewhere(i, name) =>
      if i < |history| {
        DatesAre(history, i, name);
        SeenExactly(history, i, name);
      }
  }
}
