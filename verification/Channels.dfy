/** The slug of each bouquet's own topic (src/MQTTBridge/channels.py, `topic_slugs`). */
module Channels {
  import opened Decimal

  function Numbered(slug: string, number: nat): string {
    slug + "_" + Digits(number)
  }

  /** Two numbers behind one slug never make the same text. */
  lemma {:induction false} NumbersDiffer(slug: string, a: nat, b: nat)
    requires Numbered(slug, a) == Numbered(slug, b)
    ensures a == b
  {
    assert Numbered(slug, a)[|slug| + 1..] == Digits(a);
    assert Numbered(slug, b)[|slug| + 1..] == Digits(b);
    DigitsDiffer(a, b);
  }

  /** The numbered slugs of `slug` from 2 up to, not including, `number`. */
  function Tried(slug: string, number: nat): (r: set<string>)
    requires number >= 2
    ensures forall text :: text in r <==> exists n: nat :: 2 <= n < number && text == Numbered(slug, n)
  {
    if number == 2 then {} else Tried(slug, number - 1) + {Numbered(slug, number - 1)}
  }

  lemma {:induction false} TriedIsNew(slug: string, number: nat)
    requires number >= 2
    ensures Numbered(slug, number) !in Tried(slug, number)
  {
    if Numbered(slug, number) in Tried(slug, number) {
      var n: nat :| 2 <= n < number && Numbered(slug, number) == Numbered(slug, n);
      NumbersDiffer(slug, number, n);
    }
  }

  /** `number` is the least from 2 whose text is free. */
  ghost predicate LeastFree(slug: string, taken: set<string>, number: nat) {
    && number >= 2 && Numbered(slug, number) !in taken
    && forall n: nat :: 2 <= n < number ==> Numbered(slug, n) in taken
  }

  /** Every text tried is a member of the finite `taken`, and no two are the same: the search ends. */
  method FirstFree(slug: string, taken: set<string>) returns (number: nat)
    ensures LeastFree(slug, taken, number)
  {
    number := 2;
    while Numbered(slug, number) in taken
      invariant number >= 2 && Tried(slug, number) <= taken
      decreases taken - Tried(slug, number)
    {
      TriedIsNew(slug, number);
      number := number + 1;
    }
    forall n: nat | 2 <= n < number ensures Numbered(slug, n) in taken {
      assert Numbered(slug, n) in Tried(slug, number);
    }
  }

  // ---------------------------------------------------------------- what is given out

  /** The slugs that names have of themselves, where they have one. */
  function Natural(natural: seq<string>): set<string> {
    set slug | slug in natural && slug != ""
  }

  /** An earlier bouquet has this name's own slug, or was given it. */
  ghost predicate Repeated(natural: seq<string>, slugs: seq<string>, i: nat)
    requires i < |natural| && i <= |slugs|
  {
    natural[i] != "" && natural[i] in slugs[..i]
  }

  /**
   What each bouquet is given, the ones before it being given: its own
   slug, or the least number not taken behind it.
   */
  ghost predicate GivenAt(natural: seq<string>, slugs: seq<string>, i: nat)
    requires i < |natural| && i < |slugs|
  {
    if Repeated(natural, slugs, i)
    then
      exists number ::
        && LeastFree(natural[i], Natural(natural) + Natural(slugs[..i]), number)
        && slugs[i] == Numbered(natural[i], number)
    else slugs[i] == natural[i]
  }

  method TopicSlugs(names: seq<string>, slugify: string -> string) returns (slugs: seq<string>)
    ensures |slugs| == |names| && Given(Slugified(names, slugify), slugs)
  {
    var natural := Slugified(names, slugify);
    var taken := Natural(natural);
    var seen: set<string> := {};
    slugs := [];
    var i := 0;
    while i < |natural|
      invariant 0 <= i <= |natural| && |slugs| == i
      invariant taken == Natural(natural) + Natural(slugs)
      invariant forall text :: text in seen <==> text in slugs
      invariant forall k :: 0 <= k < i ==> GivenAt(natural, slugs, k)
    {
      var slug := natural[i];
      ghost var before := slugs;
      assert before[..i] == before;
      if slug != "" && slug in seen {
        var number := FirstFree(slug, taken);
        slug := Numbered(slug, number);
        taken := taken + {slug};
      }
      seen := seen + {slug};
      slugs := slugs + [slug];
      EarlierStay(natural, before, slug);
      TakenGrows(natural, before, slug, natural[i]);
      i := i + 1;
    }
  }

  function Slugified(names: seq<string>, slugify: string -> string): (r: seq<string>)
    ensures |r| == |names|
  {
    seq(|names|, i requires 0 <= i < |names| => slugify(names[i]))
  }

  lemma {:induction false} EarlierStay(natural: seq<string>, before: seq<string>, slug: string)
    requires |before| < |natural| && forall k :: 0 <= k < |before| ==> GivenAt(natural, before, k)
    ensures forall k :: 0 <= k < |before| ==> GivenAt(natural, before + [slug], k)
    ensures (before + [slug])[..|before|] == before
  {
    forall k | 0 <= k < |before| ensures GivenAt(natural, before + [slug], k) {
      assert GivenAt(natural, before, k);
      assert (before + [slug])[..k] == before[..k] && (before + [slug])[k] == before[k];
    }
  }

  lemma {:induction false} TakenGrows(natural: seq<string>, before: seq<string>, slug: string, own: string)
    requires own in natural
    ensures Natural(natural) + Natural(before + [slug]) ==
      if slug == own then Natural(natural) + Natural(before)
      else Natural(natural) + Natural(before) + if slug == "" then {} else {slug}
  {
  }

  // ---------------------------------------------------------------- what it is for

  /** The slugs given to `natural`. */
  ghost predicate Given(natural: seq<string>, slugs: seq<string>) {
    |slugs| == |natural| && forall i :: 0 <= i < |natural| ==> GivenAt(natural, slugs, i)
  }

  lemma {:induction false} NumberedIsFresh(natural: seq<string>, slugs: seq<string>, i: nat)
    requires Given(natural, slugs) && i < |natural| && slugs[i] != natural[i]
    ensures Repeated(natural, slugs, i) && slugs[i] !in natural && slugs[i] !in slugs[..i] && slugs[i] != ""
  {
    assert GivenAt(natural, slugs, i);
    var number :| LeastFree(natural[i], Natural(natural) + Natural(slugs[..i]), number)
      && slugs[i] == Numbered(natural[i], number);
    assert |slugs[i]| > 0;
  }

  /** No two bouquets share a topic. */
  lemma {:induction false} SlugsAreDistinct(natural: seq<string>, slugs: seq<string>, i: nat, j: nat)
    requires Given(natural, slugs) && i < j < |natural| && slugs[j] != ""
    ensures slugs[i] != slugs[j]
  {
    assert slugs[i] == slugs[..j][i];
    if slugs[j] == natural[j] {
      assert GivenAt(natural, slugs, j);
      if Repeated(natural, slugs, j) { OwnIsNotNumbered(natural, slugs, j); }
    } else {
      NumberedIsFresh(natural, slugs, j);
    }
  }

  /** A bouquet whose own slug an earlier one has is given another. */
  lemma {:induction false} OwnIsNotNumbered(natural: seq<string>, slugs: seq<string>, j: nat)
    requires Given(natural, slugs) && j < |natural| && Repeated(natural, slugs, j)
    ensures slugs[j] != natural[j]
  {
    assert GivenAt(natural, slugs, j);
    var number :| LeastFree(natural[j], Natural(natural) + Natural(slugs[..j]), number)
      && slugs[j] == Numbered(natural[j], number);
    assert |slugs[j]| > |natural[j]|;
  }

  /** The first bouquet of a slug keeps it, and only names that leave nothing get the empty one. */
  lemma {:induction false} FirstKeepsItsSlug(natural: seq<string>, slugs: seq<string>, i: nat)
    requires Given(natural, slugs) && i < |natural|
    ensures slugs[i] == natural[i] <==> natural[i] == "" || natural[i] !in natural[..i]
    ensures slugs[i] == "" <==> natural[i] == ""
  {
    assert GivenAt(natural, slugs, i);
    if Repeated(natural, slugs, i) {
      OwnIsNotNumbered(natural, slugs, i);
      NumberedIsFresh(natural, slugs, i);
    }
    if natural[i] != "" && natural[i] in slugs[..i] {
      var k := EarliestHolder(natural, slugs, i);
      assert natural[..i][k] == natural[i];
    }
    if natural[i] != "" && natural[i] in natural[..i] {
      var k :| 0 <= k < i && natural[k] == natural[i];
      FirstHolds(natural, slugs, k, i);
    }
  }

  /** A slug that is some bouquet's own was never given out with a number: whoever has it, owns it. */
  lemma {:induction false} EarliestHolder(natural: seq<string>, slugs: seq<string>, i: nat) returns (k: nat)
    requires Given(natural, slugs) && i < |natural| && natural[i] in slugs[..i]
    ensures k < i && slugs[k] == natural[k] == natural[i]
  {
    k :| 0 <= k < i && slugs[..i][k] == natural[i];
    if slugs[k] != natural[k] { NumberedIsFresh(natural, slugs, k); }
  }

  /** Once a bouquet of some slug is passed, somebody has been given it. */
  lemma {:induction false} FirstHolds(natural: seq<string>, slugs: seq<string>, k: nat, i: nat)
    requires Given(natural, slugs) && k < i < |natural| && natural[k] == natural[i] != ""
    ensures natural[i] in slugs[..i]
  {
    assert GivenAt(natural, slugs, k);
    assert slugs[k] == slugs[..i][k];
    if Repeated(natural, slugs, k) {
      var m :| 0 <= m < k && slugs[..k][m] == natural[k];
      assert slugs[..i][m] == natural[i];
    }
  }

  /** A slug given out with a number is no bouquet's own slug, wherever that bouquet stands in the list. */
  lemma {:induction false} NumbersLeaveOwnSlugs(natural: seq<string>, slugs: seq<string>, i: nat, j: nat)
    requires Given(natural, slugs) && i < |natural| && j < |natural| && slugs[i] != natural[i]
    ensures slugs[i] != natural[j]
  {
    NumberedIsFresh(natural, slugs, i);
  }

  // ---------------------------------------------------------------- in the words of the names

  /** Some bouquet's own slug, or a slug given to one before bouquet `i`. */
  ghost predicate Used(natural: seq<string>, slugs: seq<string>, i: nat, text: string)
    requires i <= |slugs|
  {
    text != "" && ((exists k :: 0 <= k < |natural| && natural[k] == text) || exists k :: 0 <= k < i && slugs[k] == text)
  }

  lemma {:induction false} UsedIs(natural: seq<string>, slugs: seq<string>, i: nat, text: string)
    requires i <= |slugs|
    ensures text in Natural(natural) + Natural(slugs[..i]) <==> Used(natural, slugs, i, text)
  {
    assert forall k :: 0 <= k < i ==> slugs[..i][k] == slugs[k];
  }

  /** Bouquet `i` has its slug with this number behind it: the least from 2 that makes a text nobody uses. */
  ghost predicate NumberedAs(natural: seq<string>, slugs: seq<string>, i: nat, number: nat)
    requires i < |natural| && i < |slugs|
  {
    && number >= 2 && slugs[i] == natural[i] + "_" + Digits(number)
    && !Used(natural, slugs, i, natural[i] + "_" + Digits(number))
    && forall n: nat :: 2 <= n < number ==> Used(natural, slugs, i, natural[i] + "_" + Digits(n))
  }

  lemma {:induction false} NumberedExactly(natural: seq<string>, slugs: seq<string>, i: nat, number: nat)
    requires i < |natural| && i < |slugs|
    ensures NumberedAs(natural, slugs, i, number) <==>
      LeastFree(natural[i], Natural(natural) + Natural(slugs[..i]), number) && slugs[i] == Numbered(natural[i], number)
  {
    hide Used, Natural;
    var slug, taken := natural[i], Natural(natural) + Natural(slugs[..i]);
    forall n: nat ensures Numbered(slug, n) in taken <==> Used(natural, slugs, i, slug + "_" + Digits(n)) {
      UsedIs(natural, slugs, i, Numbered(slug, n));
    }
  }

  /** A bouquet whose slug was not given to an earlier one keeps it; any other gets a number behind it. */
  lemma {:induction false} GivenExactly(natural: seq<string>, slugs: seq<string>, i: nat)
    requires i < |natural| && i < |slugs|
    ensures GivenAt(natural, slugs, i) <==>
      if natural[i] != "" && exists k :: 0 <= k < i && slugs[k] == natural[i]
      then exists number: nat :: NumberedAs(natural, slugs, i, number)
      else slugs[i] == natural[i]
  {
    assert forall k :: 0 <= k < i ==> slugs[..i][k] == slugs[k];
    hide NumberedAs, LeastFree, Natural;
    forall number: nat ensures NumberedAs(natural, slugs, i, number) <==>
      LeastFree(natural[i], Natural(natural) + Natural(slugs[..i]), number) && slugs[i] == Numbered(natural[i], number)
    {
      NumberedExactly(natural, slugs, i, number);
    }
  }

  lemma {:induction false} SlugOfName(names: seq<string>, slugify: string -> string, i: nat)
    requires i < |names|
    ensures Slugified(names, slugify)[i] == slugify(names[i])
  {
  }
}
