/**
 JSON values and their canonical text: keys in order, no spaces, characters as they are (src/MQTTBridge/bridge.py).
 */
module Json {
  predicate EndsWord(c: char) {
    c in "\",:[]{}"
  }

  /** What Python writes without quotes: a number, or true, false or null. */
  type Word = text: string | text != "" && forall i :: 0 <= i < |text| ==> !EndsWord(text[i]) witness "null"

  datatype Value = Bare(word: Word) | Quoted(text: string) | Items(items: seq<Value>) | Members(members: Fields)

  type Fields = map<string, Value>

  // ---------------------------------------------------------------- strings

  function HexDigit(n: nat): char
    requires n < 16
  {
    if n < 10 then ('0' as int + n) as char else ('a' as int + n - 10) as char
  }

  function EscapeChar(c: char): (text: string)
    ensures text != ""
  {
    if c == '"' then "\\\""
    else if c == '\\' then "\\\\"
    else if c == '\n' then "\\n"
    else if c == '\r' then "\\r"
    else if c == '\t' then "\\t"
    else if c as int == 8 then "\\b"
    else if c as int == 12 then "\\f"
    else if c as int < 32 then "\\u00" + [HexDigit(c as int / 16), HexDigit(c as int % 16)]
    else [c]
  }

  function Escape(text: string): (escaped: string)
    ensures |escaped| >= |text|
  {
    if text == "" then "" else Escape(text[..|text| - 1]) + EscapeChar(text[|text| - 1])
  }

  function Quote(text: string): string {
    "\"" + Escape(text) + "\""
  }

  // ---------------------------------------------------------------- keys in order

  predicate Before(a: string, b: string) {
    b != "" && (a == "" || a[0] < b[0] || (a[0] == b[0] && Before(a[1..], b[1..])))
  }

  lemma {:induction false} BeforeIsTotal(a: string, b: string)
    requires a != b
    ensures Before(a, b) || Before(b, a)
  {
    if a != "" && b != "" && a[0] == b[0] {
      assert a == [a[0]] + a[1..] && b == [b[0]] + b[1..];
      BeforeIsTotal(a[1..], b[1..]);
    }
  }

  lemma {:induction false} BeforeChains(a: string, b: string, c: string)
    requires Before(a, b) && Before(b, c)
    ensures Before(a, c)
  {
    if a != "" && a[0] == b[0] == c[0] { BeforeChains(a[1..], b[1..], c[1..]); }
  }

  ghost predicate IsFirst(keys: set<string>, first: string) {
    first in keys && forall key :: key in keys && key != first ==> Before(first, key)
  }

  lemma {:induction false} FirstExists(keys: set<string>)
    requires keys != {}
    ensures exists first :: IsFirst(keys, first)
    decreases keys
  {
    var some :| some in keys;
    if keys == {some} {
      assert IsFirst(keys, some);
    } else {
      FirstExists(keys - {some});
      var other :| IsFirst(keys - {some}, other);
      BeforeIsTotal(some, other);
      if Before(other, some) {
        assert IsFirst(keys, other);
      } else {
        forall key | key in keys && key != some && key != other ensures Before(some, key) {
          BeforeChains(some, other, key);
        }
        assert IsFirst(keys, some);
      }
    }
  }

  ghost function InOrder(keys: set<string>): (order: seq<string>)
    ensures forall key :: key in order <==> key in keys
    decreases keys
  {
    if keys == {} then []
    else
      FirstExists(keys);
      var first :| IsFirst(keys, first);
      [first] + InOrder(keys - {first})
  }

  lemma {:induction false} InOrderSplits(keys: set<string>)
    requires keys != {}
    ensures InOrder(keys) != [] && IsFirst(keys, InOrder(keys)[0])
    ensures InOrder(keys)[1..] == InOrder(keys - {InOrder(keys)[0]})
  {
    FirstExists(keys);
  }

  /** `sort_keys`: every key comes before all the later ones. */
  lemma {:induction false} InOrderRises(keys: set<string>, i: nat, j: nat)
    requires i < j < |InOrder(keys)|
    ensures Before(InOrder(keys)[i], InOrder(keys)[j])
    decreases keys
  {
    hide InOrder, Before;
    var order := InOrder(keys);
    var first := order[0];
    assert first in keys && order[j] in keys;
    InOrderSplits(keys);
    assert order[1..][j - 1] == order[j] && order[1..][j - 1] in keys - {first};
    if i == 0 {
    } else {
      assert order[1..][i - 1] == order[i];
      InOrderRises(keys - {first}, i - 1, j - 1);
    }
  }

  // ---------------------------------------------------------------- the text

  function Comma(first: bool): string {
    if first then "" else ","
  }

  /** `_encoded`. */
  ghost function Encode(v: Value): string
    decreases v
  {
    match v
    case Bare(word) => word
    case Quoted(text) => Quote(text)
    case Items(items) => "[" + EncodeItems(v, 0)
    case Members(members) => "{" + EncodeMembers(v, InOrder(members.Keys), true)
  }

  ghost function EncodeItems(v: Value, i: nat): string
    requires v.Items? && i <= |v.items|
    decreases v, |v.items| - i
  {
    if i == |v.items| then "]" else Comma(i == 0) + (Encode(v.items[i]) + EncodeItems(v, i + 1))
  }

  ghost function EncodeMembers(v: Value, keys: seq<string>, first: bool): string
    requires v.Members? && forall key :: key in keys ==> key in v.members
    decreases v, |keys|
  {
    if keys == [] then "}"
    else
      Comma(first) + (Quote(keys[0]) + (":" + (Encode(v.members[keys[0]]) + EncodeMembers(v, keys[1..], false))))
  }

  // ---------------------------------------------------------------- a text is of one value

  function CharAt(text: string, i: nat): char {
    if i < |text| then text[i] else ','
  }

  lemma {:induction false} CharOfSum(a: string, x: string, i: nat)
    ensures CharAt(a + x, i) == if i < |a| then CharAt(a, i) else CharAt(x, i - |a|)
  {
  }

  /** What may follow a value inside a text. */
  predicate Ends(rest: string) {
    EndsWord(CharAt(rest, 0))
  }

  lemma {:induction false} WordIsWhole(a: string, b: Word, x: string, y: string)
    requires a + x == b + y && Ends(x)
    ensures |b| <= |a|
  {
    CharOfSum(a, x, |a|);
    CharOfSum(b, y, |a|);
  }

  lemma {:induction false} WordSplits(a: Word, b: Word, x: string, y: string)
    requires a + x == b + y && Ends(x) && Ends(y)
    ensures a == b && x == y
  {
    WordIsWhole(a, b, x, y);
    WordIsWhole(b, a, y, x);
    SplitsAt(a, b, x, y);
  }

  lemma {:induction false} Regroup(a: string, b: string, x: string)
    ensures a + b + x == a + (b + x)
  {
  }

  lemma {:induction false} SplitsAt(a: string, b: string, x: string, y: string)
    requires a + x == b + y && |a| == |b|
    ensures a == b && x == y
  {
    assert a == (a + x)[..|a|] && x == (a + x)[|a|..];
    assert b == (b + y)[..|a|] && y == (b + y)[|a|..];
  }

  lemma {:induction false} EscapeOfFirst(text: string)
    requires text != ""
    ensures Escape(text) == EscapeChar(text[0]) + Escape(text[1..])
  {
    hide EscapeChar;
    var n := |text| - 1;
    if n == 0 {
      assert text[..n] == "" && text[1..] == "";
    } else {
      EscapeOfFirst(text[..n]);
      assert text[..n][1..] == text[1..][..n - 1] && text[1..][n - 1] == text[n];
    }
  }

  lemma {:induction false} EscapesDiffer(c: char, d: char)
    requires EscapeChar(c) == EscapeChar(d)
    ensures c == d
  {
    var a, b := EscapeChar(c), EscapeChar(d);
    assert CharAt(a, 0) == CharAt(b, 0) && CharAt(a, 1) == CharAt(b, 1);
    assert CharAt(a, 4) == CharAt(b, 4) && CharAt(a, 5) == CharAt(b, 5);
  }

  lemma {:induction false} CharSplits(c: char, d: char, x: string, y: string)
    requires EscapeChar(c) + x == EscapeChar(d) + y
    ensures c == d && x == y
  {
    var text := EscapeChar(c) + x;
    assert text[0] == EscapeChar(c)[0] == EscapeChar(d)[0];
    if |EscapeChar(c)| > 1 || |EscapeChar(d)| > 1 {
      assert text[1] == EscapeChar(c)[1] == EscapeChar(d)[1];
    }
    SplitsAt(EscapeChar(c), EscapeChar(d), x, y);
    EscapesDiffer(c, d);
  }

  lemma {:induction false} EscapeAhead(text: string, x: string)
    requires text != ""
    ensures Escape(text) + ("\"" + x) == EscapeChar(text[0]) + (Escape(text[1..]) + ("\"" + x))
    ensures CharAt(Escape(text) + ("\"" + x), 0) != '"'
  {
    EscapeOfFirst(text);
    CharOfSum(EscapeChar(text[0]), Escape(text[1..]) + ("\"" + x), 0);
  }

  /** Behind its opening quote a string ends at the first quote that is not escaped. */
  lemma {:induction false} EscapeSplits(a: string, b: string, x: string, y: string)
    requires Escape(a) + ("\"" + x) == Escape(b) + ("\"" + y)
    ensures a == b && x == y
  {
    hide EscapeChar;
    if a != "" { EscapeAhead(a, x); } else { assert Escape(a) + ("\"" + x) == "\"" + x; }
    if b != "" { EscapeAhead(b, y); } else { assert Escape(b) + ("\"" + y) == "\"" + y; }
    if a != "" && b != "" {
      CharSplits(a[0], b[0], Escape(a[1..]) + ("\"" + x), Escape(b[1..]) + ("\"" + y));
      EscapeSplits(a[1..], b[1..], x, y);
      assert a == [a[0]] + a[1..] && b == [b[0]] + b[1..];
    } else if a == b {
      SplitsAt("\"", "\"", x, y);
    }
  }

  /** A value's first character says what kind it is. */
  lemma {:induction false} EncodeBegins(v: Value, x: string)
    ensures var c := CharAt(Encode(v) + x, 0);
      && (v.Quoted? <==> c == '"') && (v.Items? <==> c == '[') && (v.Members? <==> c == '{')
      && c !in ",:]}"
  {
    CharOfSum(Encode(v), x, 0);
    match v
    case Bare(word) => assert !EndsWord(word[0]);
    case Quoted(text) =>
    case Items(items) =>
    case Members(members) =>
  }

  lemma {:induction false} QuoteAhead(text: string, x: string)
    ensures Quote(text) + x == "\"" + (Escape(text) + ("\"" + x))
  {
    hide Escape;
    Regroup("\"" + Escape(text), "\"", x);
    Regroup("\"", Escape(text), "\"" + x);
  }

  lemma {:induction false} EncodeAhead(v: Value, x: string)
    ensures match v
            case Bare(word) => Encode(v) + x == word + x
            case Quoted(text) => Encode(v) + x == "\"" + (Escape(text) + ("\"" + x))
            case Items(items) => Encode(v) + x == "[" + (EncodeItems(v, 0) + x)
            case Members(members) => Encode(v) + x == "{" + (EncodeMembers(v, InOrder(members.Keys), true) + x)
  {
    match v
    case Bare(word) =>
    case Quoted(text) => QuoteAhead(text, x);
    case Items(items) => Regroup("[", EncodeItems(v, 0), x);
    case Members(members) => Regroup("{", EncodeMembers(v, InOrder(members.Keys), true), x);
  }

  ghost function AfterItem(v: Value, i: nat, x: string): string
    requires v.Items? && i < |v.items|
  {
    Encode(v.items[i]) + (EncodeItems(v, i + 1) + x)
  }

  lemma {:induction false} ItemsAhead(v: Value, i: nat, x: string)
    requires v.Items? && i <= |v.items|
    ensures i < |v.items| ==> EncodeItems(v, i) + x == Comma(i == 0) + AfterItem(v, i, x)
    ensures i == |v.items| ==> EncodeItems(v, i) == "]"
    ensures i == |v.items| <==> CharAt(EncodeItems(v, i) + x, 0) == ']'
    ensures i > 0 ==> Ends(EncodeItems(v, i) + x)
  {
    if i < |v.items| {
      EncodeBegins(v.items[i], EncodeItems(v, i + 1) + x);
      CharOfSum(Comma(i == 0), AfterItem(v, i, x), 0);
      Regroup(Comma(i == 0), Encode(v.items[i]) + EncodeItems(v, i + 1), x);
      Regroup(Encode(v.items[i]), EncodeItems(v, i + 1), x);
    }
  }

  ghost function AfterKey(v: Value, keys: seq<string>, x: string): string
    requires v.Members? && keys != [] && forall key :: key in keys ==> key in v.members
  {
    ":" + (Encode(v.members[keys[0]]) + (EncodeMembers(v, keys[1..], false) + x))
  }

  lemma {:induction false} MembersAhead(v: Value, keys: seq<string>, first: bool, x: string)
    requires v.Members? && forall key :: key in keys ==> key in v.members
    ensures keys != [] ==>
      EncodeMembers(v, keys, first) + x == (Comma(first) + "\"") + (Escape(keys[0]) + ("\"" + AfterKey(v, keys, x)))
    ensures keys == [] ==> EncodeMembers(v, keys, first) == "}"
    ensures keys == [] <==> CharAt(EncodeMembers(v, keys, first) + x, 0) == '}'
    ensures !first ==> Ends(EncodeMembers(v, keys, first) + x)
  {
    if keys != [] {
      hide Encode, Escape;
      var value, rest := Encode(v.members[keys[0]]), EncodeMembers(v, keys[1..], false);
      Regroup(Comma(first), Quote(keys[0]) + (":" + (value + rest)), x);
      Regroup(Quote(keys[0]), ":" + (value + rest), x);
      Regroup(":", value + rest, x);
      Regroup(value, rest, x);
      QuoteAhead(keys[0], AfterKey(v, keys, x));
      Regroup(Comma(first), "\"", Escape(keys[0]) + ("\"" + AfterKey(v, keys, x)));
      CharOfSum(Comma(first) + "\"", Escape(keys[0]) + ("\"" + AfterKey(v, keys, x)), 0);
    }
  }

  /**
   Canonical JSON is read in one way only: a text, with anything that may follow it, begins with one value at most.
   */
  lemma {:induction false} EncodeSplits(a: Value, b: Value, x: string, y: string)
    requires Encode(a) + x == Encode(b) + y && Ends(x) && Ends(y)
    ensures a == b && x == y
    decreases a
  {
    hide Encode, EncodeItems, EncodeMembers, InOrder, Escape, Ends;
    EncodeBegins(a, x);
    EncodeBegins(b, y);
    EncodeAhead(a, x);
    EncodeAhead(b, y);
    match a
    case Bare(word) => WordSplits(word, b.word, x, y);
    case Quoted(text) =>
      SplitsAt("\"", "\"", Escape(text) + ("\"" + x), Escape(b.text) + ("\"" + y));
      EscapeSplits(text, b.text, x, y);
    case Items(items) =>
      SplitsAt("[", "[", EncodeItems(a, 0) + x, EncodeItems(b, 0) + y);
      ItemsSplit(a, b, 0, x, y);
    case Members(members) =>
      var order, other := InOrder(members.Keys), InOrder(b.members.Keys);
      var u, v := EncodeMembers(a, order, true) + x, EncodeMembers(b, other, true) + y;
      SplitsAt("{", "{", u, v);
      MembersSplit(a, b, order, other, true, x, y);
      assert forall key :: key in members <==> key in order;
      assert forall key :: key in b.members <==> key in order;
  }

  lemma {:induction false} ItemsSplit(a: Value, b: Value, i: nat, x: string, y: string)
    requires a.Items? && b.Items? && i <= |a.items| && i <= |b.items| && a.items[..i] == b.items[..i]
    requires EncodeItems(a, i) + x == EncodeItems(b, i) + y
    ensures a == b && x == y
    decreases a, |a.items| - i
  {
    hide Encode, EncodeItems, Ends, CharAt;
    ItemsAhead(a, i, x);
    ItemsAhead(b, i, y);
    if i < |a.items| {
      SplitsAt(Comma(i == 0), Comma(i == 0), AfterItem(a, i, x), AfterItem(b, i, y));
      ItemsAhead(a, i + 1, x);
      ItemsAhead(b, i + 1, y);
      EncodeSplits(a.items[i], b.items[i], EncodeItems(a, i + 1) + x, EncodeItems(b, i + 1) + y);
      ItemsSplit(a, b, i + 1, x, y);
    } else {
      SplitsAt("]", "]", x, y);
    }
  }

  lemma {:induction false} MembersSplit(a: Value, b: Value, keys: seq<string>, others: seq<string>, first: bool,
      x: string, y: string)
    requires a.Members? && b.Members?
    requires (forall key :: key in keys ==> key in a.members) && forall key :: key in others ==> key in b.members
    requires EncodeMembers(a, keys, first) + x == EncodeMembers(b, others, first) + y
    ensures keys == others && x == y && forall key :: key in keys ==> a.members[key] == b.members[key]
    decreases a, |keys|
  {
    hide Encode, EncodeMembers, Escape, Ends, CharAt;
    MembersAhead(a, keys, first, x);
    MembersAhead(b, others, first, y);
    if keys != [] {
      var quote := Comma(first) + "\"";
      SplitsAt(quote, quote, Escape(keys[0]) + ("\"" + AfterKey(a, keys, x)),
               Escape(others[0]) + ("\"" + AfterKey(b, others, y)));
      EscapeSplits(keys[0], others[0], AfterKey(a, keys, x), AfterKey(b, others, y));
      var u, v := EncodeMembers(a, keys[1..], false) + x, EncodeMembers(b, others[1..], false) + y;
      SplitsAt(":", ":", Encode(a.members[keys[0]]) + u, Encode(b.members[keys[0]]) + v);
      MembersAhead(a, keys[1..], false, x);
      MembersAhead(b, others[1..], false, y);
      EncodeSplits(a.members[keys[0]], b.members[keys[0]], u, v);
      MembersSplit(a, b, keys[1..], others[1..], false, x, y);
      assert keys == [keys[0]] + keys[1..] && others == [keys[0]] + others[1..];
    } else {
      SplitsAt("}", "}", x, y);
    }
  }

  /** Two values never share a text, and no text is empty. */
  lemma {:induction false} EncodeDiffers(a: Value, b: Value)
    ensures Encode(a) != "" && (Encode(a) == Encode(b) ==> a == b)
  {
    EncodeBegins(a, "");
    if Encode(a) == Encode(b) { EncodeSplits(a, b, "", ""); }
  }

  // ---------------------------------------------------------------- how long a small object is

  lemma {:induction false} EscapeIsBounded(text: string)
    ensures |Escape(text)| <= 6 * |text|
  {
    if text == "" {
    } else {
      EscapeIsBounded(text[..|text| - 1]);
    }
  }

  /** An object of one member. */
  lemma {:induction false} OneMemberIsBounded(key: string, value: Value)
    ensures |Encode(Members(map[key := value]))| <= |Encode(value)| + 6 * |key| + 5
  {
    var v := Members(map[key := value]);
    var keys := v.members.Keys;
    assert keys == {key} && keys - {key} == {};
    InOrderSplits(keys);
    assert InOrder(keys) == [key] + InOrder({});
    assert v.members[key] == value;
    EscapeIsBounded(key);
    hide Escape, InOrder;
    assert [key][1..] == [];
    assert |EncodeMembers(v, [key], true)| == |Quote(key)| + 1 + |Encode(value)| + 1;
  }

  // ---------------------------------------------------------------- reading a string back

  function HexValue(c: char): nat {
    if '0' <= c <= '9' then c as int - '0' as int
    else if 'a' <= c <= 'f' then c as int - 'a' as int + 10
    else if 'A' <= c <= 'F' then c as int - 'A' as int + 10
    else 0
  }

  /** What a string's text stands for, as section 7 of RFC 8259 reads it; an unknown escape is its letter. */
  function Unescape(text: string): string {
    if text == "" then ""
    else if text[0] != '\\' || |text| == 1 then [text[0]] + Unescape(text[1..])
    else if text[1] == 'u' && |text| >= 6 then
      var code := ((HexValue(text[2]) * 16 + HexValue(text[3])) * 16 + HexValue(text[4])) * 16 + HexValue(text[5]);
      [if code < 0xD800 then code as char else '?'] + Unescape(text[6..])
    else
      var c := text[1];
      [if c == 'b' then 8 as char else if c == 'f' then 12 as char else if c == 'n' then 10 as char
       else if c == 'r' then 13 as char else if c == 't' then 9 as char else c] + Unescape(text[2..])
  }

  lemma {:induction false} EscapedShape(c: char)
    ensures c as int < 32 && c != '\n' && c != '\r' && c != '\t' && c as int != 8 && c as int != 12 ==>
      EscapeChar(c) == "\\u00" + [HexDigit(c as int / 16), HexDigit(c as int % 16)]
    ensures forall d :: d in EscapeChar(c) ==> d as int >= 32
  {
  }

  /** Nothing below the space is written raw. */
  lemma {:induction false} EscapeIsClean(text: string)
    ensures forall d :: d in Escape(text) ==> d as int >= 32
  {
    if text == "" {
    } else {
      EscapeIsClean(text[..|text| - 1]);
      EscapedShape(text[|text| - 1]);
    }
  }

  lemma {:induction false} UnescapePlain(c: char, rest: string)
    requires c != '\\'
    ensures Unescape([c] + rest) == [c] + Unescape(rest)
  {
    assert ([c] + rest)[1..] == rest;
  }

  lemma {:induction false} UnescapeLetter(letter: char, rest: string)
    requires letter != 'u'
    ensures Unescape(['\\', letter] + rest) ==
            [if letter == 'b' then 8 as char else if letter == 'f' then 12 as char else if letter == 'n' then 10 as char
             else if letter == 'r' then 13 as char else if letter == 't' then 9 as char else letter] + Unescape(rest)
  {
    assert (['\\', letter] + rest)[2..] == rest;
  }

  lemma {:induction false} UnescapeCode(n: nat, rest: string)
    requires n < 32
    ensures Unescape("\\u00" + [HexDigit(n / 16), HexDigit(n % 16)] + rest) == [n as char] + Unescape(rest)
  {
    var text := "\\u00" + [HexDigit(n / 16), HexDigit(n % 16)] + rest;
    assert text[6..] == rest;
    assert text[0] == '\\' && text[1] == 'u' && text[2] == '0' && text[3] == '0';
    assert text[4] == HexDigit(n / 16) && text[5] == HexDigit(n % 16);
    HexReads(n / 16);
    HexReads(n % 16);
  }

  lemma {:induction false} HexReads(n: nat)
    requires n < 16
    ensures HexValue(HexDigit(n)) == n
  {
  }

  lemma {:induction false} UnescapeFirst(c: char, rest: string)
    ensures Unescape(EscapeChar(c) + rest) == [c] + Unescape(rest)
  {
    hide Unescape;
    if EscapeChar(c) == [c] && c != '\\' {
      UnescapePlain(c, rest);
    } else if |EscapeChar(c)| == 2 {
      UnescapeLetter(EscapeChar(c)[1], rest);
      assert EscapeChar(c) == ['\\', EscapeChar(c)[1]];
    } else {
      UnescapeCode(c as int, rest);
    }
  }

  /** A string is read back as it was. */
  lemma {:induction false} EscapeReads(text: string)
    ensures Unescape(Escape(text)) == text
  {
    if text == "" {
    } else {
      EscapeOfFirst(text);
      UnescapeFirst(text[0], Escape(text[1..]));
      EscapeReads(text[1..]);
    }
  }
}
