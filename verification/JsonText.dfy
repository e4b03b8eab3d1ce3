/**
 The compact ASCII JSON text that `scenario_result.py` sorts and hashes by (`json.dumps` with
 sorted keys, separators "," and ":", and `ensure_ascii`), and a proof that it is injective.
 */
module JsonText {
  import opened Ordering

  /** A JSON value; a number is its literal text, an object a map from key text to value. */
  datatype Json =
    | JNull
    | JBool(b: bool)
    | JNumber(literal: string)
    | JText(text: string)
    | JList(items: seq<Json>)
    | JObject(members: map<string, Json>)

  // ----- strings -----

  function HexDigit(n: nat): char
    requires n < 16
  {
    if n < 10 then '0' + n as char else 'a' + (n - 10) as char
  }

  function Hex4(n: nat): (s: string)
    requires n < 0x10000
    ensures |s| == 4
  {
    [HexDigit(n / 16 / 16 / 16), HexDigit(n / 16 / 16 % 16), HexDigit(n / 16 % 16), HexDigit(n % 16)]
  }

  lemma HexDigitInjective(a: nat, b: nat)
    requires a < 16 && b < 16 && HexDigit(a) == HexDigit(b)
    ensures a == b
  {
  }

  lemma Hex4Injective(a: nat, b: nat)
    requires a < 0x10000 && b < 0x10000 && Hex4(a) == Hex4(b)
    ensures a == b
  {
    hide HexDigit;
    var s := Hex4(a);
    assert s[3] == HexDigit(a % 16) && s[3] == HexDigit(b % 16);
    assert s[2] == HexDigit(a / 16 % 16) && s[2] == HexDigit(b / 16 % 16);
    assert s[1] == HexDigit(a / 16 / 16 % 16) && s[1] == HexDigit(b / 16 / 16 % 16);
    assert s[0] == HexDigit(a / 16 / 16 / 16) && s[0] == HexDigit(b / 16 / 16 / 16);
    HexDigitInjective(a / 16 / 16 / 16, b / 16 / 16 / 16);
    HexDigitInjective(a / 16 / 16 % 16, b / 16 / 16 % 16);
    HexDigitInjective(a / 16 % 16, b / 16 % 16);
    HexDigitInjective(a % 16, b % 16);
  }

  function UnicodeEscape(n: nat): (s: string)
    requires n < 0x10000
    ensures |s| == 6
  {
    "\\u" + Hex4(n)
  }

  /** The UTF-16 code units of a character. */
  function Units(c: char): (units: seq<nat>)
    ensures |units| == 1 || |units| == 2
    ensures forall u :: u in units ==> u < 0x10000
  {
    var n := c as int;
    if n < 0x10000 then [n] else [0xd800 + (n - 0x10000) / 1024, 0xdc00 + (n - 0x10000) % 1024]
  }

  lemma UnitsInjective(c: char, d: char)
    requires Units(c)[0] == Units(d)[0]
    requires |Units(c)| == 2 && |Units(d)| == 2 ==> Units(c)[1] == Units(d)[1]
    ensures c == d
  {
    var m, n := c as int, d as int;
    assert m == n;
    assert c == m as char && d == n as char;
  }

  function UnicodeEscapes(c: char): string {
    var u := Units(c);
    if |u| == 1 then UnicodeEscape(u[0]) else UnicodeEscape(u[0]) + UnicodeEscape(u[1])
  }

  /** The short escapes, and otherwise `\uXXXX` or a surrogate pair for anything not printable ASCII. */
  function EscapeChar(c: char): string {
    if c == '"' then "\\\""
    else if c == '\\' then "\\\\"
    else if c == '\n' then "\\n"
    else if c == '\r' then "\\r"
    else if c == '\t' then "\\t"
    else if c == '\U{08}' then "\\b"
    else if c == '\U{0c}' then "\\f"
    else if ' ' <= c <= '~' then [c]
    else UnicodeEscapes(c)
  }

  function Escape(s: string): string {
    if s == "" then "" else EscapeChar(s[0]) + Escape(s[1..])
  }

  /** The kind of escape is visible in the first two characters. */
  lemma EscapeShape(c: char)
    ensures EscapeChar(c) != "" && EscapeChar(c)[0] != '"'
    ensures EscapeChar(c)[0] != '\\' ==> EscapeChar(c) == [c]
    ensures EscapeChar(c)[0] == '\\' ==> |EscapeChar(c)| >= 2
    ensures EscapeChar(c)[0] == '\\' && EscapeChar(c)[1] != 'u' ==> |EscapeChar(c)| == 2
    ensures EscapeChar(c)[0] == '\\' && EscapeChar(c)[1] == 'u' ==> EscapeChar(c) == UnicodeEscapes(c)
  {
    hide Hex4, Units;
  }

  lemma TwoCharEscapesDiffer(c: char, d: char)
    requires |EscapeChar(c)| == 2 && EscapeChar(c) == EscapeChar(d)
    ensures c == d
  {
    hide Hex4, Units;
    assert EscapeChar(c)[1] == EscapeChar(d)[1];
  }

  lemma UnicodeEscapeUnique(a: nat, x: string, b: nat, y: string)
    requires a < 0x10000 && b < 0x10000 && UnicodeEscape(a) + x == UnicodeEscape(b) + y
    ensures a == b && x == y
  {
    hide Hex4;
    var s := UnicodeEscape(a) + x;
    assert s[..6] == UnicodeEscape(a) && s[..6] == UnicodeEscape(b);
    assert s[6..] == x && s[6..] == y;
    assert Hex4(a) == UnicodeEscape(a)[2..] && Hex4(b) == UnicodeEscape(b)[2..];
    Hex4Injective(a, b);
  }

  /** What stands after the first `\uXXXX` of a character. */
  function AfterFirstUnit(c: char, x: string): string {
    if |Units(c)| == 1 then x else UnicodeEscape(Units(c)[1]) + x
  }

  lemma UnitsAreSmall(c: char)
    ensures Units(c)[0] < 0x10000 && (|Units(c)| == 2 ==> Units(c)[1] < 0x10000)
  {
    assert Units(c)[0] in Units(c) && (|Units(c)| == 2 ==> Units(c)[1] in Units(c));
  }

  lemma FirstUnitSplits(c: char, x: string)
    ensures Units(c)[0] < 0x10000
    ensures UnicodeEscapes(c) + x == UnicodeEscape(Units(c)[0]) + AfterFirstUnit(c, x)
  {
    UnitsAreSmall(c);
    hide UnicodeEscape, Units;
  }

  lemma UnicodeEscapesUnique(c: char, x: string, d: char, y: string)
    requires UnicodeEscapes(c) + x == UnicodeEscapes(d) + y
    ensures c == d && x == y
  {
    FirstUnitSplits(c, x);
    FirstUnitSplits(d, y);
    UnitsAreSmall(c);
    UnitsAreSmall(d);
    hide UnicodeEscape, UnicodeEscapes, Units;
    var u, v := Units(c), Units(d);
    UnicodeEscapeUnique(u[0], AfterFirstUnit(c, x), v[0], AfterFirstUnit(d, y));
    SameWidth(c, d);
    if |u| == 2 {
      UnicodeEscapeUnique(u[1], x, v[1], y);
    }
    UnitsInjective(c, d);
  }

  /** A first unit in the surrogate range starts a pair; no whole character is in that range. */
  lemma SameWidth(c: char, d: char)
    requires Units(c)[0] == Units(d)[0]
    ensures |Units(c)| == |Units(d)|
  {
  }

  /** Escapes are prefix-free: the first one of a text is determined. */
  lemma EscapeCharUnique(c: char, x: string, d: char, y: string)
    requires EscapeChar(c) + x == EscapeChar(d) + y
    ensures c == d && x == y
  {
    EscapeShape(c);
    EscapeShape(d);
    hide EscapeChar, UnicodeEscapes;
    var s := EscapeChar(c) + x;
    assert s[0] == EscapeChar(c)[0] && s[0] == EscapeChar(d)[0];
    if s[0] != '\\' {
      assert s[1..] == x && s[1..] == y;
    } else {
      assert s[1] == EscapeChar(c)[1] && s[1] == EscapeChar(d)[1];
      if s[1] == 'u' {
        UnicodeEscapesUnique(c, x, d, y);
      } else {
        assert EscapeChar(c) == s[..2] && EscapeChar(d) == s[..2] && s[2..] == x && s[2..] == y;
        TwoCharEscapesDiffer(c, d);
      }
    }
  }

  /** The text of a string, up to its closing quote, starts with that quote only if the string is empty. */
  lemma EscapeStart(a: string, x: string)
    ensures Escape(a) + "\"" + x != ""
    ensures (Escape(a) + "\"" + x)[0] == '"' <==> a == ""
  {
    if a != "" {
      EscapeShape(a[0]);
      hide EscapeChar;
      assert Escape(a)[0] == EscapeChar(a[0])[0];
    }
  }

  /** An escaped string ends at the first bare quote. */
  lemma {:induction false} EscapeUnique(a: string, x: string, b: string, y: string)
    requires Escape(a) + "\"" + x == Escape(b) + "\"" + y
    ensures a == b && x == y
  {
    hide EscapeChar;
    var s := Escape(a) + "\"" + x;
    EscapeStart(a, x);
    EscapeStart(b, y);
    if a == "" {
      assert s[1..] == x && s[1..] == y;
    } else {
      var x', y' := Escape(a[1..]) + "\"" + x, Escape(b[1..]) + "\"" + y;
      assert s == EscapeChar(a[0]) + x' && s == EscapeChar(b[0]) + y';
      EscapeCharUnique(a[0], x', b[0], y');
      EscapeUnique(a[1..], x, b[1..], y);
      assert a == [a[0]] + a[1..] && b == [b[0]] + b[1..];
    }
  }

  function Quoted(s: string): string {
    "\"" + Escape(s) + "\""
  }

  lemma QuotedUnique(a: string, x: string, b: string, y: string)
    requires Quoted(a) + x == Quoted(b) + y
    ensures a == b && x == y
  {
    hide Escape;
    var s := Quoted(a) + x;
    assert s[1..] == Escape(a) + "\"" + x && s[1..] == Escape(b) + "\"" + y;
    EscapeUnique(a, x, b, y);
  }

  // ----- values -----

  ghost function SortedKeys(s: set<string>): seq<string> {
    if s == {} then []
    else
      var k :| k in s;
      Insert(k, SortedKeys(s - {k}), StringLe)
  }

  lemma {:induction false} SortedKeysMembers(s: set<string>)
    ensures forall k :: k in SortedKeys(s) <==> k in s
  {
    if s != {} {
      var k :| k in s && SortedKeys(s) == Insert(k, SortedKeys(s - {k}), StringLe);
      var rest := SortedKeys(s - {k});
      SortedKeysMembers(s - {k});
      InsertMultiset(k, rest, StringLe);
      forall x ensures x in SortedKeys(s) <==> x in s {
        assert x in SortedKeys(s) <==> x in multiset(SortedKeys(s));
        assert x in rest <==> x in multiset(rest);
      }
    }
  }

  /** The keys come out in increasing order, as `sort_keys` writes them. */
  lemma {:induction false} SortedKeysAreSorted(s: set<string>)
    ensures Sorted(SortedKeys(s), StringLe)
  {
    if s != {} {
      var k :| k in s && SortedKeys(s) == Insert(k, SortedKeys(s - {k}), StringLe);
      SortedKeysAreSorted(s - {k});
      StringLeIsTotalOrder();
      InsertSorted(k, SortedKeys(s - {k}), StringLe);
    }
  }

  /** Number literals start like a number and hold no structural character. */
  predicate ValidLiteral(s: string) {
    && s != "" && (s[0] == '-' || '0' <= s[0] <= '9')
    && forall c :: c in s ==> '0' <= c <= '9' || c in {'-', '+', '.', 'e', 'E'}
  }

  /** Every whole number and every such number with a minus is one. */
  lemma WholeNumbersAreLiterals(digits: string)
    requires digits != "" && forall c :: c in digits ==> 48 <= c as int < 58
    ensures ValidLiteral(digits) && ValidLiteral("-" + digits)
  {
    assert digits[0] in digits;
  }

  ghost predicate ValidJson(j: Json) {
    match j
    case JNumber(s) => ValidLiteral(s)
    case JList(items) => forall i :: 0 <= i < |items| ==> ValidJson(items[i])
    case JObject(m) => forall k :: k in m ==> ValidJson(m[k])
    case _ => true
  }

  ghost function Dumps(j: Json): string
    decreases j, 2
  {
    match j
    case JNull => "null"
    case JBool(b) => if b then "true" else "false"
    case JNumber(s) => s
    case JText(s) => Quoted(s)
    case JList(items) => "[" + (if items == [] then "]" else Dumps(items[0]) + DumpTail(items[1..]))
    case JObject(m) =>
      SortedKeysMembers(m.Keys);
      "{" + DumpMembers(j, SortedKeys(m.Keys))
  }

  /** The remaining items of a list and its closing bracket. */
  ghost function DumpTail(items: seq<Json>): string
    decreases items, 0
  {
    if items == [] then "]" else "," + Dumps(items[0]) + DumpTail(items[1..])
  }

  /** Members in key order; each is followed by "," or by the closing brace. */
  ghost function DumpMembers(j: Json, keys: seq<string>): string
    requires j.JObject? && forall k :: k in keys ==> k in j.members
    decreases j, 1, |keys|
  {
    if keys == [] then "}"
    else Quoted(keys[0]) + ":" + Dumps(j.members[keys[0]]) + Separator(keys) + DumpMembers(j, keys[1..])
  }

  /** What may follow a value inside a text: nothing, or a structural character. */
  predicate Delimited(x: string) {
    x == "" || x[0] == ',' || x[0] == ']' || x[0] == '}'
  }

  /** The first character of a value's text tells its kind, and never closes or separates. */
  lemma DumpsStart(j: Json)
    requires ValidJson(j)
    ensures Dumps(j) != ""
    ensures var c := Dumps(j)[0];
            && (c == 'n' <==> j.JNull?) && (c == 't' || c == 'f' <==> j.JBool?)
            && (c == '"' <==> j.JText?) && (c == '[' <==> j.JList?) && (c == '{' <==> j.JObject?)
            && (c == '-' || '0' <= c <= '9' <==> j.JNumber?)
            && c != ']' && c != '}' && c != ','
  {
  }

  lemma LiteralNotLonger(a: string, x: string, b: string, y: string)
    requires ValidLiteral(b) && Delimited(x) && a + x == b + y
    ensures |b| <= |a|
  {
    var s := a + x;
    assert forall i :: 0 <= i < |b| ==> s[i] == b[i] && b[i] in b;
    if x != "" {
      assert s[|a|] == x[0];
    }
  }

  lemma LiteralUnique(a: string, x: string, b: string, y: string)
    requires ValidLiteral(a) && ValidLiteral(b) && Delimited(x) && Delimited(y)
    requires a + x == b + y
    ensures a == b && x == y
  {
    LiteralNotLonger(a, x, b, y);
    LiteralNotLonger(b, y, a, x);
    var s := a + x;
    assert a == s[..|a|] && b == s[..|b|] && x == s[|a|..] && y == s[|b|..];
  }

  /** A value's text, inside any larger text, ends where it ends: the value and the rest are determined. */
  lemma {:induction false} DumpsUnique(a: Json, x: string, b: Json, y: string)
    requires ValidJson(a) && ValidJson(b) && Delimited(x) && Delimited(y)
    requires Dumps(a) + x == Dumps(b) + y
    ensures a == b && x == y
    decreases a, 3
  {
    SameKind(a, x, b, y);
    match a
    case JList(items) => ListUnique(a, x, b, y);
    case JObject(m) => ObjectUnique(a, x, b, y);
    case JNumber(v) => LiteralUnique(v, x, b.literal, y);
    case JText(v) => QuotedUnique(v, x, b.text, y);
    case _ => WordUnique(a, x, b, y);
  }

  lemma SameKind(a: Json, x: string, b: Json, y: string)
    requires ValidJson(a) && ValidJson(b)
    requires Dumps(a) + x == Dumps(b) + y
    ensures (a.JNull? <==> b.JNull?) && (a.JBool? <==> b.JBool?) && (a.JNumber? <==> b.JNumber?)
    ensures (a.JText? <==> b.JText?) && (a.JList? <==> b.JList?) && (a.JObject? <==> b.JObject?)
    ensures a.JBool? ==> a.b == b.b
  {
    DumpsStart(a);
    DumpsStart(b);
    hide Dumps, ValidJson;
    var s := Dumps(a) + x;
    assert s[0] == Dumps(a)[0] && s[0] == Dumps(b)[0];
  }

  lemma WordUnique(a: Json, x: string, b: Json, y: string)
    requires (a.JNull? && b.JNull?) || (a.JBool? && b.JBool? && a.b == b.b)
    requires Dumps(a) + x == Dumps(b) + y
    ensures a == b && x == y
  {
    var s, n := Dumps(a) + x, |Dumps(a)|;
    assert s[n..] == x && s[n..] == y;
  }

  lemma {:induction false} ListUnique(a: Json, x: string, b: Json, y: string)
    requires a.JList? && b.JList? && ValidJson(a) && ValidJson(b)
    requires Dumps(a) + x == Dumps(b) + y
    ensures a == b && x == y
    decreases a, 2
  {
    ListStart(a, x);
    ListStart(b, y);
    hide DumpTail, Dumps, ValidJson;
    if a.items != [] {
      var u, v := DumpTail(a.items[1..]) + x, DumpTail(b.items[1..]) + y;
      DropFirst(Dumps(a) + x, Dumps(a.items[0]) + u, Dumps(b.items[0]) + v, '[');
      TailIsDelimited(a.items[1..], x);
      TailIsDelimited(b.items[1..], y);
      DumpsUnique(a.items[0], u, b.items[0], v);
      TailUnique(a.items[1..], x, b.items[1..], y);
      assert a.items == [a.items[0]] + a.items[1..] && b.items == [b.items[0]] + b.items[1..];
    }
  }

  /** An empty list is told from a non-empty one by its second character. */
  lemma ListStart(a: Json, x: string)
    requires a.JList? && ValidJson(a)
    ensures |Dumps(a) + x| >= 2 && ((Dumps(a) + x)[1] == ']' <==> a.items == [])
    ensures a.items == [] ==> (Dumps(a) + x)[2..] == x
    ensures a.items != [] ==>
              ValidJson(a.items[0]) && Dumps(a) + x == "[" + (Dumps(a.items[0]) + (DumpTail(a.items[1..]) + x))
    ensures forall i :: 1 <= i < |a.items| ==> ValidJson(a.items[i])
  {
    if a.items != [] {
      var head := a.items[0];
      assert ValidJson(head);
      DumpsStart(head);
      hide DumpTail, Dumps, ValidJson;
      ListText(a);
      assert (Dumps(a) + x)[1] == Dumps(head)[0];
    }
  }

  lemma ListText(a: Json)
    requires a.JList? && a.items != []
    ensures Dumps(a) == "[" + (Dumps(a.items[0]) + DumpTail(a.items[1..]))
  {
  }

  lemma DropFirst(s: string, t: string, u: string, c: char)
    requires s == [c] + t && s == [c] + u
    ensures t == u
  {
    assert t == s[1..] && u == s[1..];
  }

  lemma TailIsDelimited(items: seq<Json>, x: string)
    ensures DumpTail(items) != "" && Delimited(DumpTail(items) + x)
    ensures DumpTail(items)[0] == ']' <==> items == []
  {
  }

  lemma {:induction false} TailUnique(a: seq<Json>, x: string, b: seq<Json>, y: string)
    requires (forall i :: 0 <= i < |a| ==> ValidJson(a[i])) && (forall i :: 0 <= i < |b| ==> ValidJson(b[i]))
    requires DumpTail(a) + x == DumpTail(b) + y
    ensures a == b && x == y
    decreases a, 0
  {
    hide Dumps, ValidJson;
    var s := DumpTail(a) + x;
    TailIsDelimited(a, x);
    TailIsDelimited(b, y);
    assert s[0] == DumpTail(a)[0] && s[0] == DumpTail(b)[0];
    if a == [] {
      assert s[1..] == x && s[1..] == y;
    } else {
      var u, v := DumpTail(a[1..]) + x, DumpTail(b[1..]) + y;
      assert s[1..] == Dumps(a[0]) + u && s[1..] == Dumps(b[0]) + v;
      TailIsDelimited(a[1..], x);
      TailIsDelimited(b[1..], y);
      DumpsUnique(a[0], u, b[0], v);
      TailUnique(a[1..], x, b[1..], y);
      assert a == [a[0]] + a[1..] && b == [b[0]] + b[1..];
    }
  }

  lemma {:induction false} ObjectUnique(a: Json, x: string, b: Json, y: string)
    requires a.JObject? && b.JObject? && ValidJson(a) && ValidJson(b)
    requires Dumps(a) + x == Dumps(b) + y
    ensures a == b && x == y
    decreases a, 2
  {
    var m, n := a.members, b.members;
    SortedKeysMembers(m.Keys);
    SortedKeysMembers(n.Keys);
    ObjectText(a, x);
    ObjectText(b, y);
    hide ValidJson, SortedKeys, DumpMembers, Dumps;
    DropFirst(Dumps(a) + x, DumpMembers(a, SortedKeys(m.Keys)) + x, DumpMembers(b, SortedKeys(n.Keys)) + y, '{');
    MembersUnique(a, SortedKeys(m.Keys), x, b, SortedKeys(n.Keys), y);
    assert m.Keys == n.Keys;
    assert m == n;
  }

  lemma ObjectText(a: Json, x: string)
    requires a.JObject? && forall k :: k in SortedKeys(a.members.Keys) ==> k in a.members
    ensures Dumps(a) + x == "{" + (DumpMembers(a, SortedKeys(a.members.Keys)) + x)
  {
    hide DumpMembers, SortedKeys;
  }

  /** A comma before the next member, nothing before the closing brace. */
  function Separator(keys: seq<string>): string {
    if |keys| == 1 then "" else ","
  }

  lemma {:induction false} MembersUnique(a: Json, ks: seq<string>, x: string, b: Json, ls: seq<string>, y: string)
    requires a.JObject? && b.JObject? && ValidJson(a) && ValidJson(b)
    requires (forall k :: k in ks ==> k in a.members) && (forall k :: k in ls ==> k in b.members)
    requires DumpMembers(a, ks) + x == DumpMembers(b, ls) + y
    ensures ks == ls && x == y
    ensures forall k :: k in ks ==> a.members[k] == b.members[k]
    decreases a, 1, |ks|
  {
    MembersStart(a, ks);
    MembersStart(b, ls);
    hide DumpMembers, ValidJson;
    var s := DumpMembers(a, ks) + x;
    assert s[0] == DumpMembers(a, ks)[0] && s[0] == DumpMembers(b, ls)[0];
    if ks == [] {
      DropFirst(s, x, y, '}');
    } else {
      MemberUnique(a, ks, x, b, ls, y);
      MembersUnique(a, ks[1..], x, b, ls[1..], y);
      assert ks == [ks[0]] + ks[1..] && ls == [ls[0]] + ls[1..];
    }
  }

  lemma MembersStart(j: Json, ks: seq<string>)
    requires j.JObject? && forall k :: k in ks ==> k in j.members
    ensures DumpMembers(j, ks) != "" && DumpMembers(j, ks)[0] == (if ks == [] then '}' else '"')
    ensures ks == [] ==> DumpMembers(j, ks) == "}"
  {
    hide Escape, Dumps;
  }

  /** The first member is determined, and what follows it. */
  lemma {:induction false} MemberUnique(a: Json, ks: seq<string>, x: string, b: Json, ls: seq<string>, y: string)
    requires a.JObject? && b.JObject? && ValidJson(a) && ValidJson(b) && ks != [] && ls != []
    requires (forall k :: k in ks ==> k in a.members) && (forall k :: k in ls ==> k in b.members)
    requires DumpMembers(a, ks) + x == DumpMembers(b, ls) + y
    ensures ks[0] == ls[0] && a.members[ks[0]] == b.members[ls[0]]
    ensures DumpMembers(a, ks[1..]) + x == DumpMembers(b, ls[1..]) + y
    decreases a, 1, |ks|, 0
  {
    var k, l := ks[0], ls[0];
    var p, q := DumpMembers(a, ks[1..]) + x, DumpMembers(b, ls[1..]) + y;
    var u, v := Separator(ks) + p, Separator(ls) + q;
    var da, db := Dumps(a.members[k]), Dumps(b.members[l]);
    MemberSplit(a, ks, x);
    MemberSplit(b, ls, y);
    assert ValidJson(a.members[k]) && ValidJson(b.members[l]);
    hide Quoted, Dumps, DumpMembers, Separator, ValidJson;
    QuotedUnique(k, ":" + (da + u), l, ":" + (db + v));
    DropFirst(":" + (da + u), da + u, db + v, ':');
    DumpsUnique(a.members[k], u, b.members[l], v);
    SeparatorUnique(ks, p, ls, q);
  }

  /** The pieces of a non-empty member list. */
  lemma MemberSplit(j: Json, ks: seq<string>, x: string)
    requires j.JObject? && ks != [] && forall k :: k in ks ==> k in j.members
    ensures var rest := DumpMembers(j, ks[1..]) + x;
            && DumpMembers(j, ks) + x == Quoted(ks[0]) + (":" + (Dumps(j.members[ks[0]]) + (Separator(ks) + rest)))
            && Delimited(Separator(ks) + rest)
            && rest != "" && rest[0] == (if |ks| == 1 then '}' else '"')
  {
    hide Quoted, Dumps;
    MembersStart(j, ks[1..]);
    var q, d, t := Quoted(ks[0]), Dumps(j.members[ks[0]]), DumpMembers(j, ks[1..]);
    assert DumpMembers(j, ks) == q + ":" + d + Separator(ks) + t;
    Regroup(q, d, Separator(ks), t, x);
  }

  lemma Regroup(q: string, d: string, sep: string, t: string, x: string)
    ensures q + ":" + d + sep + t + x == q + (":" + (d + (sep + (t + x))))
  {
  }

  lemma SeparatorUnique(ks: seq<string>, p: string, ls: seq<string>, q: string)
    requires ks != [] && ls != [] && p != "" && q != ""
    requires p[0] == (if |ks| == 1 then '}' else '"') && q[0] == (if |ls| == 1 then '}' else '"')
    requires Separator(ks) + p == Separator(ls) + q
    ensures p == q
  {
    var s := Separator(ks) + p;
    assert s[0] == (if |ks| == 1 then '}' else ',') && s[0] == (if |ls| == 1 then '}' else ',');
    var n := |Separator(ks)|;
    assert p == s[n..] && q == s[n..];
  }

  /** The text determines the value: sorting or hashing by it sorts or hashes by the value. */
  lemma DumpsInjective(a: Json, b: Json)
    requires ValidJson(a) && ValidJson(b)
    ensures Dumps(a) == Dumps(b) <==> a == b
  {
    if Dumps(a) == Dumps(b) {
      assert Dumps(a) + "" == Dumps(b) + "";
      DumpsUnique(a, "", b, "");
    }
  }

  // ----- the format -----

  lemma ShortEscapes()
    ensures EscapeChar('"') == "\\\"" && EscapeChar('\\') == "\\\\" && EscapeChar('\n') == "\\n"
    ensures EscapeChar('\r') == "\\r" && EscapeChar('\t') == "\\t"
    ensures EscapeChar('\U{08}') == "\\b" && EscapeChar('\U{0c}') == "\\f"
    ensures forall c :: ' ' <= c <= '~' && c != '"' && c != '\\' ==> EscapeChar(c) == [c]
  {
    hide UnicodeEscapes;
  }

  /** A character outside printable ASCII is its code units, each as four lower-case hexadecimal digits. */
  lemma UnicodeEscapeIs(c: char)
    requires !(' ' <= c <= '~') && c !in {'\n', '\r', '\t', '\U{08}', '\U{0c}'}
    ensures EscapeChar(c) == if c < '\U{10000}' then "\\u" + Hex4(c as int)
                             else "\\u" + Hex4(0xd800 + (c as int - 0x10000) / 0x400)
                                  + ("\\u" + Hex4(0xdc00 + (c as int - 0x10000) % 0x400))
  {
    hide Hex4;
  }

  /** The digits read back as the number. */
  lemma HexReads(n: nat)
    requires n < 0x10000
    ensures var s := Hex4(n);
            HexValue(s[0]) * 4096 + HexValue(s[1]) * 256 + HexValue(s[2]) * 16 + HexValue(s[3]) == n
  {
    HexDigitReads(n / 16 / 16 / 16);
    HexDigitReads(n / 16 / 16 % 16);
    HexDigitReads(n / 16 % 16);
    HexDigitReads(n % 16);
    hide HexDigit, HexValue;
    assert n == n / 16 * 16 + n % 16;
  }

  function HexValue(c: char): int {
    if '0' <= c <= '9' then c as int - '0' as int else c as int - 'a' as int + 10
  }

  lemma HexDigitReads(n: nat)
    requires n < 16
    ensures HexValue(HexDigit(n)) == n && ('0' <= HexDigit(n) <= '9' || 'a' <= HexDigit(n) <= 'f')
  {
  }

  /** `separator.join(parts)`. */
  function Join(parts: seq<string>, separator: string): string {
    if parts == [] then ""
    else if |parts| == 1 then parts[0]
    else parts[0] + separator + Join(parts[1..], separator)
  }

  ghost function ItemTexts(items: seq<Json>): (r: seq<string>)
    ensures |r| == |items| && forall i :: 0 <= i < |items| ==> r[i] == Dumps(items[i])
  {
    if items == [] then [] else [Dumps(items[0])] + ItemTexts(items[1..])
  }

  /** A list is its items' texts joined by commas, in brackets. */
  lemma ListIsJoined(items: seq<Json>)
    ensures Dumps(JList(items)) == "[" + Join(ItemTexts(items), ",") + "]"
  {
    if items != [] {
      TailIsJoined(items[0], items[1..]);
      assert items == [items[0]] + items[1..];
    }
  }

  lemma {:induction false} TailIsJoined(head: Json, rest: seq<Json>)
    ensures Dumps(head) + DumpTail(rest) == Join(ItemTexts([head] + rest), ",") + "]"
    decreases |rest|
  {
    hide Dumps;
    var texts := ItemTexts([head] + rest);
    assert ([head] + rest)[1..] == rest;
    if rest != [] {
      TailIsJoined(rest[0], rest[1..]);
      assert rest == [rest[0]] + rest[1..];
      assert texts[1..] == ItemTexts(rest);
      hide DumpTail, Join, ItemTexts;
      JoinStep(Dumps(head), ItemTexts(rest));
      TailStep(rest);
    }
  }

  lemma TailStep(rest: seq<Json>)
    requires rest != []
    ensures DumpTail(rest) == "," + (Dumps(rest[0]) + DumpTail(rest[1..]))
  {
    hide Dumps;
  }

  lemma JoinStep(head: string, rest: seq<string>)
    requires rest != []
    ensures Join([head] + rest, ",") == head + "," + Join(rest, ",")
  {
    assert ([head] + rest)[1..] == rest;
  }

  ghost function MemberTexts(m: map<string, Json>, keys: seq<string>): (r: seq<string>)
    requires forall k :: k in keys ==> k in m
    ensures |r| == |keys|
    ensures forall i :: 0 <= i < |keys| ==> r[i] == Quoted(keys[i]) + ":" + Dumps(m[keys[i]])
  {
    if keys == [] then [] else [Quoted(keys[0]) + ":" + Dumps(m[keys[0]])] + MemberTexts(m, keys[1..])
  }

  /** An object is its members' texts in key order, joined by commas, in braces. */
  lemma ObjectIsJoined(m: map<string, Json>)
    ensures forall k :: k in SortedKeys(m.Keys) <==> k in m
    ensures Sorted(SortedKeys(m.Keys), StringLe)
    ensures Dumps(JObject(m)) == "{" + Join(MemberTexts(m, SortedKeys(m.Keys)), ",") + "}"
  {
    SortedKeysMembers(m.Keys);
    SortedKeysAreSorted(m.Keys);
    MembersAreJoined(m, SortedKeys(m.Keys));
  }

  lemma {:induction false} MembersAreJoined(m: map<string, Json>, keys: seq<string>)
    requires forall k :: k in keys ==> k in m
    ensures DumpMembers(JObject(m), keys) == Join(MemberTexts(m, keys), ",") + "}"
  {
    hide Dumps, Quoted;
    if |keys| > 1 {
      MembersAreJoined(m, keys[1..]);
      var head := Quoted(keys[0]) + ":" + Dumps(m[keys[0]]);
      assert MemberTexts(m, keys) == [head] + MemberTexts(m, keys[1..]);
      JoinStep(head, MemberTexts(m, keys[1..]));
    } else if |keys| == 1 {
      assert keys[1..] == [];
    }
  }

  /** Each kind of value begins as JSON writes it; a text is escaped character by character between quotes. */
  lemma ScalarTexts(s: string)
    ensures Dumps(JNull) == "null" && Dumps(JBool(true)) == "true" && Dumps(JBool(false)) == "false"
    ensures Dumps(JNumber(s)) == s && Dumps(JText(s)) == "\"" + Escape(s) + "\""
  {
  }
}
