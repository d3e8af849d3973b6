/**
 * The JSON text the local store keeps in its `participants`, `images` and `files`
 * columns: the values that occur there (null, strings, arrays, objects), the text
 * `JSON.stringify` writes for them, and a parser that reads that text back the way
 * `JSON.parse` does. The main result is `ParseStringify`: reading back what was
 * written gives the same value.
 */
module Json {
  import opened Js

  datatype Value = Null | Str(s: string) | Arr(items: seq<Value>) | Obj(members: seq<Member>)
  datatype Member = Member(key: string, val: Value)

  function HexDigit(d: int): (c: char)
    requires 0 <= d < 16
  {
    if d < 10 then ('0' as int + d) as char else ('a' as int + d - 10) as char
  }

  function HexValue(c: char): (r: Option<int>)
    ensures r.Some? ==> 0 <= r.value < 16
  {
    if '0' <= c <= '9' then Some(c as int - '0' as int)
    else if 'a' <= c <= 'f' then Some(c as int - 'a' as int + 10)
    else if 'A' <= c <= 'F' then Some(c as int - 'A' as int + 10)
    else None
  }

  /** How `JSON.stringify` writes one character inside a string literal: the quote, the
      backslash and the control characters are escaped, everything else is written as is. */
  function EscapeChar(c: char): string {
    if c == '"' then ['\\', '"']
    else if c == '\\' then ['\\', '\\']
    else if c == '\U{8}' then ['\\', 'b']
    else if c == '\U{C}' then ['\\', 'f']
    else if c == '\n' then ['\\', 'n']
    else if c == '\r' then ['\\', 'r']
    else if c == '\t' then ['\\', 't']
    else if (c as int) < 0x20 then ['\\', 'u', '0', '0', HexDigit(c as int / 16), HexDigit(c as int % 16)]
    else [c]
  }

  function Escape(s: string): string {
    if s == [] then "" else EscapeChar(s[0]) + Escape(s[1..])
  }

  function Quote(s: string): string {
    "\"" + Escape(s) + "\""
  }

  /** `JSON.stringify(v)`: no white space between tokens, members in insertion order. */
  function Stringify(v: Value): string
    decreases v
  {
    match v
    case Null => "null"
    case Str(s) => Quote(s)
    case Arr(items) => "[" + StringifyItems(items) + "]"
    case Obj(members) => "{" + StringifyMembers(members) + "}"
  }

  function StringifyItems(items: seq<Value>): string
    decreases items
  {
    if items == [] then ""
    else if |items| == 1 then Stringify(items[0])
    else Stringify(items[0]) + "," + StringifyItems(items[1..])
  }

  function StringifyMembers(members: seq<Member>): string
    decreases members
  {
    if members == [] then ""
    else
      var first := MemberText(members[0]);
      if |members| == 1 then first else first + "," + StringifyMembers(members[1..])
  }

  function MemberText(m: Member): string {
    Quote(m.key) + ":" + Stringify(m.val)
  }

  /** The escape sequence after a backslash: the character it stands for and the text after it. */
  function Unescape(t: string): (r: Option<(char, string)>)
    ensures r.Some? ==> |r.value.1| < |t|
  {
    if t == [] then None
    else if t[0] == '"' then Some(('"', t[1..]))
    else if t[0] == '\\' then Some(('\\', t[1..]))
    else if t[0] == '/' then Some(('/', t[1..]))
    else if t[0] == 'b' then Some(('\U{8}', t[1..]))
    else if t[0] == 'f' then Some(('\U{C}', t[1..]))
    else if t[0] == 'n' then Some(('\n', t[1..]))
    else if t[0] == 'r' then Some(('\r', t[1..]))
    else if t[0] == 't' then Some(('\t', t[1..]))
    else if t[0] == 'u' && |t| >= 5 then
      match (HexValue(t[1]), HexValue(t[2]), HexValue(t[3]), HexValue(t[4]))
      case (Some(a), Some(b), Some(c), Some(d)) =>
        var n := ((a * 16 + b) * 16 + c) * 16 + d;
        if n < 0xD800 || 0xE000 <= n then Some((n as char, t[5..])) else None
      case _ => None
    else None
  }

  /** The characters of a string literal after its opening quote, up to and including the
      closing quote: the decoded string and the text after the literal. */
  function ParseChars(t: string): (r: Option<(string, string)>)
    ensures r.Some? ==> |r.value.1| < |t|
    decreases |t|
  {
    if t == [] then None
    else if t[0] == '"' then Some(("", t[1..]))
    else if t[0] == '\\' then
      match Unescape(t[1..])
      case None => None
      case Some((c, rest)) =>
        match ParseChars(rest)
        case None => None
        case Some((s, after)) => Some(([c] + s, after))
    else if (t[0] as int) < 0x20 then None
    else
      match ParseChars(t[1..])
      case None => None
      case Some((s, after)) => Some(([t[0]] + s, after))
  }

  /** One JSON value at the start of `t`, and the text after it. */
  function ParseValue(t: string): (r: Option<(Value, string)>)
    ensures r.Some? ==> |r.value.1| < |t|
    decreases |t|, 0
  {
    if t == [] then None
    else if t[0] == 'n' then
      if |t| >= 4 && t[..4] == "null" then Some((Value.Null, t[4..])) else None
    else if t[0] == '"' then
      match ParseChars(t[1..])
      case None => None
      case Some((s, rest)) => Some((Str(s), rest))
    else if t[0] == '[' then
      if |t| >= 2 && t[1] == ']' then Some((Arr([]), t[2..]))
      else
        match ParseItems(t[1..])
        case None => None
        case Some((items, rest)) => Some((Arr(items), rest))
    else if t[0] == '{' then
      if |t| >= 2 && t[1] == '}' then Some((Obj([]), t[2..]))
      else
        match ParseMembers(t[1..])
        case None => None
        case Some((members, rest)) => Some((Obj(members), rest))
    else None
  }

  /** `value (',' value)* ']'`: the elements of a non-empty array after its `[`. */
  function ParseItems(t: string): (r: Option<(seq<Value>, string)>)
    ensures r.Some? ==> |r.value.1| < |t|
    decreases |t|, 1
  {
    match ParseValue(t)
    case None => None
    case Some((v, rest)) =>
      if rest == [] then None
      else if rest[0] == ']' then Some(([v], rest[1..]))
      else if rest[0] == ',' then
        match ParseItems(rest[1..])
        case None => None
        case Some((vs, after)) => Some(([v] + vs, after))
      else None
  }

  /** `"key":value (',' "key":value)* '}'`: the members of a non-empty object after its `{`. */
  function ParseMembers(t: string): (r: Option<(seq<Member>, string)>)
    ensures r.Some? ==> |r.value.1| < |t|
    decreases |t|, 1
  {
    if t == [] || t[0] != '"' then None
    else
      match ParseChars(t[1..])
      case None => None
      case Some((key, rest)) =>
        if rest == [] || rest[0] != ':' then None
        else
          match ParseValue(rest[1..])
          case None => None
          case Some((v, rest2)) =>
            if rest2 == [] then None
            else if rest2[0] == '}' then Some(([Member(key, v)], rest2[1..]))
            else if rest2[0] == ',' then
              match ParseMembers(rest2[1..])
              case None => None
              case Some((ms, after)) => Some(([Member(key, v)] + ms, after))
            else None
  }

  /** `JSON.parse(t)`: the whole text must be one value; `None` stands for the SyntaxError it throws. */
  function Parse(t: string): Option<Value> {
    match ParseValue(t)
    case Some((v, rest)) => if rest == [] then Some(v) else None
    case None => None
  }

  /** The value of `key` in a parsed object; with a repeated key the last one wins, as in `JSON.parse`. */
  function Get(members: seq<Member>, key: string): (r: Option<Value>)
    ensures r.Some? ==> exists i :: 0 <= i < |members| && members[i] == Member(key, r.value)
    ensures r.None? ==> forall i :: 0 <= i < |members| ==> members[i].key != key
  {
    if members == [] then None
    else
      var last := members[|members| - 1];
      if last.key == key then Some(last.val) else Get(members[..|members| - 1], key)
  }

  lemma {:induction false} UnescapeEscape(c: char, tail: string)
    requires EscapeChar(c) != [c]
    ensures EscapeChar(c)[0] == '\\'
    ensures Unescape(EscapeChar(c)[1..] + tail) == Some((c, tail))
  {
    var e := EscapeChar(c);
    if (c as int) < 0x20 && c !in {'\U{8}', '\U{C}', '\n', '\r', '\t'} {
      var hi, lo := c as int / 16, c as int % 16;
      assert e[1..] + tail == ['u', '0', '0', HexDigit(hi), HexDigit(lo)] + tail;
      assert HexValue(HexDigit(hi)) == Some(hi);
      assert HexValue(HexDigit(lo)) == Some(lo);
    } else {
      assert e[1..] + tail == [e[1]] + tail;
    }
  }

  /** Decoding the escaped characters of `s` followed by the closing quote gives `s` back. */
  lemma {:induction false} CharsRoundTrip(s: string, rest: string)
    ensures ParseChars(Escape(s) + "\"" + rest) == Some((s, rest))
  {
    if s == [] {
      assert Escape(s) + "\"" + rest == ['"'] + rest;
    } else {
      var c := s[0];
      var tail := Escape(s[1..]) + "\"" + rest;
      assert Escape(s) + "\"" + rest == EscapeChar(c) + tail;
      CharsRoundTrip(s[1..], rest);
      ParseCharsStep(c, tail);
      assert [c] + s[1..] == s;
    }
  }

  /** Reading the text `JSON.stringify` writes for one character yields that character. */
  lemma {:induction false} ParseCharsStep(c: char, tail: string)
    ensures ParseChars(EscapeChar(c) + tail) ==
              match ParseChars(tail)
              case None => None
              case Some((s, after)) => Some(([c] + s, after))
  {
    var t := EscapeChar(c) + tail;
    if EscapeChar(c) == [c] {
      assert t[0] == c && t[1..] == tail;
    } else {
      UnescapeEscape(c, tail);
      assert t[1..] == EscapeChar(c)[1..] + tail;
    }
  }

  lemma {:induction false} FirstChar(v: Value)
    ensures |Stringify(v)| > 0
    ensures Stringify(v)[0] in {'n', '"', '[', '{'}
  {
  }

  /** Parsing the text of a value followed by anything yields the value and exactly that rest. */
  lemma {:induction false} RoundTrip(v: Value, rest: string)
    ensures ParseValue(Stringify(v) + rest) == Some((v, rest))
    decreases v
  {
    match v
    case Null =>
      NullRoundTrip(rest);
    case Str(s) =>
      StrRoundTrip(s, rest);
    case Arr(items) =>
      ArrText(items, rest);
      if items != [] {
        ItemsRoundTrip(items, rest);
      }
    case Obj(members) =>
      ObjText(members, rest);
      if members != [] {
        MembersRoundTrip(members, rest);
      }
  }

  lemma {:induction false} NullRoundTrip(rest: string)
    ensures ParseValue(Stringify(Value.Null) + rest) == Some((Value.Null, rest))
  {
    var t := Stringify(Value.Null) + rest;
    assert t[..4] == "null" && t[4..] == rest;
  }

  lemma {:induction false} StrRoundTrip(s: string, rest: string)
    ensures ParseValue(Stringify(Str(s)) + rest) == Some((Str(s), rest))
  {
    var t := Stringify(Str(s)) + rest;
    assert t == "\"" + (Escape(s) + "\"" + rest);
    CharsRoundTrip(s, rest);
  }

  /** The text of an array followed by `rest`: its bracket, then its elements or the closing bracket. */
  lemma {:induction false} ArrText(items: seq<Value>, rest: string)
    ensures var t := Stringify(Arr(items)) + rest;
            t[0] == '['
            && (items == [] ==> |t| >= 2 && t[1] == ']' && t[2..] == rest)
            && (items != [] ==> |t| >= 2 && t[1] != ']' && t[1..] == StringifyItems(items) + "]" + rest)
  {
    var t := Stringify(Arr(items)) + rest;
    if items == [] {
      assert t == "[]" + rest;
    } else {
      FirstChar(items[0]);
      assert t == "[" + (StringifyItems(items) + "]" + rest);
      assert t[1] == Stringify(items[0])[0];
    }
  }

  /** The text of an object followed by `rest`: its brace, then its members or the closing brace. */
  lemma {:induction false} ObjText(members: seq<Member>, rest: string)
    ensures var t := Stringify(Obj(members)) + rest;
            t[0] == '{'
            && (members == [] ==> |t| >= 2 && t[1] == '}' && t[2..] == rest)
            && (members != [] ==> |t| >= 2 && t[1] != '}' && t[1..] == StringifyMembers(members) + "}" + rest)
  {
    var t := Stringify(Obj(members)) + rest;
    if members == [] {
      assert t == "{}" + rest;
    } else {
      assert t == "{" + (StringifyMembers(members) + "}" + rest);
      assert t[1] == '"';
    }
  }

  lemma {:induction false} ItemsRoundTrip(items: seq<Value>, rest: string)
    requires items != []
    ensures ParseItems(StringifyItems(items) + "]" + rest) == Some((items, rest))
    decreases items
  {
    var v := items[0];
    var t := StringifyItems(items) + "]" + rest;
    var after := if |items| == 1 then "]" + rest else "," + StringifyItems(items[1..]) + "]" + rest;
    ItemsText(items, rest);
    RoundTrip(v, after);
    ParseItemsStep(t, v, after);
    if |items| == 1 {
      assert [v] == items;
    } else {
      ItemsRoundTrip(items[1..], rest);
      assert [v] + items[1..] == items;
    }
  }

  /** The text of an array's elements, closed by `]`, splits after its first element. */
  lemma {:induction false} ItemsText(items: seq<Value>, rest: string)
    requires items != []
    ensures |items| == 1 ==>
              (StringifyItems(items) + "]" + rest == Stringify(items[0]) + ("]" + rest))
    ensures |items| > 1 ==>
              (StringifyItems(items) + "]" + rest
               == Stringify(items[0]) + ("," + StringifyItems(items[1..]) + "]" + rest))
              && ("," + StringifyItems(items[1..]) + "]" + rest)[1..] == StringifyItems(items[1..]) + "]" + rest
  {
    if |items| > 1 {
      var first, tail := Stringify(items[0]), StringifyItems(items[1..]);
      assert StringifyItems(items) == first + "," + tail;
      assert first + "," + tail + "]" + rest == first + ("," + tail + "]" + rest);
    } else {
      assert StringifyItems(items) == Stringify(items[0]);
    }
  }

  /** One step of `ParseItems` once the first element is read. */
  lemma {:induction false} ParseItemsStep(t: string, v: Value, after: string)
    requires ParseValue(t) == Some((v, after))
    requires after != [] && after[0] in {']', ','}
    ensures after[0] == ']' ==> ParseItems(t) == Some(([v], after[1..]))
    ensures after[0] == ',' ==>
              (ParseItems(t) ==
                 match ParseItems(after[1..])
                 case None => None
                 case Some((vs, a)) => Some(([v] + vs, a)))
  {
  }

  /** The key, the colon and the value of one member read back from their text. */
  lemma {:induction false} MemberHead(m: Member, after: string)
    ensures var t := Quote(m.key) + ":" + Stringify(m.val) + after;
            var r1 := ":" + Stringify(m.val) + after;
            t[0] == '"' && ParseChars(t[1..]) == Some((m.key, r1))
            && r1[0] == ':' && ParseValue(r1[1..]) == Some((m.val, after))
  {
    var r1 := ":" + Stringify(m.val) + after;
    MemberTextSplit(m, after);
    CharsRoundTrip(m.key, r1);
    RoundTrip(m.val, after);
  }

  /** Where the key's literal and the value start inside the text of a member. */
  lemma {:induction false} MemberTextSplit(m: Member, after: string)
    ensures var t := Quote(m.key) + ":" + Stringify(m.val) + after;
            var r1 := ":" + Stringify(m.val) + after;
            t[0] == '"' && t[1..] == Escape(m.key) + "\"" + r1
            && r1[0] == ':' && r1[1..] == Stringify(m.val) + after
  {
    var sv := Stringify(m.val);
    var r1 := ":" + sv + after;
    assert Quote(m.key) + ":" + sv + after == "\"" + (Escape(m.key) + "\"" + r1);
  }

  /** One step of `ParseMembers` once the key, the colon and the value are read. */
  lemma {:induction false} ParseMembersStep(t: string, key: string, r1: string, v: Value, after: string)
    requires t != [] && t[0] == '"' && ParseChars(t[1..]) == Some((key, r1))
    requires r1 != [] && r1[0] == ':' && ParseValue(r1[1..]) == Some((v, after))
    requires after != [] && after[0] in {'}', ','}
    ensures after[0] == '}' ==> ParseMembers(t) == Some(([Member(key, v)], after[1..]))
    ensures after[0] == ',' ==>
              (ParseMembers(t) ==
                 match ParseMembers(after[1..])
                 case None => None
                 case Some((ms, a)) => Some(([Member(key, v)] + ms, a)))
  {
  }

  lemma {:induction false} Regroup(a: string, b: string, rest: string)
    ensures a + "," + b + "}" + rest == a + ("," + b + "}" + rest)
  {
  }

  /** The text of an object's members, closed by `}`, splits after its first member. */
  lemma {:induction false} MembersText(members: seq<Member>, rest: string)
    requires members != []
    ensures |members| == 1 ==>
              (StringifyMembers(members) + "}" + rest == MemberText(members[0]) + ("}" + rest))
    ensures |members| > 1 ==>
              (StringifyMembers(members) + "}" + rest
               == MemberText(members[0]) + ("," + StringifyMembers(members[1..]) + "}" + rest))
              && ("," + StringifyMembers(members[1..]) + "}" + rest)[1..] == StringifyMembers(members[1..]) + "}" + rest
  {
    if |members| > 1 {
      var first, tail := MemberText(members[0]), StringifyMembers(members[1..]);
      assert StringifyMembers(members) == first + "," + tail;
      Regroup(first, tail, rest);
    } else {
      assert StringifyMembers(members) == MemberText(members[0]);
    }
  }

  lemma {:induction false} MembersRoundTrip(members: seq<Member>, rest: string)
    requires members != []
    ensures ParseMembers(StringifyMembers(members) + "}" + rest) == Some((members, rest))
    decreases members
  {
    var m := members[0];
    var after := if |members| == 1 then "}" + rest
                 else "," + StringifyMembers(members[1..]) + "}" + rest;
    var t := StringifyMembers(members) + "}" + rest;
    MembersText(members, rest);
    MemberHead(m, after);
    ParseMembersStep(t, m.key, ":" + Stringify(m.val) + after, m.val, after);
    if |members| == 1 {
      assert [Member(m.key, m.val)] == members;
    } else {
      MembersRoundTrip(members[1..], rest);
      assert [Member(m.key, m.val)] + members[1..] == members;
    }
  }

  /** `JSON.parse(JSON.stringify(v))` is `v`. */
  lemma {:induction false} ParseStringify(v: Value)
    ensures Parse(Stringify(v)) == Some(v)
  {
    RoundTrip(v, "");
    assert Stringify(v) + "" == Stringify(v);
  }
}
