/** JSON text (RFC 8259) as trees that remember their own whitespace, and what the scanner of
    src/api/json_io.cpp computes on arbitrary text, stated on the text that is left. */
module JsonText {
  import opened Results

  // ---------------------------------------------------------------- trees

  datatype Json = Scalar(text: string) | Quoted(raw: string) | Array(items: Items) | Object(members: Members)

  datatype Items = NoItems(pad: string) | AnItem(before: string, value: Json, after: string, tail: Items)

  datatype Members =
    NoMembers(pad: string) |
    AMember(before: string, key: string, mid: string, gap: string, value: Json, after: string, tail: Members)

  function Text(v: Json): string {
    match v
    case Scalar(text) => text
    case Quoted(raw) => "\"" + (raw + "\"")
    case Array(items) => "[" + (ItemsText(items) + "]")
    case Object(members) => "{" + (MembersText(members) + "}")
  }

  function ItemsText(items: Items): string {
    match items
    case NoItems(pad) => pad
    case AnItem(before, value, after, tail) =>
      before + (Text(value) + (after + ((if tail.AnItem? then "," else "") + ItemsText(tail))))
  }

  function MembersText(members: Members): string {
    match members
    case NoMembers(pad) => pad
    case AMember(before, key, mid, gap, value, after, tail) =>
      before + ("\"" + (key + ("\"" + (mid + (":" + (gap + (Text(value) +
        (after + ((if tail.AMember? then "," else "") + MembersText(tail))))))))))
  }

  /** Whitespace of section 2 of RFC 8259. */
  predicate IsSpace(s: string) {
    forall i :: 0 <= i < |s| ==> s[i] == ' ' || s[i] == '\t' || s[i] == '\n' || s[i] == '\r'
  }

  /** Characters of numbers and of the literal names. */
  predicate ScalarChar(c: char) {
    '0' <= c <= '9' || 'a' <= c <= 'z' || 'A' <= c <= 'Z' || c == '+' || c == '-' || c == '.'
  }

  predicate IsScalar(s: string) {
    s != "" && forall i :: 0 <= i < |s| ==> ScalarChar(s[i])
  }

  /** The inside of a literal as the scanner takes it: plain characters and escaped pairs.
      Section 7 of RFC 8259 is stricter; see IsStandard. */
  predicate IsRaw(s: string) {
    s == "" ||
    (if s[0] == '\\' then |s| >= 2 && IsRaw(s[2..]) else s[0] != '\"' && IsRaw(s[1..]))
  }

  predicate WellFormed(v: Json) {
    match v
    case Scalar(text) => IsScalar(text)
    case Quoted(raw) => IsRaw(raw)
    case Array(items) => WellFormedItems(items)
    case Object(members) => WellFormedMembers(members)
  }

  predicate WellFormedItems(items: Items) {
    match items
    case NoItems(pad) => IsSpace(pad)
    case AnItem(before, value, after, tail) =>
      IsSpace(before) && WellFormed(value) && IsSpace(after) && WellFormedItems(tail)
  }

  predicate WellFormedMembers(members: Members) {
    match members
    case NoMembers(pad) => IsSpace(pad)
    case AMember(before, key, mid, gap, value, after, tail) =>
      IsSpace(before) && IsRaw(key) && IsSpace(mid) && IsSpace(gap) && WellFormed(value) && IsSpace(after) &&
      WellFormedMembers(tail)
  }

  // ---------------------------------------------------------------- blanks and strings

  /** What `skip_ws` passes over: whitespace and, on purpose, commas. */
  predicate Blank(c: char) {
    c == ' ' || c == '\t' || c == '\n' || c == '\r' || c == ','
  }

  function Trim(s: string): (t: string)
    ensures |t| <= |s|
  {
    if s != "" && Blank(s[0]) then Trim(s[1..]) else s
  }

  lemma {:induction false} TrimOver(space: string, s: string)
    requires forall i :: 0 <= i < |space| ==> Blank(space[i])
    ensures Trim(space + s) == Trim(s)
  {
    if space == "" {
      assert space + s == s;
    } else {
      assert (space + s)[1..] == space[1..] + s;
      TrimOver(space[1..], s);
    }
  }

  lemma {:induction false} TrimStops(s: string)
    requires s == "" || !Blank(s[0])
    ensures Trim(s) == s
  {
  }

  lemma {:induction false} SpaceIsBlank(space: string, s: string)
    requires IsSpace(space)
    ensures Trim(space + s) == Trim(s)
  {
    TrimOver(space, s);
  }

  /** The switch of `read_string`. */
  function Unescaped(e: char): char {
    if e == 'n' then '\n'
    else if e == 't' then '\t'
    else if e == 'r' then '\r'
    else if e == 'b' then 8 as char
    else if e == 'f' then 12 as char
    else e
  }

  datatype Read = Read(ok: bool, out: string, rest: string)

  /** The characters up to the closing quote, unescaped. */
  function ReadBody(s: string): (r: Read)
    ensures |r.rest| <= |s|
  {
    if s == "" then Read(false, "", "")
    else if s[0] == '\"' then Read(true, "", s[1..])
    else if s[0] == '\\' && |s| > 1 then
      var r := ReadBody(s[2..]); r.(out := [Unescaped(s[1])] + r.out)
    else
      var r := ReadBody(s[1..]); r.(out := [s[0]] + r.out)
  }

  function ReadQuoted(s: string): (r: Read)
    ensures |r.rest| <= |s| && (r.ok ==> |r.rest| < |s|)
  {
    var t := Trim(s);
    if t == "" || t[0] != '\"' then Read(false, "", t) else ReadBody(t[1..])
  }

  /** The text a raw literal stands for. */
  function Unescape(raw: string): string
    requires IsRaw(raw)
  {
    if raw == "" then ""
    else if raw[0] == '\\' then [Unescaped(raw[1])] + Unescape(raw[2..])
    else [raw[0]] + Unescape(raw[1..])
  }

  lemma {:induction false} ReadRaw(raw: string, rest: string)
    requires IsRaw(raw)
    ensures ReadBody(raw + ("\"" + rest)) == Read(true, Unescape(raw), rest)
    decreases |raw|
  {
    var s := raw + ("\"" + rest);
    if raw == "" {
      assert s == "\"" + rest;
    } else if raw[0] == '\\' {
      assert s[2..] == raw[2..] + ("\"" + rest);
      ReadRaw(raw[2..], rest);
    } else {
      assert s[1..] == raw[1..] + ("\"" + rest);
      ReadRaw(raw[1..], rest);
    }
  }

  /** The loop of `read_string` on what has been read and what is left. */
  ghost predicate Continues(whole: Read, out: string, left: Read) {
    whole == Read(left.ok, out + left.out, left.rest)
  }

  lemma {:induction false} ContinueBody(whole: Read, out: string, s: string)
    requires Continues(whole, out, ReadBody(s)) && s != ""
    ensures s[0] == '\"' ==> whole == Read(true, out, s[1..])
    ensures s[0] == '\\' && |s| > 1 ==> Continues(whole, out + [Unescaped(s[1])], ReadBody(s[2..]))
    ensures s[0] != '\"' && !(s[0] == '\\' && |s| > 1) ==> Continues(whole, out + [s[0]], ReadBody(s[1..]))
  {
  }

  /** A literal after any whitespace is read whole and nothing more. */
  lemma {:induction false} ReadLiteral(space: string, raw: string, rest: string)
    requires IsSpace(space) && IsRaw(raw)
    ensures ReadQuoted(space + ("\"" + (raw + ("\"" + rest)))) == Read(true, Unescape(raw), rest)
  {
    var s := "\"" + (raw + ("\"" + rest));
    SpaceIsBlank(space, s);
    TrimStops(s);
    assert s[1..] == raw + ("\"" + rest);
    ReadRaw(raw, rest);
  }

  // ---------------------------------------------------------------- escaping

  /** `escape_json`, character by character. */
  function EscapedChar(c: char): string {
    if c == '\"' then "\\\""
    else if c == '\\' then "\\\\"
    else if c == '\n' then "\\n"
    else if c == '\r' then "\\r"
    else if c == '\t' then "\\t"
    else [c]
  }

  function Escaped(s: string): string {
    if s == "" then "" else Escaped(s[..|s| - 1]) + EscapedChar(s[|s| - 1])
  }

  lemma {:induction false} RawStep(a: string)
    requires IsRaw(a) && a != ""
    ensures a[0] == '\\' ==> |a| >= 2 && IsRaw(a[2..]) && Unescape(a) == [Unescaped(a[1])] + Unescape(a[2..])
    ensures a[0] != '\\' ==> a[0] != '\"' && IsRaw(a[1..]) && Unescape(a) == [a[0]] + Unescape(a[1..])
  {
  }

  lemma {:induction false} RawBuild(c: string, a: string)
    requires IsRaw(a)
    requires (|c| == 1 && c[0] != '\\' && c[0] != '\"') || (|c| == 2 && c[0] == '\\')
    ensures IsRaw(c + a)
    ensures Unescape(c + a) == [if |c| == 1 then c[0] else Unescaped(c[1])] + Unescape(a)
  {
    assert (c + a)[|c|..] == a;
  }

  lemma {:induction false} RawConcat(a: string, b: string)
    requires IsRaw(a) && IsRaw(b)
    ensures IsRaw(a + b) && Unescape(a + b) == Unescape(a) + Unescape(b)
    decreases |a|
  {
    hide IsRaw, Unescape, Unescaped;
    if a == "" {
      assert a + b == b;
      RawNone(a);
    } else {
      RawStep(a);
      var n := if a[0] == '\\' then 2 else 1;
      RawConcat(a[n..], b);
      RawBuild(a[..n], a[n..] + b);
      assert a + b == a[..n] + (a[n..] + b);
    }
  }

  lemma {:induction false} RawNone(a: string)
    requires a == ""
    ensures IsRaw(a) && Unescape(a) == ""
  {
  }

  lemma {:induction false} CharRoundTrip(c: char)
    ensures IsRaw(EscapedChar(c)) && Unescape(EscapedChar(c)) == [c]
  {
    var e := EscapedChar(c);
    assert IsRaw(e[|e|..]) && Unescape(e[|e|..]) == "";
    if |e| == 2 {
      assert e[2..] == "";
    } else {
      assert e[1..] == "";
    }
  }

  /** Round trip: an escaped string is a literal the scanner takes, and stands for the string. */
  lemma {:induction false} EscapeRoundTrip(s: string)
    ensures IsRaw(Escaped(s)) && Unescape(Escaped(s)) == s
  {
    if s != "" {
      var init, c := s[..|s| - 1], s[|s| - 1];
      EscapeRoundTrip(init);
      CharRoundTrip(c);
      RawConcat(Escaped(init), EscapedChar(c));
    }
  }

  /** So the reader inverts the writer, for every string and whatever follows. */
  lemma {:induction false} ReadInvertsEscape(space: string, s: string, rest: string)
    requires IsSpace(space)
    ensures ReadQuoted(space + ("\"" + (Escaped(s) + ("\"" + rest)))) == Read(true, s, rest)
  {
    EscapeRoundTrip(s);
    ReadLiteral(space, Escaped(s), rest);
  }

  // ---------------------------------------------------------------- section 7 of RFC 8259

  predicate IsHex(c: char) {
    '0' <= c <= '9' || 'a' <= c <= 'f' || 'A' <= c <= 'F'
  }

  /** The characters that may follow a backslash, apart from u. */
  predicate IsShort(c: char) {
    c == '\"' || c == '\\' || c == '/' || c == 'b' || c == 'f' || c == 'n' || c == 'r' || c == 't'
  }

  /** The text starts with a backslash, u and four hexadecimal digits. */
  predicate StartsUnicode(s: string) {
    |s| >= 6 && s[0] == '\\' && s[1] == 'u' && IsHex(s[2]) && IsHex(s[3]) && IsHex(s[4]) && IsHex(s[5])
  }

  /** The inside of a string literal by section 7: no raw control character, and after a
      backslash one of eight characters or a unicode escape. */
  predicate IsStandard(s: string) {
    s == "" ||
    (if StartsUnicode(s) then IsStandard(s[6..])
     else if s[0] == '\\' then |s| >= 2 && IsShort(s[1]) && IsStandard(s[2..])
     else s[0] != '\"' && s[0] as int >= 32 && IsStandard(s[1..]))
  }

  /** A character that may stand for itself, or has a short escape the writer uses. */
  predicate Printable(c: char) {
    c as int >= 32 || c == '\n' || c == '\r' || c == '\t'
  }

  lemma {:induction false} StandardStep(c: string, a: string)
    requires (|c| == 1 && c[0] != '\\') || (|c| == 2 && c[0] == '\\' && IsShort(c[1]))
    ensures IsStandard(c + a) <==> (|c| == 1 ==> c[0] != '\"' && c[0] as int >= 32) && IsStandard(a)
  {
    assert (c + a)[|c|..] == a;
  }

  lemma {:induction false} EscapedCharStandard(c: char, a: string)
    ensures IsStandard(EscapedChar(c) + a) <==> Printable(c) && IsStandard(a)
  {
    hide IsStandard;
    StandardStep(EscapedChar(c), a);
  }

  lemma {:induction false} EscapedFront(c: char, s: string)
    ensures Escaped([c] + s) == EscapedChar(c) + Escaped(s)
    decreases |s|
  {
    hide Escaped, EscapedChar;
    var t := [c] + s;
    EscapedLast(t);
    if s == "" {
      assert t[..|t| - 1] == "";
      NothingEscaped();
    } else {
      assert t[..|t| - 1] == [c] + s[..|s| - 1];
      EscapedLast(s);
      EscapedFront(c, s[..|s| - 1]);
    }
  }

  lemma {:induction false} EscapedLast(s: string)
    requires s != ""
    ensures Escaped(s) == Escaped(s[..|s| - 1]) + EscapedChar(s[|s| - 1])
  {
    hide EscapedChar;
  }

  lemma {:induction false} NothingEscaped()
    ensures Escaped("") == ""
  {
  }

  /** The writer emits a literal of section 7 exactly when the string holds no control
      character but newline, carriage return and tab. */
  lemma {:induction false} EscapeStandardExactly(s: string)
    ensures IsStandard(Escaped(s)) <==> forall i :: 0 <= i < |s| ==> Printable(s[i])
    decreases |s|
  {
    hide EscapedChar, IsStandard, Printable;
    if s == "" {
      NothingStandard();
    } else {
      assert s == [s[0]] + s[1..];
      EscapedFront(s[0], s[1..]);
      EscapedCharStandard(s[0], Escaped(s[1..]));
      EscapeStandardExactly(s[1..]);
      assert forall i :: 1 <= i < |s| ==> s[i] == s[1..][i - 1];
      assert (forall i :: 0 <= i < |s| ==> Printable(s[i])) <==>
        Printable(s[0]) && forall i :: 0 <= i < |s[1..]| ==> Printable(s[1..][i]);
    }
  }

  lemma {:induction false} NothingStandard()
    ensures Escaped("") == "" && IsStandard("")
  {
  }

  /** So it does emit text that no standard reader accepts: the character 1 goes out raw. */
  lemma {:induction false} ControlCharacterEscapes(s: string)
    requires s == [1 as char]
    ensures Escaped(s) == s && !IsStandard(Escaped(s))
  {
    hide IsStandard, EscapedChar;
    EscapedFront(s[0], "");
    NothingStandard();
    EscapeStandardExactly(s);
    PlainEscape(s[0]);
    assert s == [s[0]] + "";
    assert !Printable(s[0]);
  }

  lemma {:induction false} PlainEscape(c: char)
    requires c as int < 8
    ensures EscapedChar(c) == [c]
  {
  }

  lemma {:induction false} StandardIsRaw(s: string)
    requires IsStandard(s)
    ensures IsRaw(s)
    decreases |s|
  {
    if s != "" {
      if StartsUnicode(s) {
        StandardIsRaw(s[6..]);
        HexIsRaw(s[2..], 4);
      } else if s[0] == '\\' {
        StandardIsRaw(s[2..]);
      } else {
        StandardIsRaw(s[1..]);
      }
    }
  }

  /** Hexadecimal digits are plain characters. */
  lemma {:induction false} HexIsRaw(s: string, n: nat)
    requires n <= |s| && (forall i :: 0 <= i < n ==> IsHex(s[i])) && IsRaw(s[n..])
    ensures IsRaw(s) && Unescape(s) == s[..n] + Unescape(s[n..])
    decreases n
  {
    hide IsRaw, Unescape;
    if n == 0 {
      assert s[0..] == s;
    } else {
      var t := s[1..];
      assert t[n - 1..] == s[n..];
      HexIsRaw(t, n - 1);
      RawBuild([s[0]], t);
      assert [s[0]] + t == s;
      assert s[..n] == [s[0]] + t[..n - 1];
    }
  }

  // ---------------------------------------------------------------- what a literal means

  /** The UTF-16 code units of a character. */
  function Units(c: char): seq<nat> {
    var v := c as int;
    if v < 0x10000 then [v] else [0xD800 + (v - 0x10000) / 0x400, 0xDC00 + (v - 0x10000) % 0x400]
  }

  function UnitsOf(s: string): seq<nat> {
    if s == "" then [] else Units(s[0]) + UnitsOf(s[1..])
  }

  function HexValue(c: char): nat
    requires IsHex(c)
  {
    if c <= '9' then c as int - '0' as int
    else if c <= 'F' then c as int - 'A' as int + 10
    else c as int - 'a' as int + 10
  }

  function UnicodeValue(s: string): nat
    requires StartsUnicode(s)
  {
    ((HexValue(s[2]) * 16 + HexValue(s[3])) * 16 + HexValue(s[4])) * 16 + HexValue(s[5])
  }

  /** The code units a literal stands for by section 7. */
  function Meaning(s: string): seq<nat>
    requires IsStandard(s)
  {
    if s == "" then []
    else if StartsUnicode(s) then [UnicodeValue(s)] + Meaning(s[6..])
    else if s[0] == '\\' then Units(Unescaped(s[1])) + Meaning(s[2..])
    else Units(s[0]) + Meaning(s[1..])
  }

  predicate HasUnicode(s: string)
    requires IsStandard(s)
  {
    s != "" &&
    (StartsUnicode(s) || (if s[0] == '\\' then HasUnicode(s[2..]) else HasUnicode(s[1..])))
  }

  lemma {:induction false} UnitsAppend(a: string, b: string)
    ensures UnitsOf(a + b) == UnitsOf(a) + UnitsOf(b)
    decreases |a|
  {
    hide Units;
    if a == "" {
      assert a + b == b;
    } else {
      assert (a + b)[1..] == a[1..] + b;
      UnitsAppend(a[1..], b);
    }
  }

  lemma {:induction false} UnitsAtLeast(s: string)
    ensures |UnitsOf(s)| >= |s|
  {
    if s != "" {
      UnitsAtLeast(s[1..]);
    }
  }

  lemma {:induction false} UnicodeRead(s: string)
    requires StartsUnicode(s) && IsRaw(s[6..])
    ensures IsRaw(s) && Unescape(s) == s[1..6] + Unescape(s[6..])
  {
    hide IsRaw, Unescape;
    var t := s[2..];
    assert t[4..] == s[6..];
    HexIsRaw(t, 4);
    RawBuild(s[..2], t);
    assert s[..2] + t == s;
    assert s[1..6] == [s[1]] + t[..4];
  }

  /** The scanner never reads fewer units than the literal means, and reads more where there
      is a unicode escape. */
  lemma {:induction false} ReadsNoFewer(s: string)
    requires IsStandard(s)
    ensures IsRaw(s) && |UnitsOf(Unescape(s))| >= |Meaning(s)|
    ensures HasUnicode(s) ==> |UnitsOf(Unescape(s))| > |Meaning(s)|
    ensures !HasUnicode(s) ==> UnitsOf(Unescape(s)) == Meaning(s)
    decreases |s|
  {
    hide Units, UnicodeValue;
    StandardIsRaw(s);
    if s != "" {
      if StartsUnicode(s) {
        ReadsNoFewer(s[6..]);
        UnicodeRead(s);
        UnitsAppend(s[1..6], Unescape(s[6..]));
        UnitsAtLeast(s[1..6]);
      } else {
        var n := if s[0] == '\\' then 2 else 1;
        ReadsNoFewer(s[n..]);
        RawStep(s);
        OneUnescaped(if n == 2 then Unescaped(s[1]) else s[0], Unescape(s[n..]));
      }
    }
  }

  lemma {:induction false} OneUnescaped(c: char, t: string)
    ensures UnitsOf([c] + t) == Units(c) + UnitsOf(t)
  {
    assert ([c] + t)[1..] == t;
  }

  /** The scanner reads a literal of section 7 as it is meant exactly when it holds no unicode
      escape. */
  lemma {:induction false} ReadStandardExactly(s: string)
    requires IsStandard(s)
    ensures IsRaw(s) && (UnitsOf(Unescape(s)) == Meaning(s) <==> !HasUnicode(s))
  {
    ReadsNoFewer(s);
  }

  lemma {:induction false} UnitsDecode(c: char, x: seq<nat>, d: char, y: seq<nat>)
    requires Units(c) + x == Units(d) + y
    ensures c == d && x == y
  {
    assert (Units(c) + x)[0] == Units(c)[0] && (Units(d) + y)[0] == Units(d)[0];
    assert |Units(c)| == |Units(d)|;
    assert (Units(c) + x)[|Units(c)|..] == x && (Units(d) + y)[|Units(d)|..] == y;
    if |Units(c)| == 2 {
      assert (Units(c) + x)[1] == Units(c)[1] && (Units(d) + y)[1] == Units(d)[1];
    }
    assert c as int == d as int;
  }

  /** Different strings have different code units. */
  lemma {:induction false} UnitsInjective(a: string, b: string)
    requires UnitsOf(a) == UnitsOf(b)
    ensures a == b
    decreases |a|
  {
    UnitsAtLeast(a);
    UnitsAtLeast(b);
    if a != "" && b != "" {
      UnitsDecode(a[0], UnitsOf(a[1..]), b[0], UnitsOf(b[1..]));
      UnitsInjective(a[1..], b[1..]);
      assert a == [a[0]] + a[1..] && b == [b[0]] + b[1..];
    }
  }

  // ---------------------------------------------------------------- values

  /** The characters that end a scalar. */
  predicate Stop(c: char) {
    c == ',' || c == '}' || c == ']' || c == '\n' || c == '\r' || c == '\t' || c == ' ' || c == 0 as char
  }

  function AfterScalar(s: string): (t: string)
    ensures |t| <= |s|
  {
    if s == "" || Stop(s[0]) then s else AfterScalar(s[1..])
  }

  /** The container loop of `skip_value`: only brackets of one kind are counted, and none
      inside strings. */
  function Skim(s: string, depth: int, inString: bool, open: char, close: char): (t: string)
    ensures |t| <= |s|
    decreases |s|
  {
    if s == "" then ""
    else if inString then
      if s[0] == '\\' && |s| > 1 then Skim(s[2..], depth, true, open, close)
      else Skim(s[1..], depth, s[0] != '\"', open, close)
    else if s[0] == '\"' then Skim(s[1..], depth, true, open, close)
    else if s[0] == open then Skim(s[1..], depth + 1, false, open, close)
    else if s[0] == close then if depth - 1 == 0 then s[1..] else Skim(s[1..], depth - 1, false, open, close)
    else Skim(s[1..], depth, false, open, close)
  }

  function CloserOf(open: char): char {
    if open == '{' then '}' else ']'
  }

  /** `skip_value`: what is left after one value. */
  function AfterValue(s: string): (t: string)
    ensures |t| <= |s|
  {
    var u := Trim(s);
    if u == "" then u
    else if u[0] == '\"' then ReadQuoted(u).rest
    else if u[0] == '{' || u[0] == '[' then Skim(u, 0, false, u[0], CloserOf(u[0]))
    else AfterScalar(u)
  }

  predicate Bracket(open: char) {
    open == '{' || open == '['
  }

  predicate Plain(s: string) {
    forall i :: 0 <= i < |s| ==>
      s[i] != '\"' && s[i] != '{' && s[i] != '}' && s[i] != '[' && s[i] != ']'
  }

  lemma {:induction false} SkimPlain(s: string, rest: string, depth: int, open: char)
    requires Plain(s) && Bracket(open)
    ensures Skim(s + rest, depth, false, open, CloserOf(open)) == Skim(rest, depth, false, open, CloserOf(open))
    decreases |s|
  {
    if s == "" {
      assert s + rest == rest;
    } else {
      assert (s + rest)[1..] == s[1..] + rest;
      SkimPlain(s[1..], rest, depth, open);
    }
  }

  lemma {:induction false} SkimRaw(raw: string, rest: string, depth: int, open: char)
    requires IsRaw(raw)
    ensures Skim(raw + ("\"" + rest), depth, true, open, CloserOf(open))
         == Skim(rest, depth, false, open, CloserOf(open))
    decreases |raw|
  {
    var s := raw + ("\"" + rest);
    if raw == "" {
      assert s[1..] == rest;
    } else if raw[0] == '\\' {
      assert s[2..] == raw[2..] + ("\"" + rest);
      SkimRaw(raw[2..], rest, depth, open);
    } else {
      assert s[1..] == raw[1..] + ("\"" + rest);
      SkimRaw(raw[1..], rest, depth, open);
    }
  }

  lemma {:induction false} SkimQuoted(raw: string, rest: string, depth: int, open: char)
    requires IsRaw(raw) && Bracket(open)
    ensures Skim("\"" + (raw + ("\"" + rest)), depth, false, open, CloserOf(open))
         == Skim(rest, depth, false, open, CloserOf(open))
  {
    var s := "\"" + (raw + ("\"" + rest));
    assert s[1..] == raw + ("\"" + rest);
    SkimRaw(raw, rest, depth, open);
  }

  /** Inside a container a whole value leaves the bracket count as it was. */
  lemma {:induction false} SkimValue(v: Json, rest: string, depth: int, open: char)
    requires WellFormed(v) && depth >= 1 && Bracket(open)
    ensures Skim(Text(v) + rest, depth, false, open, CloserOf(open)) == Skim(rest, depth, false, open, CloserOf(open))
    decreases v
  {
    match v
    case Scalar(text) =>
      SkimPlain(text, rest, depth, open);
    case Quoted(raw) =>
      assert Text(v) + rest == "\"" + (raw + ("\"" + rest));
      SkimQuoted(raw, rest, depth, open);
    case Array(items) =>
      var inner := ItemsText(items) + ("]" + rest);
      assert Text(v) + rest == "[" + inner;
      var d := if open == '[' then depth + 1 else depth;
      SkimOne('[', inner, depth, open);
      SkimItems(items, "]" + rest, d, open);
      SkimOne(']', rest, d, open);
    case Object(members) =>
      var inner := MembersText(members) + ("}" + rest);
      assert Text(v) + rest == "{" + inner;
      var d := if open == '{' then depth + 1 else depth;
      SkimOne('{', inner, depth, open);
      SkimMembers(members, "}" + rest, d, open);
      SkimOne('}', rest, d, open);
  }

  lemma {:induction false} SkimOne(c: char, rest: string, depth: int, open: char)
    requires Bracket(open) && c != '\"'
    ensures Skim([c] + rest, depth, false, open, CloserOf(open))
         == if c == CloserOf(open) && depth == 1 then rest
            else Skim(rest, if c == open then depth + 1 else if c == CloserOf(open) then depth - 1 else depth, false,
                      open, CloserOf(open))
  {
    assert ([c] + rest)[1..] == rest;
  }

  lemma {:induction false} SkimItems(items: Items, rest: string, depth: int, open: char)
    requires WellFormedItems(items) && depth >= 1 && Bracket(open)
    ensures Skim(ItemsText(items) + rest, depth, false, open, CloserOf(open))
         == Skim(rest, depth, false, open, CloserOf(open))
    decreases items
  {
    match items
    case NoItems(pad) =>
      SkimPlain(pad, rest, depth, open);
    case AnItem(before, value, after, tail) =>
      var comma := if tail.AnItem? then "," else "";
      var s3 := ItemsText(tail) + rest;
      var s2 := after + (comma + s3);
      assert ItemsText(items) + rest == before + (Text(value) + s2);
      SkimPlain(before, Text(value) + s2, depth, open);
      SkimValue(value, s2, depth, open);
      SkimPlain(after, comma + s3, depth, open);
      SkimPlain(comma, s3, depth, open);
      SkimItems(tail, rest, depth, open);
  }

  lemma {:induction false} SkimMembers(members: Members, rest: string, depth: int, open: char)
    requires WellFormedMembers(members) && depth >= 1 && Bracket(open)
    ensures Skim(MembersText(members) + rest, depth, false, open, CloserOf(open))
         == Skim(rest, depth, false, open, CloserOf(open))
    decreases members
  {
    hide Skim, Text, MembersText, IsRaw, CloserOf;
    match members
    case NoMembers(pad) =>
      PadText(pad);
      SkimPlain(pad, rest, depth, open);
    case AMember(before, key, mid, gap, value, after, tail) =>
      var comma := if tail.AMember? then "," else "";
      var s5 := MembersText(tail) + rest;
      var s4 := after + (comma + s5);
      var s3 := gap + (Text(value) + s4);
      var s2 := mid + (":" + s3);
      MemberText(members, rest);
      SkimPlain(before, "\"" + (key + ("\"" + s2)), depth, open);
      SkimQuoted(key, s2, depth, open);
      SkimPlain(mid, ":" + s3, depth, open);
      SkimPlain(":", s3, depth, open);
      SkimPlain(gap, Text(value) + s4, depth, open);
      SkimValue(value, s4, depth, open);
      SkimPlain(after, comma + s5, depth, open);
      SkimPlain(comma, s5, depth, open);
      SkimMembers(tail, rest, depth, open);
  }

  lemma {:induction false} PadText(pad: string)
    ensures MembersText(NoMembers(pad)) == pad
  {
  }

  /** The text of a first member, in the order in which it is scanned. */
  lemma {:induction false} MemberText(m: Members, rest: string)
    requires m.AMember?
    ensures MembersText(m) + rest
         == m.before + ("\"" + (m.key + ("\"" + (m.mid + (":" + (m.gap + (Text(m.value) +
              (m.after + ((if m.tail.AMember? then "," else "") + (MembersText(m.tail) + rest))))))))))
  {
    var comma := if m.tail.AMember? then "," else "";
    var t := m.after + (comma + MembersText(m.tail));
    assert t + rest == m.after + (comma + (MembersText(m.tail) + rest));
    var u := m.gap + (Text(m.value) + t);
    assert u + rest == m.gap + (Text(m.value) + (t + rest));
    var w := m.mid + (":" + u);
    assert w + rest == m.mid + (":" + (u + rest));
    var x := m.before + ("\"" + (m.key + ("\"" + w)));
    assert x + rest == m.before + ("\"" + (m.key + ("\"" + (w + rest))));
  }

  /** What may follow a scalar without running into it. */
  predicate Ends(rest: string) {
    rest == "" || Stop(rest[0])
  }

  lemma {:induction false} ScalarEnds(s: string, rest: string)
    requires (forall i :: 0 <= i < |s| ==> ScalarChar(s[i])) && Ends(rest)
    ensures AfterScalar(s + rest) == rest
    decreases |s|
  {
    if s == "" {
      assert s + rest == rest;
    } else {
      assert (s + rest)[1..] == s[1..] + rest;
      ScalarEnds(s[1..], rest);
    }
  }

  lemma {:induction false} ValueStarts(v: Json)
    requires WellFormed(v)
    ensures Text(v) != "" && !Blank(Text(v)[0]) && Text(v)[0] != '}'
    ensures v.Object? <==> Text(v)[0] == '{'
  {
  }

  /** Main result: skipping stops exactly at the end of any well-formed value. */
  lemma {:induction false} SkipStopsAtEnd(space: string, v: Json, rest: string)
    requires IsSpace(space) && WellFormed(v) && (v.Scalar? ==> Ends(rest))
    ensures Trim(space + (Text(v) + rest)) == Text(v) + rest
    ensures AfterValue(space + (Text(v) + rest)) == rest
  {
    hide Skim, ReadQuoted, AfterScalar, ItemsText, MembersText, WellFormedItems, WellFormedMembers, IsRaw, Trim;
    var u := Text(v) + rest;
    ValueStarts(v);
    assert u != "" && u[0] == Text(v)[0];
    SpaceIsBlank(space, u);
    TrimStops(u);
    match v
    case Scalar(text) =>
      ScalarEnds(text, rest);
    case Quoted(raw) =>
      assert u == "\"" + (raw + ("\"" + rest));
      ReadFromQuote(raw, rest);
    case Array(items) =>
      SkimArray(items, rest);
    case Object(members) =>
      SkimObject(members, rest);
  }

  lemma {:induction false} SkimArray(items: Items, rest: string)
    requires WellFormedItems(items)
    ensures Skim(Text(Array(items)) + rest, 0, false, '[', ']') == rest
  {
    hide Skim, ItemsText, WellFormedItems;
    var inner := ItemsText(items) + ("]" + rest);
    assert Text(Array(items)) + rest == "[" + inner;
    SkimOne('[', inner, 0, '[');
    SkimItems(items, "]" + rest, 1, '[');
    SkimOne(']', rest, 1, '[');
  }

  lemma {:induction false} SkimObject(members: Members, rest: string)
    requires WellFormedMembers(members)
    ensures Skim(Text(Object(members)) + rest, 0, false, '{', '}') == rest
  {
    hide Skim, MembersText, WellFormedMembers;
    var inner := MembersText(members) + ("}" + rest);
    assert Text(Object(members)) + rest == "{" + inner;
    SkimOne('{', inner, 0, '{');
    SkimMembers(members, "}" + rest, 1, '{');
    SkimOne('}', rest, 1, '{');
  }

  lemma {:induction false} ReadFromQuote(raw: string, rest: string)
    requires IsRaw(raw)
    ensures ReadQuoted("\"" + (raw + ("\"" + rest))) == Read(true, Unescape(raw), rest)
  {
    ReadLiteral("", raw, rest);
    assert "" + ("\"" + (raw + ("\"" + rest))) == "\"" + (raw + ("\"" + rest));
  }

  // ---------------------------------------------------------------- lookup

  /** The member loop of one level of `find_key`: the text from the value of the first member
      with this key on. */
  function FindMember(s: string, part: string): (r: Option<string>)
    ensures r.Some? ==> |r.value| < |s|
    decreases |s|
  {
    var t := Trim(s);
    if t != "" && t[0] == '}' then None
    else
      var k := ReadQuoted(t);
      if !k.ok then None
      else
        var c := Trim(k.rest);
        if c == "" || c[0] != ':' then None
        else
          var v := Trim(c[1..]);
          if k.out == part then Some(v) else FindMember(Trim(AfterValue(v)), part)
  }

  /** `find_key` on a split path: the text of the value. */
  function Find(s: string, parts: seq<string>): Option<string>
    requires parts != []
    decreases |parts|
  {
    var t := Trim(s);
    if t == "" || t[0] != '{' then None
    else
      match FindMember(t[1..], parts[0])
      case None => None
      case Some(v) =>
        if |parts| == 1 then Some(v[..|v| - |AfterValue(v)|]) else Find(v, parts[1..])
  }

  lemma {:induction false} FindFails(s: string, parts: seq<string>)
    requires parts != []
    ensures var t := Trim(s); t == "" || t[0] != '{' ==> Find(s, parts) == None
    ensures var t := Trim(s); t != "" && t[0] == '{' && FindMember(t[1..], parts[0]).None? ==> Find(s, parts) == None
  {
    hide FindMember, Trim, AfterValue;
  }

  lemma {:induction false} FindDescends(s: string, parts: seq<string>, v: string)
    requires parts != []
    requires var t := Trim(s); t != "" && t[0] == '{' && FindMember(t[1..], parts[0]) == Some(v)
    ensures Find(s, parts) == if |parts| == 1 then Some(v[..|v| - |AfterValue(v)|]) else Find(v, parts[1..])
  {
    hide FindMember, Trim, AfterValue;
  }

  /** The value of the first member with this key. */
  function Member(m: Members, part: string): Option<Json>
    requires WellFormedMembers(m)
  {
    match m
    case NoMembers(_) => None
    case AMember(_, key, _, _, value, _, tail) => if Unescape(key) == part then Some(value) else Member(tail, part)
  }

  lemma {:induction false} MemberWellFormed(m: Members, part: string)
    requires WellFormedMembers(m)
    ensures var r := Member(m, part); r.Some? ==> WellFormed(r.value) && r.value < m
    decreases m
  {
    if m.AMember? {
      MemberWellFormed(m.tail, part);
    }
  }

  /** The value a path leads to. */
  function Lookup(v: Json, parts: seq<string>): Option<Json>
    requires WellFormed(v) && parts != []
    decreases |parts|
  {
    if !v.Object? then None
    else
      MemberWellFormed(v.members, parts[0]);
      match Member(v.members, parts[0])
      case None => None
      case Some(u) => if |parts| == 1 then Some(u) else Lookup(u, parts[1..])
  }

  /** Scanning the members of an object finds the first member with the key, and the text
      found starts with its value; a scalar there is properly ended. */
  lemma {:induction false} FindMemberExact(m: Members, rest: string, part: string) returns (after: string)
    requires WellFormedMembers(m)
    ensures Member(m, part).None? ==> FindMember(MembersText(m) + ("}" + rest), part) == None
    ensures Member(m, part).Some? ==>
      FindMember(MembersText(m) + ("}" + rest), part) == Some(Text(Member(m, part).value) + after) && Ends(after)
    decreases m
  {
    hide ReadQuoted, AfterValue, Skim, Text, MembersText, IsRaw, Trim;
    var s := MembersText(m) + ("}" + rest);
    after := "";
    match m
    case NoMembers(pad) =>
      PadText(pad);
      SpaceIsBlank(pad, "}" + rest);
      TrimStops("}" + rest);
    case AMember(before, key, mid, gap, value, gone, tail) =>
      var comma := if tail.AMember? then "," else "";
      var s5 := MembersText(tail) + ("}" + rest);
      var s4 := gone + (comma + s5);
      var s3 := gap + (Text(value) + s4);
      var s2 := mid + (":" + s3);
      var s1 := "\"" + (key + ("\"" + s2));
      MemberText(m, "}" + rest);
      SpaceIsBlank(before, s1);
      TrimStops(s1);
      ReadFromQuote(key, s2);
      SpaceIsBlank(mid, ":" + s3);
      TrimStops(":" + s3);
      assert (":" + s3)[1..] == s3;
      EndsAfterValue(gone, comma, tail, rest);
      SkipStopsAtEnd(gap, value, s4);
      assert Trim(s3) == Text(value) + s4;
      if Unescape(key) == part {
        after := s4;
      } else {
        SkipStopsAtEnd("", value, s4);
        assert "" + (Text(value) + s4) == Text(value) + s4;
        SpaceIsBlank(gone, comma + s5);
        TrimOver(comma, s5);
        after := FindMemberExact(tail, rest, part);
        FindTrimmed(s5, part);
      }
  }

  lemma {:induction false} TrimTwice(s: string)
    ensures Trim(Trim(s)) == Trim(s)
  {
    if s != "" && Blank(s[0]) {
      TrimTwice(s[1..]);
    }
  }

  lemma {:induction false} FindTrimmed(s: string, part: string)
    ensures FindMember(Trim(s), part) == FindMember(s, part)
  {
    hide ReadQuoted, AfterValue, Trim;
    TrimTwice(s);
  }

  /** After a value of an object comes whitespace, a comma or a closing brace. */
  lemma {:induction false} EndsAfterValue(gone: string, comma: string, tail: Members, rest: string)
    requires IsSpace(gone) && WellFormedMembers(tail) && comma == if tail.AMember? then "," else ""
    ensures Ends(gone + (comma + (MembersText(tail) + ("}" + rest))))
  {
    var s := gone + (comma + (MembersText(tail) + ("}" + rest)));
    if gone != "" {
      assert s[0] == gone[0];
    } else if comma != "" {
      assert s[0] == ',';
    } else {
      var pad := tail.pad;
      assert s == pad + ("}" + rest);
      assert s[0] == if pad != "" then pad[0] else '}';
    }
  }

  /** Main result: on any well-formed document, with any whitespace, the scanner returns
      exactly the text of the value the path leads to when keys are read the scanner's way,
      and nothing when there is none. */
  lemma {:induction false} FindExact(space: string, v: Json, rest: string, parts: seq<string>)
    requires IsSpace(space) && WellFormed(v) && parts != [] && (v.Scalar? ==> Ends(rest))
    ensures var hit := Lookup(v, parts);
      Find(space + (Text(v) + rest), parts) == if hit.Some? then Some(Text(hit.value)) else None
    decreases |parts|
  {
    hide FindMember, AfterValue, Text, MembersText, Member;
    SkipStopsAtEnd(space, v, rest);
    ValueStarts(v);
    var u := Text(v) + rest;
    assert u[0] == Text(v)[0];
    if v.Object? {
      ObjectText(v, rest);
      MemberWellFormed(v.members, parts[0]);
      var after := FindMemberExact(v.members, rest, parts[0]);
      var m := Member(v.members, parts[0]);
      if m.Some? {
        FoundValue(m.value, after);
        if |parts| > 1 {
          FindExact("", m.value, after, parts[1..]);
          assert "" + (Text(m.value) + after) == Text(m.value) + after;
        }
      }
    }
  }

  // ---------------------------------------------------------------- lookup by the standard

  /** Every key that a path can meet is a literal of section 7. */
  predicate StandardKeys(v: Json) {
    match v
    case Object(members) => StandardMembers(members)
    case _ => true
  }

  predicate StandardMembers(m: Members) {
    match m
    case NoMembers(_) => true
    case AMember(_, key, _, _, value, _, tail) => IsStandard(key) && StandardKeys(value) && StandardMembers(tail)
  }

  /** None of them holds a unicode escape. */
  predicate PlainKeys(v: Json)
    requires StandardKeys(v)
  {
    match v
    case Object(members) => PlainMembers(members)
    case _ => true
  }

  predicate PlainMembers(m: Members)
    requires StandardMembers(m)
  {
    match m
    case NoMembers(_) => true
    case AMember(_, key, _, _, value, _, tail) => !HasUnicode(key) && PlainKeys(value) && PlainMembers(tail)
  }

  /** The value of the first member whose key means the part. */
  function StandardMember(m: Members, part: string): (r: Option<Json>)
    requires StandardMembers(m)
    ensures r.Some? ==> StandardKeys(r.value)
  {
    match m
    case NoMembers(_) => None
    case AMember(_, key, _, _, value, _, tail) =>
      if Meaning(key) == UnitsOf(part) then Some(value) else StandardMember(tail, part)
  }

  /** The value a path leads to when keys are read by section 7. */
  function StandardLookup(v: Json, parts: seq<string>): Option<Json>
    requires StandardKeys(v) && parts != []
    decreases |parts|
  {
    if !v.Object? then None
    else
      match StandardMember(v.members, parts[0])
      case None => None
      case Some(u) => if |parts| == 1 then Some(u) else StandardLookup(u, parts[1..])
  }

  lemma {:induction false} MembersAgree(m: Members, part: string)
    requires WellFormedMembers(m) && StandardMembers(m) && PlainMembers(m)
    ensures StandardMember(m, part) == Member(m, part)
    ensures Member(m, part).Some? ==> PlainKeys(Member(m, part).value)
    decreases m
  {
    hide IsRaw, IsStandard, Unescape, Meaning, HasUnicode, UnitsOf;
    if m.AMember? {
      MembersAgree(m.tail, part);
      ReadStandardExactly(m.key);
      if UnitsOf(Unescape(m.key)) == UnitsOf(part) {
        UnitsInjective(Unescape(m.key), part);
      }
    }
  }

  lemma {:induction false} LookupsAgree(v: Json, parts: seq<string>)
    requires WellFormed(v) && StandardKeys(v) && PlainKeys(v) && parts != []
    ensures StandardLookup(v, parts) == Lookup(v, parts)
    decreases |parts|
  {
    hide Member, StandardMember, WellFormedMembers, StandardMembers, PlainMembers;
    if v.Object? {
      MemberWellFormed(v.members, parts[0]);
      MembersAgree(v.members, parts[0]);
      var u := Member(v.members, parts[0]);
      if u.Some? && |parts| > 1 {
        LookupsAgree(u.value, parts[1..]);
      }
    }
  }

  /** With keys free of unicode escapes the scanner finds what the standard says. */
  lemma {:induction false} FindStandard(space: string, v: Json, rest: string, parts: seq<string>)
    requires IsSpace(space) && WellFormed(v) && parts != [] && (v.Scalar? ==> Ends(rest))
    requires StandardKeys(v) && PlainKeys(v)
    ensures var hit := StandardLookup(v, parts);
      Find(space + (Text(v) + rest), parts) == if hit.Some? then Some(Text(hit.value)) else None
  {
    hide Find, Lookup, StandardLookup, WellFormed, StandardKeys, PlainKeys;
    FindExact(space, v, rest, parts);
    LookupsAgree(v, parts);
  }

  /** A unicode escape in a key defeats the scanner: in an object whose only key writes the
      letter a as a unicode escape, the path a finds nothing. */
  lemma {:induction false} UnicodeKeyMissed(v: Json)
    requires v == Object(AMember("", "\\u0061", "", "", Scalar("1"), "", NoMembers("")))
    ensures WellFormed(v) && StandardKeys(v) && !PlainKeys(v)
    ensures StandardLookup(v, ["a"]) == Some(Scalar("1")) && Find(Text(v), ["a"]) == None
  {
    hide Find, Text;
    var key := v.members.key;
    EscapedLetter(key);
    MissedMember(v.members);
    FindExact("", v, "", ["a"]);
    assert "" + (Text(v) + "") == Text(v);
  }

  lemma {:induction false} EscapedLetter(key: string)
    requires key == "\\u0061"
    ensures IsStandard(key) && HasUnicode(key) && Meaning(key) == UnitsOf("a")
    ensures IsRaw(key) && |Unescape(key)| == 5
  {
    assert key[6..] == "";
    assert UnicodeValue(key) == 0x61;
    UnicodeRead(key);
    OneUnescaped('a', "");
  }

  lemma {:induction false} MissedMember(m: Members)
    requires m == AMember("", "\\u0061", "", "", Scalar("1"), "", NoMembers(""))
    ensures WellFormedMembers(m) && StandardMembers(m)
    ensures StandardMember(m, "a") == Some(Scalar("1")) && Member(m, "a") == None
  {
    hide IsRaw, IsStandard, Unescape, Meaning, HasUnicode, UnitsOf;
    EscapedLetter(m.key);
    assert Member(m.tail, "a") == None;
  }

  lemma {:induction false} ObjectText(v: Json, rest: string)
    requires v.Object?
    ensures (Text(v) + rest)[1..] == MembersText(v.members) + ("}" + rest)
  {
  }

  lemma {:induction false} FoundValue(v: Json, after: string)
    requires WellFormed(v) && Ends(after)
    ensures var s := Text(v) + after; s[..|s| - |AfterValue(s)|] == Text(v)
  {
    SkipStopsAtEnd("", v, after);
    assert "" + (Text(v) + after) == Text(v) + after;
  }

  // ---------------------------------------------------------------- paths

  function Split(key: string): (parts: seq<string>)
    ensures parts != []
  {
    if key == "" then [""]
    else
      var parts := Split(key[..|key| - 1]);
      var c := key[|key| - 1];
      if c == '.' then parts + [""] else parts[..|parts| - 1] + [parts[|parts| - 1] + [c]]
  }

  function Dotted(parts: seq<string>): string
    requires parts != []
  {
    if |parts| == 1 then parts[0] else Dotted(parts[..|parts| - 1]) + ("." + parts[|parts| - 1])
  }

  lemma {:induction false} SplitChar(key: string, c: char)
    requires c != '.'
    ensures var p := Split(key); Split(key + [c]) == p[..|p| - 1] + [p[|p| - 1] + [c]]
  {
    var longer := key + [c];
    assert longer[..|longer| - 1] == key;
  }

  lemma {:induction false} SplitAppend(key: string, part: string)
    requires '.' !in part
    ensures var p := Split(key); Split(key + part) == p[..|p| - 1] + [p[|p| - 1] + part]
    decreases |part|
  {
    hide Split;
    var p := Split(key);
    if part == "" {
      assert key + part == key;
      assert p[|p| - 1] + part == p[|p| - 1];
    } else {
      var init, c := part[..|part| - 1], part[|part| - 1];
      assert c in part;
      SplitAppend(key, init);
      SplitChar(key + init, c);
      assert key + part == (key + init) + [c];
      assert p[|p| - 1] + part == (p[|p| - 1] + init) + [c];
    }
  }

  lemma {:induction false} SplitDot(key: string)
    ensures Split("") == [""] && Split(key + ".") == Split(key) + [""]
  {
    var dotted := key + ".";
    assert dotted[..|dotted| - 1] == key;
  }

  lemma {:induction false} DottedStep(parts: seq<string>)
    requires parts != []
    ensures |parts| == 1 ==> Dotted(parts) == parts[0]
    ensures |parts| > 1 ==> Dotted(parts) == Dotted(parts[..|parts| - 1]) + ("." + parts[|parts| - 1])
  {
  }

  /** A path of dot-free keys joined by dots splits back into them. */
  lemma {:induction false} SplitDotted(parts: seq<string>)
    requires parts != [] && forall i :: 0 <= i < |parts| ==> '.' !in parts[i]
    ensures Split(Dotted(parts)) == parts
    decreases |parts|
  {
    hide Split, Dotted;
    var last := parts[|parts| - 1];
    DottedStep(parts);
    if |parts| == 1 {
      SplitDot("");
      SplitAppend("", last);
      assert "" + last == last;
    } else {
      var init := parts[..|parts| - 1];
      SplitDotted(init);
      SplitDot(Dotted(init));
      SplitAppend(Dotted(init) + ".", last);
      assert "" + last == last;
      assert (Dotted(init) + ".") + last == Dotted(parts);
    }
  }
}
