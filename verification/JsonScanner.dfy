/** The hand-written scanner (src/api/json_io.cpp) and the escaper (src/api/artifact_writer.cpp). */
module JsonScanner {
  import opened JsonText
  import opened Results

  /** A position in a text that only moves forward. */
  class Cursor {
    const text: string
    var p: nat

    constructor (text: string)
      ensures this.text == text && Valid() && Rest() == text
    {
      this.text := text;
      p := 0;
    }

    predicate Valid()
      reads this
    {
      p <= |text|
    }

    /** The text that is left. */
    function Rest(): string
      reads this
      requires Valid()
    {
      text[p..]
    }

    method SkipWs()
      requires Valid()
      modifies this
      ensures Valid() && p >= old(p) && Rest() == Trim(old(Rest()))
    {
      while p < |text|
        invariant Valid() && p >= old(p) && Trim(Rest()) == Trim(old(Rest()))
      {
        assert Rest()[1..] == text[p + 1..];
        if Blank(text[p]) {
          p := p + 1;
        } else {
          break;
        }
      }
    }

    method Peek(c: char) returns (b: bool)
      requires Valid()
      modifies this
      ensures Valid() && p >= old(p) && Rest() == Trim(old(Rest()))
      ensures b <==> Rest() != "" && Rest()[0] == c
    {
      SkipWs();
      b := p < |text| && text[p] == c;
    }

    method Eat(c: char) returns (b: bool)
      requires Valid()
      modifies this
      ensures Valid() && p >= old(p)
      ensures var t := Trim(old(Rest()));
        b == (t != "" && t[0] == c) && Rest() == if b then t[1..] else t
    {
      SkipWs();
      if p < |text| && text[p] == c {
        p := p + 1;
        return true;
      }
      b := false;
    }

    /** `read_string`. */
    method ReadString() returns (ok: bool, out: string)
      requires Valid()
      modifies this
      ensures Valid() && p >= old(p)
      ensures var r := ReadQuoted(old(Rest())); ok == r.ok && Rest() == r.rest && (ok ==> out == r.out)
    {
      hide Trim, ReadBody, Continues, Unescaped;
      ghost var start := Rest();
      SkipWs();
      ghost var t := Rest();
      out := "";
      if p >= |text| || text[p] != '\"' {
        return false, out;
      }
      p := p + 1;
      ghost var body := Rest();
      assert body == t[1..];
      BodyStarts(body);
      while p < |text|
        invariant Valid() && p >= old(p)
        invariant Continues(ReadBody(body), out, ReadBody(Rest()))
        decreases |text| - p
      {
        ghost var s := Rest();
        ContinueBody(ReadBody(body), out, s);
        var c := text[p];
        p := p + 1;
        assert Rest() == s[1..];
        if c == '\"' {
          return true, out;
        }
        if c == '\\' && p < |text| {
          var e := text[p];
          p := p + 1;
          assert Rest() == s[2..];
          out := out + [Unescaped(e)];
        } else {
          out := out + [c];
        }
      }
      ok := false;
      BodyEnds(ReadBody(body), out, Rest());
    }

    /** The bracket loop of `skip_value`. */
    method SkipContainer(open: char)
      requires Valid()
      modifies this
      ensures Valid() && p >= old(p)
      ensures Rest() == Skim(old(Rest()), 0, false, open, CloserOf(open))
    {
      var close := CloserOf(open);
      var depth, inString := 0, false;
      while p < |text|
        invariant Valid() && p >= old(p)
        invariant Skim(Rest(), depth, inString, open, close) == Skim(old(Rest()), 0, false, open, close)
        decreases |text| - p
      {
        ghost var s := Rest();
        var ch := text[p];
        p := p + 1;
        assert Rest() == s[1..];
        if inString {
          if ch == '\\' && p < |text| {
            p := p + 1;
            assert Rest() == s[2..];
            continue;
          }
          if ch == '\"' {
            inString := false;
          }
        } else {
          if ch == '\"' {
            inString := true;
          } else if ch == open {
            depth := depth + 1;
          } else if ch == close {
            depth := depth - 1;
            if depth == 0 {
              return;
            }
          }
        }
      }
    }

    method SkipScalar()
      requires Valid()
      modifies this
      ensures Valid() && p >= old(p) && Rest() == AfterScalar(old(Rest()))
    {
      while p < |text| && !Stop(text[p])
        invariant Valid() && p >= old(p) && AfterScalar(Rest()) == AfterScalar(old(Rest()))
      {
        assert Rest()[1..] == text[p + 1..];
        p := p + 1;
      }
    }

    /** `skip_value`. */
    method SkipValue()
      requires Valid()
      modifies this
      ensures Valid() && p >= old(p) && Rest() == AfterValue(old(Rest()))
    {
      hide Skim, AfterScalar, ReadQuoted, Trim;
      SkipWs();
      if p >= |text| {
        return;
      }
      var c := text[p];
      assert c == Rest()[0];
      if c == '\"' {
        var _, _ := ReadString();
      } else if c == '{' || c == '[' {
        SkipContainer(c);
      } else {
        SkipScalar();
      }
    }

    /** Passes over one value and gives the slice it occupies. */
    method Slice() returns (b: nat, e: nat)
      requires Valid()
      modifies this
      ensures Valid() && b <= e == p <= |text|
      ensures var v := old(Rest()); text[b..e] == v[..|v| - |AfterValue(v)|]
    {
      hide AfterValue;
      ghost var v := Rest();
      b := p;
      SkipValue();
      e := p;
      assert text[b..] == v && text[e..] == AfterValue(v);
    }

    /** The member loop of one level: stops at the value of the first member with this key. */
    method ToMember(part: string) returns (found: bool)
      requires Valid()
      modifies this
      ensures Valid() && p >= old(p)
      ensures var r := FindMember(old(Rest()), part); found == r.Some? && (found ==> Rest() == r.value)
    {
      hide AfterValue, ReadQuoted, Trim;
      found := false;
      ghost var goal := FindMember(Rest(), part);
      while true
        invariant Valid() && p >= old(p) && FindMember(Rest(), part) == goal
        decreases |text| - p
      {
        ghost var s := Rest();
        var closing := Peek('}');
        ghost var t := Rest();
        TrimTwice(s);
        if closing {
          return;
        }
        var ok, k := ReadString();
        if !ok {
          return false;
        }
        ghost var afterKey := Rest();
        SkipWs();
        TrimTwice(afterKey);
        var colon := Eat(':');
        if !colon {
          return false;
        }
        ghost var c := Trim(afterKey);
        assert Rest() == c[1..];
        SkipWs();
        ghost var v := Rest();
        assert v == Trim(c[1..]);
        if k == part {
          assert FindMember(s, part) == Some(v);
          return true;
        }
        SkipValue();
        SkipWs();
        ghost var u := Rest();
        TrimTwice(AfterValue(v));
        assert FindMember(s, part) == FindMember(u, part);
        var ended := Peek('}');
        if !ended {
          var _ := Eat(',');
          NoCommaLeft(u);
        }
        assert Rest() == u;
      }
    }
  }

  lemma {:induction false} BodyStarts(body: string)
    ensures Continues(ReadBody(body), "", ReadBody(body))
  {
  }

  lemma {:induction false} BodyEnds(whole: Read, out: string, s: string)
    requires Continues(whole, out, ReadBody(s)) && s == ""
    ensures !whole.ok && whole.rest == s
  {
  }

  /** Trimming has eaten the commas, so none is left to eat. */
  lemma {:induction false} NoCommaLeft(u: string)
    ensures Trim(u) == u ==> u == "" || u[0] != ','
  {
  }

  method SplitKey(key: string) returns (parts: seq<string>)
    ensures parts == Split(key)
  {
    parts := [];
    var cur := "";
    var i := 0;
    assert key[..0] == "";
    while i < |key|
      invariant 0 <= i <= |key| && parts + [cur] == Split(key[..i])
    {
      assert key[..i + 1][..i] == key[..i];
      ghost var before := parts + [cur];
      assert before[..|before| - 1] == parts;
      if key[i] == '.' {
        parts := parts + [cur];
        cur := "";
      } else {
        cur := cur + [key[i]];
      }
      i := i + 1;
    }
    assert key[..i] == key;
    parts := parts + [cur];
  }

  lemma {:induction false} PathStep(parts: seq<string>, level: nat)
    requires level < |parts|
    ensures var rest := parts[level..];
      rest != [] && |rest| == |parts| - level && rest[0] == parts[level] && rest[1..] == parts[level + 1..]
  {
  }

  /** `find_key`: the slice [b, e) of the text. */
  method FindKey(text: string, key: string) returns (found: bool, b: nat, e: nat)
    ensures found <==> Find(text, Split(key)).Some?
    ensures found ==> b <= e <= |text| && text[b..e] == Find(text, Split(key)).value
  {
    hide Find, FindMember, AfterValue, Split, Trim;
    var parts := SplitKey(key);
    var cur := new Cursor(text);
    found, b, e := false, 0, 0;
    var level := 0;
    while level < |parts|
      invariant 0 <= level <= |parts| && cur.Valid() && cur.text == text && fresh(cur)
      invariant level < |parts| && Find(cur.Rest(), parts[level..]) == Find(text, parts)
    {
      ghost var s, rest := cur.Rest(), parts[level..];
      PathStep(parts, level);
      FindFails(s, rest);
      var open := cur.Eat('{');
      if !open {
        return;
      }
      var hit := cur.ToMember(parts[level]);
      if !hit {
        return;
      }
      FindDescends(s, rest, cur.Rest());
      if level + 1 == |parts| {
        b, e := cur.Slice();
        return true, b, e;
      }
      level := level + 1;
    }
  }

  /** `escape_json`. */
  method EscapeJson(s: string) returns (out: string)
    ensures out == Escaped(s)
  {
    hide EscapedChar;
    out := "";
    var i := 0;
    while i < |s|
      invariant 0 <= i <= |s| && out == Escaped(s[..i])
    {
      assert s[..i + 1][..i] == s[..i];
      out := out + EscapedChar(s[i]);
      i := i + 1;
    }
    assert s[..i] == s;
  }

  /** Reading a member of a well-formed document by its dotted path: with dot-free keys the
      slice found is the text of the value, and nothing is found when the path leads nowhere. */
  lemma {:induction false} FindKeyExact(space: string, v: Json, rest: string, parts: seq<string>)
    requires IsSpace(space) && WellFormed(v) && parts != [] && (v.Scalar? ==> Ends(rest))
    requires forall i :: 0 <= i < |parts| ==> '.' !in parts[i]
    ensures var hit := Lookup(v, parts);
      Find(space + (Text(v) + rest), Split(Dotted(parts))) == if hit.Some? then Some(Text(hit.value)) else None
  {
    hide Find, Lookup, Split, Dotted, WellFormed;
    SplitDotted(parts);
    FindExact(space, v, rest, parts);
  }

  /** With keys of section 7 of RFC 8259 that hold no unicode escape this is the value the
      standard assigns to the path. */
  lemma {:induction false} FindKeyStandard(space: string, v: Json, rest: string, parts: seq<string>)
    requires IsSpace(space) && WellFormed(v) && parts != [] && (v.Scalar? ==> Ends(rest))
    requires forall i :: 0 <= i < |parts| ==> '.' !in parts[i]
    requires StandardKeys(v) && PlainKeys(v)
    ensures var hit := StandardLookup(v, parts);
      Find(space + (Text(v) + rest), Split(Dotted(parts))) == if hit.Some? then Some(Text(hit.value)) else None
  {
    hide Find, StandardLookup, Split, Dotted, WellFormed, StandardKeys, PlainKeys;
    SplitDotted(parts);
    FindStandard(space, v, rest, parts);
  }
}
