/** `extract_json_objects`: a character-by-character scanner that cuts a stream of
    concatenated JSON objects into complete objects and an unfinished remainder, tracking
    brace depth, whether it is inside a string, and whether the previous character was
    an escaping backslash. */
module JsonSplitter {
  import opened JsonText

  /** How a backslash inside a string treats the escape flag. `AsWritten` re-arms the
      flag on every backslash, so an escaped backslash leaves the flag set; `Rfc8259`
      lets an escaped backslash clear it, as section 7 of RFC 8259 reads. */
  datatype EscapeRule = AsWritten | Rfc8259

  /** The scanner's variables: the objects found so far, the brace level, the text of
      the object being collected, the string flag and the escape flag. */
  datatype Scanner = Scanner(objects: seq<string>, level: nat, current: string, inString: bool, escape: bool)

  const Start := Scanner([], 0, "", false, false)

  /** Python's `str.isspace()` characters. */
  predicate IsSpace(c: char) {
    c == ' ' || '\t' <= c <= '\r' || '\U{1C}' <= c <= '\U{1F}' || c == '\U{85}'
    || c == '\U{A0}' || c == '\U{1680}' || '\U{2000}' <= c <= '\U{200A}'
    || c == '\U{2028}' || c == '\U{2029}' || c == '\U{202F}' || c == '\U{205F}'
    || c == '\U{3000}'
  }

  function StripLeft(t: string): string {
    if |t| > 0 && IsSpace(t[0]) then StripLeft(t[1..]) else t
  }

  function StripRight(t: string): string {
    if |t| > 0 && IsSpace(t[|t| - 1]) then StripRight(t[..|t| - 1]) else t
  }

  /** `lstrip` removes exactly the leading whitespace: what is left is a suffix that does
      not start with whitespace, and everything removed is whitespace. */
  lemma {:induction false} StripLeftSpec(t: string)
    ensures var r := StripLeft(t);
      && |r| <= |t| && r == t[|t| - |r|..]
      && (|r| > 0 ==> !IsSpace(r[0]))
      && (forall i :: 0 <= i < |t| - |r| ==> IsSpace(t[i]))
    decreases |t|
  {
    if |t| > 0 && IsSpace(t[0]) {
      StripLeftSpec(t[1..]);
    }
  }

  /** `rstrip` removes exactly the trailing whitespace: what is left is a prefix that does
      not end in whitespace, and everything removed is whitespace. */
  lemma {:induction false} StripRightSpec(t: string)
    ensures var r := StripRight(t);
      && |r| <= |t| && r == t[..|r|]
      && (|r| > 0 ==> !IsSpace(r[|r| - 1]))
      && (forall i :: |r| <= i < |t| ==> IsSpace(t[i]))
    decreases |t|
  {
    if |t| > 0 && IsSpace(t[|t| - 1]) {
      StripRightSpec(t[..|t| - 1]);
    }
  }

  /** Python `t.strip()`: whitespace removed from both ends. */
  function Strip(t: string): string {
    StripRight(StripLeft(t))
  }

  /** Text that starts with `{` and ends with `}`: what the scanner accepts as an object. */
  predicate Braced(t: string) {
    |t| > 0 && t[0] == '{' && t[|t| - 1] == '}'
  }

  /** The object appended when the outermost brace closes: the collected text, stripped,
      if it then starts with `{` and ends with `}`. */
  function Found(cur: string): seq<string> {
    var t := Strip(cur);
    if |t| > 0 && t[0] == '{' && t[|t| - 1] == '}' then [t] else []
  }

  /** One iteration of the loop: the character is appended to `current` first, then the
      quote, backslash and brace cases apply in that order. */
  function Step(rule: EscapeRule, s: Scanner, c: char): Scanner {
    var cur := s.current + [c];
    if c == '"' && !s.escape then
      s.(current := cur, inString := !s.inString, escape := false)
    else if c == '\\' && s.inString then
      s.(current := cur, escape := if rule == AsWritten then true else !s.escape)
    else if !s.inString && c == '{' then
      s.(current := if s.level == 0 then "{" else cur, level := s.level + 1, escape := false)
    else if !s.inString && c == '}' && s.level > 0 then
      if s.level == 1 then
        s.(objects := s.objects + Found(cur), current := "", level := 0, escape := false)
      else
        s.(current := cur, level := s.level - 1, escape := false)
    else
      s.(current := cur, escape := false)
  }

  /** The loop over the whole text. */
  function Run(rule: EscapeRule, s: Scanner, text: string): Scanner
    decreases |text|
  {
    if |text| == 0 then s else Run(rule, Step(rule, s, text[0]), text[1..])
  }

  /** The scanner state after reading `text` from the start. */
  function Scan(rule: EscapeRule, text: string): Scanner {
    Run(rule, Start, text)
  }

  /** What the unfinished object leaves behind: the collected text while inside an object
      that starts with `{` after stripping, and nothing otherwise. */
  function Remainder(s: Scanner): string {
    if s.level > 0 && |Strip(s.current)| > 0 && Strip(s.current)[0] == '{' then s.current else ""
  }

  /** `extract_json_objects(text)`: the complete objects, and the remaining buffer. */
  function ExtractJsonObjects(rule: EscapeRule, text: string): (seq<string>, string) {
    var s := Scan(rule, text);
    (s.objects, Remainder(s))
  }

  // ---- reading text in pieces ----

  /** Reading `a + b` is reading `a`, then `b`. */
  lemma {:induction false} RunAppend(rule: EscapeRule, s: Scanner, a: string, b: string)
    ensures Run(rule, s, a + b) == Run(rule, Run(rule, s, a), b)
    decreases |a|
  {
    if |a| > 0 {
      assert (a + b)[0] == a[0] && (a + b)[1..] == a[1..] + b;
      RunAppend(rule, Step(rule, s, a[0]), a[1..], b);
    } else {
      assert a + b == b;
    }
  }

  /** Reading `a` and then `b` through known intermediate states. */
  lemma Chain(rule: EscapeRule, s: Scanner, a: string, s1: Scanner, b: string, s2: Scanner)
    requires Run(rule, s, a) == s1 && Run(rule, s1, b) == s2
    ensures Run(rule, s, a + b) == s2
  {
    RunAppend(rule, s, a, b);
  }

  lemma RunOne(rule: EscapeRule, s: Scanner, c: char)
    ensures Run(rule, s, [c]) == Step(rule, s, c)
  {
    assert [c][1..] == "";
  }

  /** Reading one more character is one more step. */
  lemma RunSnoc(rule: EscapeRule, s: Scanner, t: string, c: char)
    ensures Run(rule, s, t + [c]) == Step(rule, Run(rule, s, t), c)
  {
    RunAppend(rule, s, t, [c]);
    RunOne(rule, Run(rule, s, t), c);
  }

  // ---- what every reachable state satisfies ----

  /** Every object found is braced; while inside an object the collected text starts with
      its opening brace; the escape flag is only ever set inside a string. */
  predicate Wf(s: Scanner) {
    (forall i :: 0 <= i < |s.objects| ==> Braced(s.objects[i]))
    && (s.level > 0 ==> |s.current| > 0 && s.current[0] == '{')
    && (s.escape ==> s.inString)
  }

  /** Text that begins and ends with a non-space character is its own strip. */
  lemma StripKeeps(t: string)
    requires |t| > 0 && !IsSpace(t[0]) && !IsSpace(t[|t| - 1])
    ensures Strip(t) == t
  {
  }

  /** Stripping text that starts with `{` keeps that brace in front. */
  lemma StripKeepsOpening(t: string)
    requires |t| > 0 && t[0] == '{'
    ensures |Strip(t)| > 0 && Strip(t)[0] == '{'
  {
    assert StripLeft(t) == t;
    StripRightSpec(t);
  }

  /** Closing the outermost brace always yields an object: the collected text starts
      with `{`, so the check before appending never fails. */
  lemma CloseEmits(rule: EscapeRule, s: Scanner)
    requires Wf(s) && s.level == 1 && !s.inString
    ensures Step(rule, s, '}') == s.(objects := s.objects + [s.current + "}"], current := "", level := 0, escape := false)
  {
    StripKeeps(s.current + "}");
    assert Found(s.current + "}") == [s.current + "}"];
  }

  lemma StepWf(rule: EscapeRule, s: Scanner, c: char)
    requires Wf(s)
    ensures Wf(Step(rule, s, c))
  {
    var f := Found(s.current + [c]);
    assert forall i :: 0 <= i < |f| ==> Braced(f[i]);
  }

  lemma {:induction false} RunWf(rule: EscapeRule, s: Scanner, t: string)
    requires Wf(s)
    ensures Wf(Run(rule, s, t))
    decreases |t|
  {
    if |t| > 0 {
      StepWf(rule, s, t[0]);
      RunWf(rule, Step(rule, s, t[0]), t[1..]);
    }
  }

  /** Every returned object is non-empty and runs from `{` to `}`. */
  lemma ObjectsBraced(rule: EscapeRule, text: string)
    ensures forall o :: o in ExtractJsonObjects(rule, text).0 ==> Braced(o)
  {
    RunWf(rule, Start, text);
  }

  /** The remainder is empty exactly when the scan ends outside every object, and is
      otherwise the whole unfinished object, from its opening brace. */
  lemma RemainderShape(rule: EscapeRule, text: string)
    ensures var s := Scan(rule, text);
      && (ExtractJsonObjects(rule, text).1 == "" <==> s.level == 0)
      && (s.level > 0 ==> ExtractJsonObjects(rule, text).1 == s.current && s.current[0] == '{')
  {
    RunWf(rule, Start, text);
    var s := Scan(rule, text);
    if s.level > 0 {
      StripKeepsOpening(s.current);
    }
  }

  predicate IsSuffix(a: string, b: string) {
    |a| <= |b| && b[|b| - |a|..] == a
  }

  /** The collected text is always a suffix of the text read so far. */
  lemma {:induction false} CurrentIsSuffix(rule: EscapeRule, text: string)
    ensures IsSuffix(Scan(rule, text).current, text)
    decreases |text|
  {
    if |text| > 0 {
      var t, c := text[..|text| - 1], text[|text| - 1];
      assert text == t + [c];
      CurrentIsSuffix(rule, t);
      RunSnoc(rule, Start, t, c);
      StepCurrent(rule, Scan(rule, t), c);
      SuffixSnoc(Scan(rule, t).current, t, c);
    }
  }

  /** A step either extends the collected text by the character, starts it afresh with
      the character, or empties it. */
  lemma StepCurrent(rule: EscapeRule, s: Scanner, c: char)
    ensures var r := Step(rule, s, c).current;
      r == s.current + [c] || r == [c] || r == []
  {
  }

  lemma SuffixSnoc(a: string, t: string, c: char)
    requires IsSuffix(a, t)
    ensures IsSuffix(a + [c], t + [c]) && IsSuffix([c], t + [c]) && IsSuffix([], t + [c])
  {
    assert (t + [c])[|t + [c]| - |a + [c]|..] == t[|t| - |a|..] + [c];
  }


  /** The remainder is a suffix of the input: nothing is invented or reordered. */
  lemma RemainderIsSuffix(rule: EscapeRule, text: string)
    ensures IsSuffix(ExtractJsonObjects(rule, text).1, text)
  {
    CurrentIsSuffix(rule, text);
  }

  // ---- strings ----

  /** A quote that no backslash escapes toggles the string flag. */
  lemma QuoteStep(rule: EscapeRule, s: Scanner)
    requires !s.escape
    ensures Run(rule, s, "\"") == s.(current := s.current + "\"", inString := !s.inString)
  {
    RunOne(rule, s, '"');
  }

  /** A quote right after an escaping backslash is part of the string. */
  lemma EscapedQuoteStep(rule: EscapeRule, s: Scanner)
    requires s.inString && s.escape
    ensures Run(rule, s, "\"") == s.(current := s.current + "\"", escape := false)
  {
    RunOne(rule, s, '"');
  }

  /** Text with no quote and no backslash: inside a string it changes nothing but the
      collected text. */
  predicate NoQuoteOrBackslash(t: string) {
    forall i :: 0 <= i < |t| ==> t[i] != '"' && t[i] != '\\'
  }

  /** Inside a string, braces and every other character apart from a quote or a backslash
      leave the brace level, the objects found and the string flag alone; the first such
      character clears the escape flag. */
  lemma {:induction false} InStringRun(rule: EscapeRule, s: Scanner, t: string)
    requires s.inString && NoQuoteOrBackslash(t)
    ensures Run(rule, s, t) == s.(current := s.current + t, escape := if |t| == 0 then s.escape else false)
    decreases |t|
  {
    if |t| == 0 {
      assert s.current + t == s.current;
    } else {
      var s1 := Step(rule, s, t[0]);
      assert s1 == s.(current := s.current + [t[0]], escape := false);
      InStringRun(rule, s1, t[1..]);
      assert s.current + [t[0]] + t[1..] == s.current + t;
    }
  }

  /** One escaped character inside a string: afterwards the scanner is still inside the
      string, and the escape flag is left set only by an escaped backslash under the rule
      as written. */
  lemma EscapeCharRun(rule: EscapeRule, s: Scanner, c: char)
    requires s.inString && (rule == Rfc8259 ==> !s.escape)
    ensures Run(rule, s, EscapeChar(c)) == s.(current := s.current + EscapeChar(c), escape := rule == AsWritten && c == '\\')
  {
    var t := EscapeChar(c);
    if t[0] == '\\' {
      var s1 := Step(rule, s, '\\');
      assert s1 == s.(current := s.current + "\\", escape := true);
      assert Run(rule, s, t) == Run(rule, s1, t[1..]);
      if c == '"' || c == '\\' {
        assert t[1..] == [c];
        RunOne(rule, s1, c);
      } else {
        InStringRun(rule, s1, t[1..]);
      }
      assert s.current + "\\" + t[1..] == s.current + t;
    } else {
      RunOne(rule, s, c);
    }
  }

  /** The escaped contents of a string keep the scanner inside the string; the escape
      flag ends up set only when the rule as written meets a final backslash. */
  lemma {:induction false} EscapeRun(rule: EscapeRule, s: Scanner, str: string)
    requires s.inString && (rule == Rfc8259 ==> !s.escape)
    ensures Run(rule, s, Escape(str)) == s.(current := s.current + Escape(str),
      escape := if |str| == 0 then s.escape else rule == AsWritten && EndsInBackslash(str))
    decreases |str|
  {
    if |str| == 0 {
      assert s.current + Escape(str) == s.current;
    } else {
      var head, tail := EscapeChar(str[0]), Escape(str[1..]);
      var s1 := s.(current := s.current + head, escape := rule == AsWritten && str[0] == '\\');
      EscapeCharRun(rule, s, str[0]);
      var e := if |str| == 1 then s1.escape else rule == AsWritten && EndsInBackslash(str[1..]);
      EscapeRun(rule, s1, str[1..]);
      Chain(rule, s, head, s1, tail, s1.(current := s1.current + tail, escape := e));
      assert head + tail == Escape(str);
      AppendAssoc(s.current, head, tail);
      LastOfTail(str);
      assert e == (rule == AsWritten && EndsInBackslash(str));
    }
  }

  lemma AppendAssoc(a: string, b: string, c: string)
    ensures (a + b) + c == a + (b + c)
  {
  }

  lemma LastOfTail(str: string)
    requires |str| > 0
    ensures EndsInBackslash(str) == if |str| == 1 then str[0] == '\\' else EndsInBackslash(str[1..])
  {
  }


  /** Outside a string, a quoted string is read as a whole and leaves the scanner outside
      the string again, unless the rule as written meets a string that ends in a
      backslash. */
  lemma QuoteRun(rule: EscapeRule, s: Scanner, str: string)
    requires !s.inString && !s.escape
    requires rule == Rfc8259 || !EndsInBackslash(str)
    ensures Run(rule, s, Quote(str)) == s.(current := s.current + Quote(str))
  {
    var s1 := s.(current := s.current + "\"", inString := true);
    assert Run(rule, s, "\"") == s1 by { QuoteStep(rule, s); }
    var s2 := s1.(current := s1.current + Escape(str));
    assert Run(rule, s1, Escape(str)) == s2 by { EscapeRun(rule, s1, str); }
    assert Run(rule, s, "\"" + Escape(str)) == s2 by { Chain(rule, s, "\"", s1, Escape(str), s2); }
    var s3 := s.(current := s2.current + "\"");
    assert Run(rule, s2, "\"") == s3 by { QuoteStep(rule, s2); }
    Chain(rule, s, "\"" + Escape(str), s2, "\"", s3);
    QuoteParts(s.current, str);
  }

  lemma QuoteParts(a: string, str: string)
    ensures a + "\"" + Escape(str) + "\"" == a + Quote(str)
  {
  }


  // ---- whole values ----

  /** Outside a string, text without quotes, backslashes or braces changes nothing but
      the collected text. */
  lemma {:induction false} PlainRun(rule: EscapeRule, s: Scanner, t: string)
    requires !s.inString && !s.escape && Plain(t)
    ensures Run(rule, s, t) == s.(current := s.current + t)
    decreases |t|
  {
    if |t| == 0 {
      assert s.current + t == s.current;
    } else {
      var s1 := Step(rule, s, t[0]);
      assert s1 == s.(current := s.current + [t[0]]);
      PlainRun(rule, s1, t[1..]);
      assert s.current + [t[0]] + t[1..] == s.current + t;
    }
  }

  /** Text outside every object with no quote, backslash or opening brace, but possibly
      closing braces: an unmatched `}` never takes the level below 0 and emits no object,
      so the only change is to the collected text. */
  predicate NoOpening(t: string) {
    forall i :: 0 <= i < |t| ==> t[i] != '"' && t[i] != '\\' && t[i] != '{'
  }

  lemma {:induction false} StrayClosesRun(rule: EscapeRule, s: Scanner, t: string)
    requires s.level == 0 && !s.inString && !s.escape && NoOpening(t)
    ensures Run(rule, s, t) == s.(current := s.current + t)
    decreases |t|
  {
    if |t| == 0 {
      assert s.current + t == s.current;
    } else {
      var s1 := Step(rule, s, t[0]);
      assert s1 == s.(current := s.current + [t[0]]);
      StrayClosesRun(rule, s1, t[1..]);
      assert s.current + [t[0]] + t[1..] == s.current + t;
    }
  }

  /** A `{` outside every object starts the collected text afresh, so whatever was
      collected since the last object, stray closing braces included, is dropped. */
  lemma GapDiscarded(rule: EscapeRule, s: Scanner, t: string)
    requires s.level == 0 && !s.inString && !s.escape && NoOpening(t)
    ensures Run(rule, s, t + "{") == s.(current := "{", level := 1)
  {
    StrayClosesRun(rule, s, t);
    RunSnoc(rule, s, t, '{');
  }

  lemma Run3(rule: EscapeRule, s: Scanner, a: string, b: string, c: string)
    ensures Run(rule, s, a + b + c) == Run(rule, Run(rule, Run(rule, s, a), b), c)
  {
    RunAppend(rule, s, a + b, c);
    RunAppend(rule, s, a, b);
  }

  /** The values the scanner reads correctly: under the corrected rule all of them, under
      the rule as written those whose strings never end in a backslash. */
  predicate Readable(rule: EscapeRule, j: Json) {
    rule == Rfc8259 || NoTrailingBackslash(j)
  }

  predicate MemberReadable(rule: EscapeRule, m: Member) {
    rule == Rfc8259 || (!EndsInBackslash(m.key) && NoTrailingBackslash(m.value))
  }

  /** Reading `t` from `s` changes nothing but the collected text, which grows by `t`. */
  predicate Appends(rule: EscapeRule, s: Scanner, t: string) {
    Run(rule, s, t) == s.(current := s.current + t)
  }

  lemma AppendsCompose(rule: EscapeRule, s: Scanner, a: string, b: string)
    requires Appends(rule, s, a) && Appends(rule, s.(current := s.current + a), b)
    ensures Appends(rule, s, a + b)
  {
    RunAppend(rule, s, a, b);
    assert s.current + a + b == s.current + (a + b);
  }

  /** Inside an object, a serialized value is read as a whole: the brace level, the
      objects found and both flags come back to where they were. */
  lemma {:induction false} ValueRun(rule: EscapeRule, s: Scanner, j: Json)
    requires s.level > 0 && !s.inString && !s.escape && Readable(rule, j)
    ensures Appends(rule, s, Serialize(j))
    decreases j, 1
  {
    match j
    case JNull => PlainRun(rule, s, "null");
    case JBool(b) => PlainRun(rule, s, if b then "true" else "false");
    case JNumber(n) => PlainRun(rule, s, IntText(n));
    case JString(str) => QuoteRun(rule, s, str);
    case JArray(xs) =>
      assert forall i :: 0 <= i < |xs| ==> Readable(rule, xs[i]);
      ArrayRun(rule, s, xs);
    case JObject(ms) =>
      assert forall i :: 0 <= i < |ms| ==> MemberReadable(rule, ms[i]);
      ObjectRun(rule, s, ms);
  }

  lemma {:induction false} ArrayRun(rule: EscapeRule, s: Scanner, xs: seq<Json>)
    requires s.level > 0 && !s.inString && !s.escape
    requires forall i :: 0 <= i < |xs| ==> Readable(rule, xs[i])
    ensures Appends(rule, s, Serialize(JArray(xs)))
    decreases xs, 2
  {
    var e := SerializeElems(xs);
    PlainRun(rule, s, "[");
    var s1 := s.(current := s.current + "[");
    ElemsRun(rule, s1, xs);
    PlainRun(rule, s1.(current := s1.current + e), "]");
    AppendsCompose(rule, s1, e, "]");
    AppendsCompose(rule, s, "[", e + "]");
    assert "[" + (e + "]") == Serialize(JArray(xs));
  }

  lemma {:induction false} ObjectRun(rule: EscapeRule, s: Scanner, ms: seq<Member>)
    requires s.level > 0 && !s.inString && !s.escape
    requires forall i :: 0 <= i < |ms| ==> MemberReadable(rule, ms[i])
    ensures Appends(rule, s, Serialize(JObject(ms)))
    decreases ms, 2
  {
    var e := SerializeMembers(ms);
    RunOne(rule, s, '{');
    var s1 := s.(current := s.current + "{", level := s.level + 1);
    MembersRun(rule, s1, ms);
    var s2 := s1.(current := s1.current + e);
    RunOne(rule, s2, '}');
    RunAppend(rule, s1, e, "}");
    var s3 := s2.(current := s2.current + "}", level := s.level);
    assert Run(rule, s1, e + "}") == s3;
    RunAppend(rule, s, "{", e + "}");
    assert "{" + (e + "}") == Serialize(JObject(ms));
    assert s3.current == s.current + Serialize(JObject(ms));
  }

  lemma {:induction false} ElemsRun(rule: EscapeRule, s: Scanner, xs: seq<Json>)
    requires s.level > 0 && !s.inString && !s.escape
    requires forall i :: 0 <= i < |xs| ==> Readable(rule, xs[i])
    ensures Appends(rule, s, SerializeElems(xs))
    decreases xs, 1
  {
    if |xs| == 0 {
      assert s.current + SerializeElems(xs) == s.current;
    } else if |xs| == 1 {
      ValueRun(rule, s, xs[0]);
    } else {
      var a, r := Serialize(xs[0]), SerializeElems(xs[1..]);
      ValueRun(rule, s, xs[0]);
      var s1 := s.(current := s.current + a);
      PlainRun(rule, s1, ",");
      ElemsRun(rule, s1.(current := s1.current + ","), xs[1..]);
      AppendsCompose(rule, s1, ",", r);
      AppendsCompose(rule, s, a, "," + r);
      assert a + ("," + r) == SerializeElems(xs);
    }
  }

  lemma {:induction false} MembersRun(rule: EscapeRule, s: Scanner, ms: seq<Member>)
    requires s.level > 0 && !s.inString && !s.escape
    requires forall i :: 0 <= i < |ms| ==> MemberReadable(rule, ms[i])
    ensures Appends(rule, s, SerializeMembers(ms))
    decreases ms, 1
  {
    if |ms| == 0 {
      assert s.current + SerializeMembers(ms) == s.current;
    } else if |ms| == 1 {
      MemberRun(rule, s, ms[0]);
    } else {
      var a, r := SerializeMember(ms[0]), SerializeMembers(ms[1..]);
      MemberRun(rule, s, ms[0]);
      var s1 := s.(current := s.current + a);
      PlainRun(rule, s1, ",");
      MembersRun(rule, s1.(current := s1.current + ","), ms[1..]);
      AppendsCompose(rule, s1, ",", r);
      AppendsCompose(rule, s, a, "," + r);
      assert a + ("," + r) == SerializeMembers(ms);
    }
  }

  lemma {:induction false} MemberRun(rule: EscapeRule, s: Scanner, m: Member)
    requires s.level > 0 && !s.inString && !s.escape && MemberReadable(rule, m)
    ensures Appends(rule, s, SerializeMember(m))
    decreases m, 0
  {
    var q, v := Quote(m.key), Serialize(m.value);
    QuoteRun(rule, s, m.key);
    var s1 := s.(current := s.current + q);
    PlainRun(rule, s1, ":");
    ValueRun(rule, s1.(current := s1.current + ":"), m.value);
    AppendsCompose(rule, s1, ":", v);
    AppendsCompose(rule, s, q, ":" + v);
    assert q + (":" + v) == SerializeMember(m);
  }

  // ---- streams of objects ----

  /** Outside every object, a serialized object is read as a whole and appended to the
      objects found; the collected text starts afresh. */
  lemma TopObjectRun(rule: EscapeRule, s: Scanner, ms: seq<Member>)
    requires s.level == 0 && !s.inString && !s.escape
    requires forall i :: 0 <= i < |ms| ==> MemberReadable(rule, ms[i])
    ensures Run(rule, s, Serialize(JObject(ms)))
         == s.(objects := s.objects + [Serialize(JObject(ms))], current := "")
  {
    var m := SerializeMembers(ms);
    Run3(rule, s, "{", m, "}");
    RunOne(rule, s, '{');
    var s1 := s.(current := "{", level := 1);
    MembersRun(rule, s1, ms);
    var s2 := s1.(current := "{" + m);
    RunOne(rule, s2, '}');
    StripKeeps("{" + m + "}");
    assert Found("{" + m + "}") == ["{" + m + "}"];
  }

  /** The objects `objs[i]`, serialized, with the text `gaps[i]` before each and
      `gaps[|objs|]` after the last. */
  function Stream(gaps: seq<string>, objs: seq<seq<Member>>): string
    requires |gaps| == |objs| + 1
    decreases |objs|
  {
    if |objs| == 0 then gaps[0]
    else gaps[0] + Serialize(JObject(objs[0])) + Stream(gaps[1..], objs[1..])
  }

  /** The serialized objects, in order. */
  function SerializeAll(objs: seq<seq<Member>>): (r: seq<string>)
    ensures |r| == |objs|
  {
    if |objs| == 0 then [] else [Serialize(JObject(objs[0]))] + SerializeAll(objs[1..])
  }

  predicate AllReadable(rule: EscapeRule, objs: seq<seq<Member>>) {
    forall i, k :: 0 <= i < |objs| && 0 <= k < |objs[i]| ==> MemberReadable(rule, objs[i][k])
  }

  lemma {:induction false} StreamRun(rule: EscapeRule, s: Scanner, gaps: seq<string>, objs: seq<seq<Member>>)
    requires |gaps| == |objs| + 1
    requires s.level == 0 && !s.inString && !s.escape
    requires forall i :: 0 <= i < |gaps| ==> Plain(gaps[i])
    requires AllReadable(rule, objs)
    ensures var r := Run(rule, s, Stream(gaps, objs));
      r.objects == s.objects + SerializeAll(objs) && r.level == 0 && !r.inString && !r.escape
    decreases |objs|
  {
    if |objs| == 0 {
      PlainRun(rule, s, gaps[0]);
    } else {
      var o, rest := Serialize(JObject(objs[0])), Stream(gaps[1..], objs[1..]);
      var s2 := s.(objects := s.objects + [o], current := "");
      AllReadableTail(rule, objs);
      assert Run(rule, s, gaps[0] + o) == s2 by { GapThenObject(rule, s, gaps[0], objs[0]); }
      var r := Run(rule, s2, rest);
      assert r.objects == s2.objects + SerializeAll(objs[1..]) && r.level == 0 && !r.inString && !r.escape by {
        StreamRun(rule, s2, gaps[1..], objs[1..]);
      }
      assert Run(rule, s, Stream(gaps, objs)) == r by { Chain(rule, s, gaps[0] + o, s2, rest, r); }
      ObjectsAssoc(s.objects, o, SerializeAll(objs[1..]));
    }
  }

  lemma ObjectsAssoc(a: seq<string>, o: string, b: seq<string>)
    ensures a + [o] + b == a + ([o] + b)
  {
  }

  lemma AllReadableTail(rule: EscapeRule, objs: seq<seq<Member>>)
    requires |objs| > 0 && AllReadable(rule, objs)
    ensures AllReadable(rule, objs[1..])
    ensures forall k :: 0 <= k < |objs[0]| ==> MemberReadable(rule, objs[0][k])
  {
    forall i, k | 0 <= i < |objs[1..]| && 0 <= k < |objs[1..][i]|
      ensures MemberReadable(rule, objs[1..][i][k])
    {
      assert objs[1..][i] == objs[i + 1];
    }
  }

  /** Text between objects, then an object: the text is dropped when the object's opening
      brace restarts the collected text, and the object is found. */
  lemma GapThenObject(rule: EscapeRule, s: Scanner, gap: string, ms: seq<Member>)
    requires s.level == 0 && !s.inString && !s.escape && Plain(gap)
    requires forall k :: 0 <= k < |ms| ==> MemberReadable(rule, ms[k])
    ensures Run(rule, s, gap + Serialize(JObject(ms)))
         == s.(objects := s.objects + [Serialize(JObject(ms))], current := "")
  {
    var o := Serialize(JObject(ms));
    var s1 := s.(current := s.current + gap);
    PlainRun(rule, s, gap);
    TopObjectRun(rule, s1, ms);
    Chain(rule, s, gap, s1, o, s1.(objects := s.objects + [o], current := ""));
  }



  /** Serialized objects, with any text between them that holds no quote, backslash or
      brace, are returned one by one, in order, with an empty remainder. Under the rule as
      written this needs every string in them not to end in a backslash. */
  lemma ExtractStream(rule: EscapeRule, gaps: seq<string>, objs: seq<seq<Member>>)
    requires |gaps| == |objs| + 1
    requires forall i :: 0 <= i < |gaps| ==> Plain(gaps[i])
    requires AllReadable(rule, objs)
    ensures ExtractJsonObjects(rule, Stream(gaps, objs)) == (SerializeAll(objs), "")
  {
    var text := Stream(gaps, objs);
    StreamRun(rule, Start, gaps, objs);
    var r := Scan(rule, text);
    assert r.objects == SerializeAll(objs) && r.level == 0;
    assert Remainder(r) == "";
  }

  // ---- the escaped backslash ----

  /** Under the rule as written, a string that ends in a backslash does not close at its
      closing quote: the scanner is still inside the string afterwards. */
  lemma TrailingBackslashKeepsString(s: Scanner, str: string)
    requires !s.inString && !s.escape && EndsInBackslash(str)
    ensures Run(AsWritten, s, Quote(str)) == s.(current := s.current + Quote(str), inString := true)
  {
    var s1 := s.(current := s.current + "\"", inString := true);
    assert Run(AsWritten, s, "\"") == s1 by { QuoteStep(AsWritten, s); }
    var s2 := s1.(current := s1.current + Escape(str), escape := true);
    assert Run(AsWritten, s1, Escape(str)) == s2 by { EscapeRun(AsWritten, s1, str); }
    assert Run(AsWritten, s, "\"" + Escape(str)) == s2 by {
      Chain(AsWritten, s, "\"", s1, Escape(str), s2);
    }
    var s3 := s2.(current := s2.current + "\"", escape := false);
    assert Run(AsWritten, s2, "\"") == s3 by { EscapedQuoteStep(AsWritten, s2); }
    Chain(AsWritten, s, "\"" + Escape(str), s2, "\"", s3);
    QuoteParts(s.current, str);
  }


  /** `{"a":"\\"}`: one member whose value is a single backslash. */
  const BackslashObject: seq<Member> := [Member("a", JString("\\"))]

  /** As written, the object `{"a":"\\"}` is never returned: its closing brace is read as
      part of the string, and the whole text stays behind as the remainder. */
  lemma AsWrittenMissesBackslashObject()
    ensures Serialize(JObject(BackslashObject)) == "{\"a\":\"\\\\\"}"
    ensures ExtractJsonObjects(AsWritten, Serialize(JObject(BackslashObject)))
         == ([], Serialize(JObject(BackslashObject)))
  {
    var m := BackslashObject[0];
    var q, v := Quote(m.key), Serialize(m.value);
    var text := Serialize(JObject(BackslashObject));
    assert text == "{" + q + ":" + v + "}" by {
      assert SerializeMembers(BackslashObject) == q + ":" + v;
    }
    assert q == "\"a\"" by { assert Escape("a") == "a" + Escape(""); }
    assert v == "\"\\\\\"" by { assert Escape("\\") == "\\\\" + Escape(""); }
    assert text == "{\"a\":\"\\\\\"}";
    var s1 := Start.(current := "{", level := 1);
    assert Run(AsWritten, Start, "{") == s1 by { RunOne(AsWritten, Start, '{'); }
    var s2 := s1.(current := "{" + q);
    assert Run(AsWritten, s1, q) == s2 by { QuoteRun(AsWritten, s1, m.key); }
    assert Run(AsWritten, Start, "{" + q) == s2 by { Chain(AsWritten, Start, "{", s1, q, s2); }
    var s3 := s2.(current := "{" + q + ":");
    assert Run(AsWritten, s2, ":") == s3 by { PlainRun(AsWritten, s2, ":"); }
    assert Run(AsWritten, Start, "{" + q + ":") == s3 by { Chain(AsWritten, Start, "{" + q, s2, ":", s3); }
    var s4 := s3.(current := "{" + q + ":" + v, inString := true);
    assert Run(AsWritten, s3, v) == s4 by { TrailingBackslashKeepsString(s3, "\\"); }
    assert Run(AsWritten, Start, "{" + q + ":" + v) == s4 by {
      Chain(AsWritten, Start, "{" + q + ":", s3, v, s4);
    }
    var s5 := s4.(current := text);
    assert Run(AsWritten, s4, "}") == s5 by { RunOne(AsWritten, s4, '}'); }
    assert Scan(AsWritten, text) == s5 by { Chain(AsWritten, Start, "{" + q + ":" + v, s4, "}", s5); }
    StripKeepsOpening(text);
  }

  /** Under the corrected rule the same text is returned as one object. */
  lemma Rfc8259FindsBackslashObject()
    ensures ExtractJsonObjects(Rfc8259, Serialize(JObject(BackslashObject)))
         == ([Serialize(JObject(BackslashObject))], "")
  {
    var gaps := ["", ""];
    ExtractStream(Rfc8259, gaps, [BackslashObject]);
    var o := Serialize(JObject(BackslashObject));
    assert Stream(gaps, [BackslashObject]) == o by {
      assert Stream(gaps[1..], [BackslashObject][1..]) == "";
      assert "" + o + "" == o;
    }
    assert SerializeAll([BackslashObject]) == [o];
  }

  // ---- carrying the remainder over to the next chunk ----

  /** A step does not look at the objects already found. */
  lemma StepObjects(rule: EscapeRule, s: Scanner, c: char)
    ensures var t := Step(rule, s.(objects := []), c);
      Step(rule, s, c) == t.(objects := s.objects + t.objects)
  {
  }

  /** Reading does not look at the objects already found: it only adds to them. */
  lemma {:induction false} RunObjects(rule: EscapeRule, s: Scanner, text: string)
    ensures var t := Run(rule, s.(objects := []), text);
      Run(rule, s, text) == t.(objects := s.objects + t.objects)
    decreases |text|
  {
    if |text| > 0 {
      var s0 := s.(objects := []);
      StepObjects(rule, s, text[0]);
      var a := Step(rule, s0, text[0]);
      RunObjects(rule, Step(rule, s, text[0]), text[1..]);
      RunObjects(rule, a, text[1..]);
      var t := Run(rule, a.(objects := []), text[1..]);
      assert s.objects + a.objects + t.objects == s.objects + (a.objects + t.objects);
    }
  }

  /** Two states that agree on everything the scanner will look at again: the collected
      text only matters inside an object, since a brace at level 0 replaces it. */
  predicate SameFuture(a: Scanner, b: Scanner) {
    a.objects == b.objects && a.level == b.level && a.inString == b.inString
    && a.escape == b.escape && (a.level > 0 ==> a.current == b.current)
  }

  lemma {:induction false} RunSameFuture(rule: EscapeRule, a: Scanner, b: Scanner, text: string)
    requires SameFuture(a, b)
    ensures SameFuture(Run(rule, a, text), Run(rule, b, text))
    decreases |text|
  {
    if |text| > 0 {
      RunSameFuture(rule, Step(rule, a, text[0]), Step(rule, b, text[0]), text[1..]);
    }
  }

  /** Inside an object, reading the collected text from the start rebuilds the whole state
      apart from the objects already found. */
  lemma {:induction false} CurrentReplays(rule: EscapeRule, text: string)
    ensures var s := Scan(rule, text);
      s.level > 0 ==> Scan(rule, s.current) == s.(objects := [])
    decreases |text|
  {
    if |text| > 0 {
      var t, c := text[..|text| - 1], text[|text| - 1];
      assert text == t + [c];
      var s := Scan(rule, t);
      RunSnoc(rule, Start, t, c);
      RunWf(rule, Start, t);
      var s' := Step(rule, s, c);
      if s'.level > 0 {
        if s.level == 0 {
          RunOne(rule, Start, '{');
        } else {
          CurrentReplays(rule, t);
          RunSnoc(rule, Start, s.current, c);
          StepObjects(rule, s, c);
        }
      }
    }
  }

  /** `handle_client` keeps the remainder as the buffer and appends the next chunk to it.
      Provided the first chunk does not end inside a string outside every object, this
      finds the same objects, and leaves the same remainder, as reading both chunks at
      once. */
  lemma CarryOver(rule: EscapeRule, t: string, u: string)
    requires Scan(rule, t).level > 0 || !Scan(rule, t).inString
    ensures var (found, rest) := ExtractJsonObjects(rule, t);
      ExtractJsonObjects(rule, t + u)
        == (found + ExtractJsonObjects(rule, rest + u).0, ExtractJsonObjects(rule, rest + u).1)
  {
    var s := Scan(rule, t);
    var rest := ExtractJsonObjects(rule, t).1;
    RunAppend(rule, Start, t, u);
    RunAppend(rule, Start, rest, u);
    RunObjects(rule, s, u);
    RemainderShape(rule, t);
    RunWf(rule, Start, t);
    if s.level > 0 {
      CurrentReplays(rule, t);
    } else {
      assert rest + u == u;
      RunSameFuture(rule, s.(objects := []), Start, u);
    }
  }

  /** The proviso matters: after a lone quote outside every object, reading `{}` as part of
      the same text finds nothing, while the carried-over buffer is empty and `{}` alone is
      an object. */
  lemma CarryOverAfterOpenQuote()
    ensures Scan(AsWritten, "\"").level == 0 && Scan(AsWritten, "\"").inString
    ensures ExtractJsonObjects(AsWritten, "\"") == ([], "")
    ensures ExtractJsonObjects(AsWritten, "\"" + "{}") == ([], "")
    ensures ExtractJsonObjects(AsWritten, "" + "{}") == (["{}"], "")
  {
    RunOne(AsWritten, Start, '"');
    var s := Start.(current := "\"", inString := true);
    assert Scan(AsWritten, "\"") == s;
    InStringRun(AsWritten, s, "{}");
    RunAppend(AsWritten, Start, "\"", "{}");
    var r := Scan(AsWritten, "\"" + "{}");
    assert r.objects == [] && r.level == 0;
    TopObjectRun(AsWritten, Start, []);
    assert Serialize(JObject([])) == "{}" by {
      assert SerializeMembers([]) == "";
    }
    assert "" + "{}" == "{}";
    var r2 := Scan(AsWritten, "{}");
    assert r2.objects == ["{}"] && r2.level == 0;
  }

}
