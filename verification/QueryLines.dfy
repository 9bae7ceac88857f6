/** A query file as lines: comments, which may be headers, and lines of query text. */
module QueryLines {
  import opened Basics
  import opened QueryText

  datatype Line = Comment(value: string) | TextLine(value: string)

  predicate IsEol(c: char) {
    c == '\r' || c == '\n'
  }

  /** The length of a line up to its end. */
  function LineSpan(s: string): (n: nat)
    ensures n <= |s|
    ensures n < |s| ==> IsEol(s[n])
    ensures forall i :: 0 <= i < n ==> !IsEol(s[i])
  {
    if s == "" || IsEol(s[0]) then 0 else 1 + LineSpan(s[1..])
  }

  /** The length of the line end at the start of `s`. */
  function EndSpan(s: string): (n: nat)
    ensures n <= |s|
  {
    if s == "" || !IsEol(s[0]) then 0
    else if |s| >= 2 && s[0] == '\r' && s[1] == '\n' then 2
    else 1
  }

  /** A line with its end. */
  function FullSpan(s: string): (n: nat)
    ensures n <= |s| && (s != "" ==> n > 0)
  {
    LineSpan(s) + EndSpan(s[LineSpan(s)..])
  }

  predicate IsComment(s: string) {
    |s| >= 2 && s[0] == '-' && s[1] == '-'
  }

  /** The three alternatives of `line`. Only an end of input is no line. */
  function ParseLine(s: string): (r: Option<Parsed<Line>>)
    ensures r.Some? ==> |r.value.rest| < |s|
    ensures r.None? <==> SkipNul(s) == ""
  {
    var at := SkipNul(s);
    var n := LineSpan(at);
    var e := EndSpan(at[n..]);
    if IsComment(at) && (e > 0 || n == |at|) then Some(Parsed(Comment(at[..n + e]), at[n + e..]))
    else if e > 0 then Some(Parsed(TextLine(at[..n + e]), at[n + e..]))
    else if n > 0 && SkipNul(at[n..]) == "" then Some(Parsed(TextLine(at[..n]), at[n..]))
    else None
  }

  function ParseSomeLines(s: string): Parsed<seq<Line>>
    decreases |s|
  {
    match ParseLine(s)
    case None => Parsed([], s)
    case Some(first) =>
      var others := ParseSomeLines(first.rest);
      Parsed([first.value] + others.value, others.rest)
  }

  /** `conf`: lines to the end of the input. */
  function ParseLines(s: string): Option<seq<Line>> {
    var lines := ParseSomeLines(s);
    if SkipNul(lines.rest) == "" then Some(lines.value) else None
  }

  function Join(lines: seq<Line>): string {
    if lines == [] then "" else lines[0].value + Join(lines[1..])
  }

  /** One line end, and that at the end; or none. */
  predicate Proper(l: Line) {
    && l.value != ""
    && FullSpan(l.value) == |l.value|
    && l.Comment? == IsComment(l.value)
  }

  /** A line is ended before the next begins, and its end does not grow by the next line. */
  predicate Separate(l: Line, next: Line) {
    var n := LineSpan(l.value);
    && n < |l.value|
    && !(l.value[n..] == "\r" && next.value != "" && next.value[0] == '\n')
  }

  predicate Canonical(lines: seq<Line>) {
    lines == [] ||
    (Proper(lines[0]) && (|lines| > 1 ==> Separate(lines[0], lines[1])) && Canonical(lines[1..]))
  }

  // ---------------------------------------------------------------------------------------

  /** Splitting into lines succeeds on every input. */
  lemma {:induction false} LinesAlwaysParse(s: string)
    ensures ParseLines(s).Some?
    decreases |s|
  {
    if ParseLine(s).Some? {
      LinesAlwaysParse(ParseLine(s).value.rest);
    }
  }

  /** The first line of an input without NULs. */
  function LineOf(s: string): Line {
    var value := s[..FullSpan(s)];
    if IsComment(s) then Comment(value) else TextLine(value)
  }

  lemma PlainLine(s: string)
    requires NulFree(s) && s != ""
    ensures ParseLine(s) == Some(Parsed(LineOf(s), s[FullSpan(s)..]))
    ensures NulFree(s[FullSpan(s)..])
  {
    SkipNothing(s);
    NulFreeRest(s, FullSpan(s));
  }

  lemma LinesStep(s: string, rest: string)
    requires NulFree(s) && s != "" && rest == s[FullSpan(s)..]
    ensures ParseSomeLines(s) == Parsed([LineOf(s)] + ParseSomeLines(rest).value, ParseSomeLines(rest).rest)
  {
    PlainLine(s);
  }

  lemma JoinStep(l: Line, lines: seq<Line>)
    ensures Join([l] + lines) == l.value + Join(lines)
  {
    assert ([l] + lines)[1..] == lines;
  }

  /** The lines of an input without NULs concatenate back to it. */
  lemma {:induction false} LinesLossless(s: string)
    requires NulFree(s)
    ensures Join(ParseSomeLines(s).value) == s && ParseSomeLines(s).rest == ""
    decreases |s|
  {
    if s == "" {
    } else {
      var rest := s[FullSpan(s)..];
      NulFreeRest(s, FullSpan(s));
      LinesStep(s, rest);
      LinesLossless(rest);
      JoinStep(LineOf(s), ParseSomeLines(rest).value);
      SplitAt(s, FullSpan(s));
    }
  }

  lemma {:induction false} LineSpanIs(s: string, n: nat)
    requires n <= |s| && (n < |s| ==> IsEol(s[n])) && forall i :: 0 <= i < n ==> !IsEol(s[i])
    ensures LineSpan(s) == n
  {
    if n == 0 {
    } else {
      LineSpanIs(s[1..], n - 1);
    }
  }

  /** The first line taken alone. */
  lemma FirstLine(s: string)
    requires s != ""
    ensures FullSpan(s[..FullSpan(s)]) == FullSpan(s)
    ensures FullSpan(s) < |s| ==> LineSpan(s[..FullSpan(s)]) < FullSpan(s)
    ensures IsComment(s[..FullSpan(s)]) == IsComment(s)
    ensures FullSpan(s) < |s| ==>
              !(s[..FullSpan(s)][LineSpan(s[..FullSpan(s)])..] == "\r" && s[FullSpan(s)] == '\n')
  {
    var n, f := LineSpan(s), FullSpan(s);
    LineSpanIs(s[..f], n);
    assert s[..f][n..] == s[n..f];
  }

  lemma {:induction false} ParsedLinesAreCanonical(s: string)
    requires NulFree(s)
    ensures Canonical(ParseSomeLines(s).value)
    decreases |s|
  {
    if s == "" {
    } else {
      var rest := s[FullSpan(s)..];
      NulFreeRest(s, FullSpan(s));
      LinesStep(s, rest);
      FirstLine(s);
      ParsedLinesAreCanonical(rest);
      var others := ParseSomeLines(rest).value;
      assert ([LineOf(s)] + others)[1..] == others;
      if rest != "" {
        PlainLine(rest);
      }
    }
  }

  /** A canonical first line is found again, whatever canonical lines follow. */
  lemma FirstLineAgain(l: Line, rest: string)
    requires Proper(l)
    requires rest != "" ==> LineSpan(l.value) < |l.value| && !(l.value[LineSpan(l.value)..] == "\r" && rest[0] == '\n')
    ensures FullSpan(l.value + rest) == |l.value| && IsComment(l.value + rest) == l.Comment?
  {
    var s, n := l.value + rest, LineSpan(l.value);
    if rest == "" {
      assert s == l.value;
    } else {
      LineSpanIs(s, n);
      assert s[n..] == l.value[n..] + rest;
    }
  }

  lemma {:induction false} ParseJoined(lines: seq<Line>)
    requires Canonical(lines) && NulFree(Join(lines))
    ensures ParseSomeLines(Join(lines)) == Parsed(lines, "")
  {
    if lines == [] {
    } else {
      var s, l, rest := Join(lines), lines[0], Join(lines[1..]);
      FirstLineAgain(l, rest);
      assert s[..|l.value|] == l.value && s[|l.value|..] == rest;
      NulFreeRest(s, |l.value|);
      assert LineOf(s) == l;
      LinesStep(s, rest);
      ParseJoined(lines[1..]);
      HeadAndTail(lines);
    }
  }

  /** On input without NULs, splitting into lines and joining canonical lines are inverse to each other. */
  lemma SplitsExactlyWhen(s: string, lines: seq<Line>)
    requires NulFree(s)
    ensures ParseLines(s) == Some(lines) <==> Canonical(lines) && Join(lines) == s
  {
    LinesLossless(s);
    ParsedLinesAreCanonical(s);
    if Canonical(lines) && Join(lines) == s {
      ParseJoined(lines);
    }
  }

  lemma LineKeeps(s: string)
    requires ParseLine(s).Some?
    ensures DropNul(ParseLine(s).value.value.value) + DropNul(ParseLine(s).value.rest) == DropNul(s)
  {
    var at := SkipNul(s);
    var l := ParseLine(s).value.value.value;
    DropNulSkip(s);
    SplitAt(at, |l|);
    assert at[..|l|] == l && at[|l|..] == ParseLine(s).value.rest;
    DropNulConcat(l, at[|l|..]);
  }

  /** Whatever the input, its lines lose nothing of it but NULs. */
  lemma {:induction false} LinesKeepAllButNuls(s: string)
    ensures DropNul(Join(ParseSomeLines(s).value)) + DropNul(ParseSomeLines(s).rest) == DropNul(s)
    decreases |s|
  {
    if ParseLine(s).Some? {
      LineKeeps(s);
      var first := ParseLine(s).value;
      LinesKeepAllButNuls(first.rest);
      var others := ParseSomeLines(first.rest);
      JoinStep(first.value, others.value);
      DropNulConcat(first.value.value, Join(others.value));
    }
  }

  // ---------------------------------------------------------------------------------------
  // Headers

  predicate IsSpace(c: char) {
    c == ' ' || c == '\t' || c == '\n' || c == '\r' || c == '\U{0B}' || c == '\U{0C}'
  }

  /** Any number of spaces, with NULs skipped before and after each. */
  function SkipSpaces(s: string): (r: string)
    ensures |r| <= |s| && (r == "" || (r[0] != '\0' && !IsSpace(r[0])))
  {
    if s != "" && (s[0] == '\0' || IsSpace(s[0])) then SkipSpaces(s[1..]) else s
  }

  /** `s` without `token` in front of it. */
  function After(s: string, token: string): (r: Option<string>)
    ensures r.Some? ==> s == token + r.value
  {
    if token <= s then Some(s[|token|..]) else None
  }

  /** What follows `token`, with any spaces before it. */
  function AfterSpaces(s: string, token: string): Option<string> {
    After(SkipSpaces(s), token)
  }

  /** The name goes on to the end of the line, spaces included. */
  function ParseQueryName(s: string): Option<string> {
    var d := SkipSpaces(s);
    var n := LineSpan(d);
    var e := SkipNul(d[n..]);
    if n > 0 && SkipNul(e[EndSpan(e)..]) == "" then Some(d[..n]) else None
  }

  function ParseHeader(s: string): Option<string> {
    match After(SkipNul(s), "--")
    case None => None
    case Some(a) =>
      match AfterSpaces(a, "name")
      case None => None
      case Some(b) =>
        match AfterSpaces(b, ":")
        case None => None
        case Some(c) => ParseQueryName(c)
  }

  predicate AllSpaces(s: string) {
    forall i :: 0 <= i < |s| ==> IsSpace(s[i])
  }

  predicate IsQueryName(name: string) {
    name != "" && !IsSpace(name[0]) && LineSpan(name) == |name|
  }

  predicate IsEnd(s: string) {
    s == "" || s == "\n" || s == "\r" || s == "\r\n"
  }

  function Header(a: string, b: string, c: string, name: string, end: string): string {
    "--" + (a + ("name" + (b + (":" + (c + (name + end))))))
  }

  lemma {:induction false} SkipSpacesOf(a: string, rest: string)
    requires AllSpaces(a) && (rest == "" || (rest[0] != '\0' && !IsSpace(rest[0])))
    ensures SkipSpaces(a + rest) == rest
  {
    if a == "" {
      assert a + rest == rest;
    } else {
      assert (a + rest)[1..] == a[1..] + rest;
      SkipSpacesOf(a[1..], rest);
    }
  }

  lemma AfterSpacesOf(a: string, token: string, rest: string)
    requires AllSpaces(a) && token != "" && token[0] != '\0' && !IsSpace(token[0])
    ensures AfterSpaces(a + (token + rest), token) == Some(rest)
  {
    SkipSpacesOf(a, token + rest);
    assert (token + rest)[..|token|] == token && (token + rest)[|token|..] == rest;
  }

  lemma ParseQueryNameOf(c: string, name: string, end: string)
    requires AllSpaces(c) && IsQueryName(name) && NulFree(name) && IsEnd(end)
    ensures ParseQueryName(c + (name + end)) == Some(name)
  {
    assert name[0] in name;
    SkipSpacesOf(c, name + end);
    NameToEnd(name, end);
  }

  /** A comment of this form is a header. */
  lemma HeaderParses(a: string, b: string, c: string, name: string, end: string)
    requires AllSpaces(a) && AllSpaces(b) && AllSpaces(c) && IsQueryName(name) && NulFree(name) && IsEnd(end)
    ensures ParseHeader(Header(a, b, c, name, end)) == Some(name)
  {
    var toName := c + (name + end);
    var toColon := b + (":" + toName);
    var s := Header(a, b, c, name, end);
    assert s[2..] == a + ("name" + toColon);
    AfterSpacesOf(a, "name", toColon);
    AfterSpacesOf(b, ":", toName);
    ParseQueryNameOf(c, name, end);
  }

  lemma NameToEnd(name: string, end: string)
    requires IsQueryName(name) && IsEnd(end)
    ensures LineSpan(name + end) == |name| && (name + end)[..|name|] == name && (name + end)[|name|..] == end
    ensures SkipNul(end) == end && end[EndSpan(end)..] == ""
  {
    LineSpanIs(name + end, |name|);
  }

  lemma {:induction false} SpacesSkipped(s: string) returns (a: string)
    requires NulFree(s)
    ensures AllSpaces(a) && s == a + SkipSpaces(s) && NulFree(SkipSpaces(s))
  {
    if s != "" && IsSpace(s[0]) {
      NulFreeRest(s, 1);
      var others := SpacesSkipped(s[1..]);
      a := [s[0]] + others;
      assert s == [s[0]] + s[1..];
    } else {
      a := "";
      assert s != "" ==> s[0] in s;
      assert a + s == s;
    }
  }

  lemma NulFreeAfter(s: string, token: string)
    requires NulFree(s) && After(s, token).Some?
    ensures NulFree(After(s, token).value)
  {
    NulFreeRest(s, |token|);
  }

  lemma NameForm(d: string)
    requires NulFree(d) && LineSpan(d) > 0 && (d == "" || !IsSpace(d[0]))
    requires var e := SkipNul(d[LineSpan(d)..]); SkipNul(e[EndSpan(e)..]) == ""
    ensures IsQueryName(d[..LineSpan(d)]) && IsEnd(d[LineSpan(d)..]) && d == d[..LineSpan(d)] + d[LineSpan(d)..]
  {
    var n := LineSpan(d);
    var e := d[n..];
    NulFreeRest(d, n);
    SkipNothing(e);
    NulFreeRest(e, EndSpan(e));
    SkipNothing(e[EndSpan(e)..]);
    LineSpanIs(d[..n], n);
    if |e| == 1 {
      assert e == [e[0]];
    } else if |e| == 2 {
      assert e == [e[0], e[1]];
    }
  }

  /** Without NULs, a comment that is a header has this form. */
  lemma HeaderForm(s: string) returns (a: string, b: string, c: string, end: string)
    requires NulFree(s) && ParseHeader(s).Some?
    ensures AllSpaces(a) && AllSpaces(b) && AllSpaces(c) && IsEnd(end)
    ensures IsQueryName(ParseHeader(s).value) && s == Header(a, b, c, ParseHeader(s).value, end)
  {
    SkipNothing(s);
    var s1 := After(s, "--").value;
    NulFreeAfter(s, "--");
    a := SpacesSkipped(s1);
    var s2 := After(SkipSpaces(s1), "name").value;
    NulFreeAfter(SkipSpaces(s1), "name");
    b := SpacesSkipped(s2);
    var s3 := After(SkipSpaces(s2), ":").value;
    NulFreeAfter(SkipSpaces(s2), ":");
    c := SpacesSkipped(s3);
    var d := SkipSpaces(s3);
    end := d[LineSpan(d)..];
    NameForm(d);
  }
}
