/** The text of a query: plain parts and `:name` parameters, as the text grammar of query files reads them. */
module QueryText {
  import opened Basics

  datatype Part = Text(value: string) | Param(name: string)

  datatype Parsed<+T> = Parsed(value: T, rest: string)

  predicate IsNameChar(c: char) {
    c == '_' || '0' <= c <= '9' || 'A' <= c <= 'Z' || 'a' <= c <= 'z'
  }

  predicate IsPlain(c: char) {
    c != ':' && c != '\0'
  }

  predicate NulFree(s: string) {
    '\0' !in s
  }

  /** The skipper: NULs before a token count for nothing. */
  function SkipNul(s: string): (r: string)
    ensures |r| <= |s| && (r == "" || r[0] != '\0')
  {
    if s != "" && s[0] == '\0' then SkipNul(s[1..]) else s
  }

  function NameSpan(s: string): (n: nat)
    ensures n <= |s|
  {
    if s != "" && IsNameChar(s[0]) then 1 + NameSpan(s[1..]) else 0
  }

  function PlainSpan(s: string): (n: nat)
    ensures n <= |s|
  {
    if s != "" && IsPlain(s[0]) then 1 + PlainSpan(s[1..]) else 0
  }

  // ---------------------------------------------------------------------------------------
  // The grammar

  /** `parameter_name`: a colon and a name, NULs skipped before either. */
  function ParseParam(s: string): (r: Option<Parsed<string>>)
    ensures r.Some? ==> |r.value.rest| < |s|
  {
    var at := SkipNul(s);
    if at == "" || at[0] != ':' then None
    else
      var name := SkipNul(at[1..]);
      var n := NameSpan(name);
      if n == 0 then None else Some(Parsed(name[..n], name[n..]))
  }

  /** One lexeme of `text_part`: a doubled colon, an assignment sign, or a run without colons. */
  function ParseChunk(s: string): (r: Option<Parsed<string>>)
    ensures r.Some? ==> |r.value.rest| < |s|
  {
    var at := SkipNul(s);
    if |at| >= 2 && at[0] == ':' && (at[1] == ':' || at[1] == '=') then Some(Parsed(at[..2], at[2..]))
    else
      var n := PlainSpan(at);
      if n == 0 then None else Some(Parsed(at[..n], at[n..]))
  }

  function ParseChunks(s: string): (r: Parsed<string>)
    ensures |r.rest| <= |s| && (ParseChunk(s).Some? ==> |r.rest| < |s|)
    decreases |s|
  {
    match ParseChunk(s)
    case None => Parsed("", s)
    case Some(first) =>
      var others := ParseChunks(first.rest);
      Parsed(first.value + others.value, others.rest)
  }

  /** Parameters first, then text, as long as either matches. */
  function ParseParts(s: string): Parsed<seq<Part>>
    decreases |s|
  {
    match ParseParam(s)
    case Some(name) =>
      var others := ParseParts(name.rest);
      Parsed([Param(name.value)] + others.value, others.rest)
    case None =>
      if ParseChunk(s).None? then Parsed([], s)
      else
        var text := ParseChunks(s);
        var others := ParseParts(text.rest);
        Parsed([Text(text.value)] + others.value, others.rest)
  }

  function ParseText(s: string): Option<seq<Part>> {
    var parts := ParseParts(s);
    if SkipNul(parts.rest) == "" then Some(parts.value) else None
  }

  // ---------------------------------------------------------------------------------------
  // Printing

  function PrintPart(p: Part): string {
    match p
    case Text(t) => t
    case Param(n) => ":" + n
  }

  function Print(ps: seq<Part>): string {
    if ps == [] then "" else PrintPart(ps[0]) + Print(ps[1..])
  }

  function DropNul(s: string): (r: string)
    ensures NulFree(r)
  {
    if s == "" then "" else if s[0] == '\0' then DropNul(s[1..]) else [s[0]] + DropNul(s[1..])
  }

  lemma {:induction false} DropNulOfNulFree(s: string)
    requires NulFree(s)
    ensures DropNul(s) == s
  {
    if s == "" {
    } else {
      assert forall c :: c in s[1..] ==> c in s;
      DropNulOfNulFree(s[1..]);
    }
  }

  lemma {:induction false} DropNulConcat(a: string, b: string)
    ensures DropNul(a + b) == DropNul(a) + DropNul(b)
  {
    if a == "" {
      assert a + b == b;
    } else {
      DropNulConcat(a[1..], b);
      CutConcat(a, b, 1);
    }
  }

  lemma {:induction false} DropNulSkip(s: string)
    ensures DropNul(SkipNul(s)) == DropNul(s)
  {
    if s != "" && s[0] == '\0' {
      DropNulSkip(s[1..]);
    }
  }

  lemma {:induction false} NameSpanMeaning(s: string)
    ensures forall i :: 0 <= i < NameSpan(s) ==> IsNameChar(s[i])
    ensures NameSpan(s) < |s| ==> !IsNameChar(s[NameSpan(s)])
  {
    if s != "" && IsNameChar(s[0]) {
      NameSpanMeaning(s[1..]);
    }
  }

  lemma {:induction false} PlainSpanMeaning(s: string)
    ensures forall i :: 0 <= i < PlainSpan(s) ==> IsPlain(s[i])
    ensures PlainSpan(s) < |s| ==> !IsPlain(s[PlainSpan(s)])
  {
    if s != "" && IsPlain(s[0]) {
      PlainSpanMeaning(s[1..]);
    }
  }

  /** A token without NULs, and what follows it. */
  lemma TokenLossless(at: string, n: nat)
    requires n <= |at| && NulFree(at[..n])
    ensures at[..n] + DropNul(at[n..]) == DropNul(at)
  {
    assert at == at[..n] + at[n..];
    DropNulConcat(at[..n], at[n..]);
    DropNulOfNulFree(at[..n]);
  }

  lemma ParamLossless(s: string)
    requires ParseParam(s).Some?
    ensures ":" + ParseParam(s).value.value + DropNul(ParseParam(s).value.rest) == DropNul(s)
  {
    var at := SkipNul(s);
    var name := SkipNul(at[1..]);
    var n := NameSpan(name);
    NameSpanMeaning(name);
    TokenLossless(name, n);
    DropNulSkip(at[1..]);
    TokenLossless(at, 1);
    DropNulSkip(s);
    assert at[..1] == ":";
    assert ":" + name[..n] + DropNul(name[n..]) == ":" + (name[..n] + DropNul(name[n..]));
  }

  lemma ChunkLossless(s: string)
    requires ParseChunk(s).Some?
    ensures ParseChunk(s).value.value + DropNul(ParseChunk(s).value.rest) == DropNul(s)
  {
    var at := SkipNul(s);
    PlainSpanMeaning(at);
    DropNulSkip(s);
    TokenLossless(at, |ParseChunk(s).value.value|);
  }

  lemma {:induction false} ChunksLossless(s: string)
    ensures ParseChunks(s).value + DropNul(ParseChunks(s).rest) == DropNul(s)
    decreases |s|
  {
    if ParseChunk(s).Some? {
      ChunkLossless(s);
      var first := ParseChunk(s).value;
      ChunksLossless(first.rest);
      var others := ParseChunks(first.rest);
      assert first.value + others.value + DropNul(others.rest) == first.value + (others.value + DropNul(others.rest));
    }
  }

  lemma {:induction false} PartsLossless(s: string)
    ensures Print(ParseParts(s).value) + DropNul(ParseParts(s).rest) == DropNul(s)
    decreases |s|
  {
    var r := ParseParts(s);
    if ParseParam(s).Some? {
      ParamLossless(s);
      var first := ParseParam(s).value;
      PartsLossless(first.rest);
      PrintFirst(Param(first.value), ParseParts(first.rest).value, DropNul(r.rest));
    } else if ParseChunk(s).Some? {
      ChunksLossless(s);
      var first := ParseChunks(s);
      PartsLossless(first.rest);
      PrintFirst(Text(first.value), ParseParts(first.rest).value, DropNul(r.rest));
    }
  }

  lemma PrintFirst(p: Part, ps: seq<Part>, rest: string)
    ensures Print([p] + ps) + rest == PrintPart(p) + (Print(ps) + rest)
  {
    assert ([p] + ps)[1..] == ps;
  }

  /** Whenever a text parses, printing the parts restores all of it but its NULs. */
  lemma ParseTextLossless(s: string)
    requires ParseText(s).Some?
    ensures Print(ParseText(s).value) == DropNul(s)
  {
    PartsLossless(s);
    DropNulSkip(ParseParts(s).rest);
  }

  // ---------------------------------------------------------------------------------------
  // Canonical part sequences

  predicate IsName(n: string) {
    n != "" && forall i :: 0 <= i < |n| ==> IsNameChar(n[i])
  }

  /** Colons occur only doubled or before an equals sign. */
  predicate Colons(t: string) {
    t == "" ||
    if t[0] == ':' then |t| >= 2 && (t[1] == ':' || t[1] == '=') && Colons(t[2..])
    else IsPlain(t[0]) && Colons(t[1..])
  }

  predicate Proper(p: Part) {
    match p
    case Text(t) => t != "" && Colons(t)
    case Param(n) => IsName(n)
  }

  /** Text does not follow text, nor go on where a parameter name might. */
  predicate MayFollow(p: Part, q: Part) {
    match q
    case Param(_) => true
    case Text(t) => p.Param? && t != "" && !IsNameChar(t[0])
  }

  predicate Canonical(ps: seq<Part>) {
    ps == [] || (Proper(ps[0]) && (|ps| > 1 ==> MayFollow(ps[0], ps[1])) && Canonical(ps[1..]))
  }

  /** What may come after a text part: nothing, or a parameter. */
  predicate Stop(s: string) {
    s == "" || (|s| >= 2 && s[0] == ':' && IsNameChar(s[1]))
  }

  lemma {:induction false} NameSpanOf(n: string, rest: string)
    requires forall i :: 0 <= i < |n| ==> IsNameChar(n[i])
    requires rest == "" || !IsNameChar(rest[0])
    ensures NameSpan(n + rest) == |n|
  {
    if n == "" {
      assert n + rest == rest;
    } else {
      assert (n + rest)[1..] == n[1..] + rest;
      NameSpanOf(n[1..], rest);
    }
  }

  lemma ParseParamOf(n: string, rest: string)
    requires IsName(n) && (rest == "" || !IsNameChar(rest[0]))
    ensures ParseParam(":" + n + rest) == Some(Parsed(n, rest))
  {
    var s := ":" + n + rest;
    assert s[1..] == n + rest;
    assert (n + rest)[0] == n[0];
    NameSpanOf(n, rest);
    assert (n + rest)[..|n|] == n && (n + rest)[|n|..] == rest;
  }

  /** A parameter is a colon and the longest run of letters, digits and underscores after it. */
  lemma ParamIsLongestWord(n: string, rest: string)
    requires n != ""
    requires forall i :: 0 <= i < |n| ==>
               n[i] == '_' || '0' <= n[i] <= '9' || 'A' <= n[i] <= 'Z' || 'a' <= n[i] <= 'z'
    requires rest != "" ==>
               !(rest[0] == '_' || '0' <= rest[0] <= '9' || 'A' <= rest[0] <= 'Z' || 'a' <= rest[0] <= 'z')
    ensures ParseParam(":" + n + rest) == Some(Parsed(n, rest))
  {
    ParseParamOf(n, rest);
  }

  lemma {:induction false} PlainRun(t: string, rest: string)
    requires Colons(t) && Stop(rest)
    ensures PlainSpan(t + rest) == PlainSpan(t) && Colons(t[PlainSpan(t)..])
  {
    if t == "" {
      assert t + rest == rest;
    } else if t[0] != ':' {
      assert (t + rest)[1..] == t[1..] + rest;
      PlainRun(t[1..], rest);
      assert t[1..][PlainSpan(t[1..])..] == t[PlainSpan(t)..];
    }
  }

  function FirstChunk(t: string): nat
    requires t != ""
  {
    if t[0] == ':' then 2 else PlainSpan(t)
  }

  lemma CutConcat(t: string, rest: string, n: nat)
    requires n <= |t|
    ensures (t + rest)[..n] == t[..n] && (t + rest)[n..] == t[n..] + rest
  {
  }

  lemma ColonChunk(s: string)
    requires |s| >= 2 && s[0] == ':' && (s[1] == ':' || s[1] == '=')
    ensures ParseChunk(s) == Some(Parsed(s[..2], s[2..]))
  {
    assert SkipNul(s) == s;
  }

  lemma PlainChunk(s: string)
    requires s != "" && IsPlain(s[0])
    ensures PlainSpan(s) > 0 && ParseChunk(s) == Some(Parsed(s[..PlainSpan(s)], s[PlainSpan(s)..]))
  {
    assert SkipNul(s) == s;
  }

  lemma ParseChunkOf(t: string, rest: string)
    requires t != "" && Colons(t) && Stop(rest)
    ensures 0 < FirstChunk(t) <= |t| && Colons(t[FirstChunk(t)..])
    ensures ParseChunk(t + rest) == Some(Parsed(t[..FirstChunk(t)], t[FirstChunk(t)..] + rest))
  {
    if t[0] == ':' {
      ColonChunk(t + rest);
    } else {
      PlainChunk(t + rest);
      PlainRun(t, rest);
    }
    CutConcat(t, rest, FirstChunk(t));
  }

  lemma ChunksStep(s: string, first: string, rest: string)
    requires ParseChunk(s) == Some(Parsed(first, rest))
    ensures ParseChunks(s) == Parsed(first + ParseChunks(rest).value, ParseChunks(rest).rest)
  {
  }

  lemma NoChunk(rest: string)
    requires Stop(rest)
    ensures ParseChunk(rest).None?
  {
    assert SkipNul(rest) == rest;
  }

  lemma {:induction false} ParseChunksOf(t: string, rest: string)
    requires Colons(t) && Stop(rest)
    ensures ParseChunks(t + rest) == Parsed(t, rest)
    decreases |t|
  {
    if t == "" {
      assert t + rest == rest;
      NoChunk(rest);
    } else {
      var n := FirstChunk(t);
      ParseChunkOf(t, rest);
      ParseChunksOf(t[n..], rest);
      ChunksStep(t + rest, t[..n], t[n..] + rest);
      SplitAt(t, n);
    }
  }

  lemma NoParam(t: string, rest: string)
    requires t != "" && Colons(t)
    ensures ParseParam(t + rest).None? && ParseChunk(t + rest).Some?
  {
    var s := t + rest;
    assert s[0] == t[0];
    if t[0] == ':' {
      assert s[1] == t[1];
      assert s[1..][0] == t[1];
    }
  }

  lemma PrintedHead(ps: seq<Part>)
    requires Canonical(ps)
    ensures ps == [] ==> Print(ps) == ""
    ensures ps != [] && ps[0].Param? ==> Stop(Print(ps)) && Print(ps) != ""
    ensures ps != [] && ps[0].Text? ==> Print(ps) != "" && Print(ps)[0] == ps[0].value[0]
  {
  }

  /** Parsing the print of canonical parts gives these parts. */
  lemma {:induction false} ParsePrinted(ps: seq<Part>)
    requires Canonical(ps)
    ensures ParseParts(Print(ps)) == Parsed(ps, "")
  {
    if ps == [] {
    } else {
      var rest := Print(ps[1..]);
      PrintedHead(ps[1..]);
      ParsePrinted(ps[1..]);
      match ps[0]
      case Param(n) =>
        ParseParamOf(n, rest);
        assert Print(ps) == ":" + n + rest;
        HeadAndTail(ps);
      case Text(t) =>
        NoParam(t, rest);
        ParseChunksOf(t, rest);
        assert Print(ps) == t + rest;
        HeadAndTail(ps);
    }
  }

  // ---------------------------------------------------------------------------------------
  // What the parser gives is canonical

  lemma {:induction false} ColonsOfPlain(a: string, b: string)
    requires (forall i :: 0 <= i < |a| ==> IsPlain(a[i])) && Colons(b)
    ensures Colons(a + b)
  {
    if a == "" {
      assert a + b == b;
    } else {
      assert (a + b)[1..] == a[1..] + b;
      ColonsOfPlain(a[1..], b);
    }
  }

  lemma {:induction false} ChunksAreProper(s: string)
    ensures var r := ParseChunks(s);
            && Colons(r.value) && ParseChunk(r.rest).None?
            && (ParseChunk(s).Some? ==> r.value != "" && r.value[0] == SkipNul(s)[0])
    decreases |s|
  {
    if ParseChunk(s).Some? {
      var first := ParseChunk(s).value;
      var others := ParseChunks(first.rest).value;
      ChunksAreProper(first.rest);
      PlainSpanMeaning(SkipNul(s));
      if first.value[0] == ':' {
        assert (first.value + others)[2..] == others;
      } else {
        ColonsOfPlain(first.value, others);
      }
    }
  }

  lemma SkipNothing(s: string)
    requires NulFree(s)
    ensures SkipNul(s) == s
  {
    assert s != "" ==> s[0] in s;
  }

  lemma NulFreeRest(s: string, n: nat)
    requires NulFree(s) && n <= |s|
    ensures NulFree(s[n..])
  {
    assert forall c :: c in s[n..] ==> c in s;
  }

  lemma {:induction false} ChunksRest(s: string)
    requires NulFree(s)
    ensures NulFree(ParseChunks(s).rest)
    decreases |s|
  {
    if ParseChunk(s).Some? {
      SkipNothing(s);
      NulFreeRest(s, |ParseChunk(s).value.value|);
      ChunksRest(ParseChunk(s).value.rest);
    }
  }

  lemma ParamIsProper(s: string)
    requires NulFree(s) && ParseParam(s).Some?
    ensures var r := ParseParam(s).value;
            IsName(r.value) && NulFree(r.rest) && (r.rest == "" || !IsNameChar(r.rest[0]))
  {
    SkipNothing(s);
    NulFreeRest(s, 1);
    SkipNothing(s[1..]);
    NameSpanMeaning(s[1..]);
    NulFreeRest(s[1..], NameSpan(s[1..]));
  }

  /** How the parts of `s` begin. */
  lemma FirstPart(s: string)
    ensures var ps := ParseParts(s).value;
            ps != [] && ps[0].Text? ==>
              ParseChunk(s).Some? && ps[0].value != "" && ps[0].value[0] == SkipNul(s)[0]
  {
    ChunksAreProper(s);
  }

  lemma {:induction false} ParsedIsCanonical(s: string)
    requires NulFree(s)
    ensures Canonical(ParseParts(s).value)
    decreases |s|
  {
    var ps := ParseParts(s).value;
    if ParseParam(s).Some? {
      ParamIsProper(s);
      var rest := ParseParam(s).value.rest;
      ParsedIsCanonical(rest);
      FirstPart(rest);
      SkipNothing(rest);
      assert ps[1..] == ParseParts(rest).value;
    } else if ParseChunk(s).Some? {
      ChunksAreProper(s);
      ChunksRest(s);
      var rest := ParseChunks(s).rest;
      ParsedIsCanonical(rest);
      FirstPart(rest);
      assert ps[1..] == ParseParts(rest).value;
    }
  }

  /** On text without NULs, parsing and printing canonical parts are inverse to each other. */
  lemma ParsesExactlyWhen(s: string, ps: seq<Part>)
    requires NulFree(s)
    ensures ParseText(s) == Some(ps) <==> Canonical(ps) && Print(ps) == s
  {
    if ParseText(s) == Some(ps) {
      ParseTextLossless(s);
      DropNulOfNulFree(s);
      ParsedIsCanonical(s);
    }
    if Canonical(ps) && Print(ps) == s {
      ParsePrinted(ps);
    }
  }
}
