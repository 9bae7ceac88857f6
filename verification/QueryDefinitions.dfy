/** What the lines of a query file mean as a whole: where each definition starts, and which lines belong to it. */
module QueryDefinitions {
  import opened Basics
  import QueryText
  import opened QueryLines
  import opened QueryRepository

  predicate IsHeader(line: Line) {
    line.Comment? && ParseHeader(line.value).Some?
  }

  /** The positions of the header lines. */
  function Headers(lines: seq<Line>): seq<nat> {
    if lines == [] then []
    else
      var n := |lines| - 1;
      Headers(lines[..n]) + if IsHeader(lines[n]) then [n] else []
  }

  predicate Parsable(line: Line) {
    line.TextLine? ==> QueryText.ParseText(line.value).Some?
  }

  /** The parts a line adds to its definition; a comment adds none. */
  function PartsOf(line: Line): seq<Part> {
    if line.Comment? then []
    else
      match QueryText.ParseText(line.value)
      case None => []
      case Some(parts) => parts
  }

  function Parts(lines: seq<Line>): seq<Part> {
    if lines == [] then []
    else
      var n := |lines| - 1;
      Parts(lines[..n]) + PartsOf(lines[n])
  }

  /** Line `p` is text, and no header comes before it. */
  predicate Headless(lines: seq<Line>, p: nat) {
    p < |lines| && lines[p].TextLine? && forall q :: 0 <= q < p ==> !IsHeader(lines[q])
  }

  predicate Unparsable(lines: seq<Line>, p: nat) {
    p < |lines| && !Parsable(lines[p])
  }

  lemma {:induction false} HeaderListed(lines: seq<Line>, p: nat)
    ensures p in Headers(lines) <==> p < |lines| && IsHeader(lines[p])
  {
    if lines == [] {
    } else {
      HeaderListed(lines[..|lines| - 1], p);
    }
  }

  /** The header positions, in order, each once. */
  lemma {:induction false} HeadersMeaning(lines: seq<Line>)
    ensures Increasing(Headers(lines))
    ensures forall p: nat :: p in Headers(lines) <==> p < |lines| && IsHeader(lines[p])
  {
    forall p: nat ensures p in Headers(lines) <==> p < |lines| && IsHeader(lines[p]) {
      HeaderListed(lines, p);
    }
    if lines == [] {
    } else {
      var hs := Headers(lines[..|lines| - 1]);
      HeadersMeaning(lines[..|lines| - 1]);
      assert forall i :: 0 <= i < |hs| ==> hs[i] in hs;
    }
  }

  /** Where the lines of definition `i` end: at the next header, or with the file. */
  function EndOf(lines: seq<Line>, hs: seq<nat>, i: nat): nat {
    if i + 1 < |hs| then hs[i + 1] else |lines|
  }

  /** Definition `i` is that of the header at `from`, with the text of the lines up to `to`. */
  ghost predicate Covers(lines: seq<Line>, from: nat, to: nat, d: Definition) {
    && from < to <= |lines| && IsHeader(lines[from])
    && d.name == ParseHeader(lines[from].value).value
    && d.text == Parts(lines[from + 1..to])
  }

  ghost predicate CoversAll(lines: seq<Line>, defs: seq<Definition>) {
    var hs := Headers(lines);
    |defs| == |hs| && forall i :: 0 <= i < |hs| ==> Covers(lines, hs[i], EndOf(lines, hs, i), defs[i])
  }

  lemma {:induction false} VisitLast(ds: seq<Definition>, lines: seq<Line>)
    requires lines != []
    ensures var before := VisitAll(ds, lines[..|lines| - 1]);
            VisitAll(ds, lines) == if before.Ok? then Visit(before.value, lines[|lines| - 1]) else before
    decreases |lines|
  {
    var n := |lines| - 1;
    if n > 0 && Visit(ds, lines[0]).Ok? {
      VisitLast(Visit(ds, lines[0]).value, lines[1..]);
      assert lines[..n][1..] == lines[1..][..n - 1];
      assert lines[..n][0] == lines[0] && lines[1..][n - 1] == lines[n];
    }
  }

  /** A line that is no header goes to the last definition. */
  lemma ToTheLast(lines: seq<Line>, from: nat, d: Definition, last: Line)
    requires Covers(lines, from, |lines|, d)
    ensures Covers(lines + [last], from, |lines| + 1, Definition(d.name, d.text + PartsOf(last)))
  {
    var mine := (lines + [last])[from + 1..|lines| + 1];
    assert mine[..|mine| - 1] == lines[from + 1..|lines|] && mine[|mine| - 1] == last;
  }

  lemma Stays(lines: seq<Line>, from: nat, to: nat, d: Definition, last: Line)
    requires Covers(lines, from, to, d)
    ensures Covers(lines + [last], from, to, d)
  {
    assert (lines + [last])[from + 1..to] == lines[from + 1..to];
  }

  lemma HeadersOneMore(lines: seq<Line>, last: Line)
    ensures Headers(lines + [last]) == Headers(lines) + if IsHeader(last) then [|lines|] else []
  {
    assert (lines + [last])[..|lines|] == lines;
  }

  lemma HeaderVisited(lines: seq<Line>, defs: seq<Definition>, last: Line)
    requires CoversAll(lines, defs) && IsHeader(last)
    ensures Visit(defs, last).Ok? && CoversAll(lines + [last], Visit(defs, last).value)
  {
    var hs, all := Headers(lines), lines + [last];
    HeadersOneMore(lines, last);
    assert all[|lines| + 1..|all|] == [];
    forall i | 0 <= i < |hs|
      ensures Covers(all, hs[i], EndOf(all, Headers(all), i), defs[i])
    {
      Stays(lines, hs[i], EndOf(lines, hs, i), defs[i], last);
    }
  }

  lemma OtherVisited(lines: seq<Line>, defs: seq<Definition>, last: Line)
    requires CoversAll(lines, defs) && !IsHeader(last) && Parsable(last) && (last.TextLine? ==> defs != [])
    ensures Visit(defs, last).Ok? && CoversAll(lines + [last], Visit(defs, last).value)
  {
    var hs, all, next := Headers(lines), lines + [last], Visit(defs, last).value;
    HeadersOneMore(lines, last);
    forall i | 0 <= i < |hs|
      ensures Covers(all, hs[i], EndOf(all, hs, i), next[i])
    {
      if i + 1 < |hs| {
        Stays(lines, hs[i], hs[i + 1], defs[i], last);
      } else {
        ToTheLast(lines, hs[i], defs[i], last);
        assert defs[i].text + [] == defs[i].text;
      }
    }
  }

  /** Every line of text parses and has a header before it. */
  ghost predicate Readable(lines: seq<Line>) {
    forall p :: 0 <= p < |lines| ==> Parsable(lines[p]) && !Headless(lines, p)
  }

  lemma ReadablePart(lines: seq<Line>, n: nat)
    requires n <= |lines| && forall p :: 0 <= p < n ==> Parsable(lines[p]) && !Headless(lines, p)
    ensures Readable(lines[..n])
  {
    var part := lines[..n];
    forall p | 0 <= p < n
      ensures Parsable(part[p]) && !Headless(part, p)
    {
      assert Parsable(lines[p]) && !Headless(lines, p);
      assert forall q :: 0 <= q <= p ==> part[q] == lines[q];
    }
  }

  lemma HeadersBefore(lines: seq<Line>, n: nat)
    requires n < |lines| && lines[n].TextLine?
    ensures Headers(lines[..n]) == [] <==> Headless(lines, n)
  {
    var hs := Headers(lines[..n]);
    if hs != [] {
      HeaderListed(lines[..n], hs[0]);
    } else {
      forall q | 0 <= q < n
        ensures !IsHeader(lines[q])
      {
        HeaderListed(lines[..n], q);
      }
    }
  }

  lemma LastVisited(lines: seq<Line>, defs: seq<Definition>)
    requires lines != [] && Parsable(lines[|lines| - 1]) && !Headless(lines, |lines| - 1)
    requires CoversAll(lines[..|lines| - 1], defs)
    ensures Visit(defs, lines[|lines| - 1]).Ok? && CoversAll(lines, Visit(defs, lines[|lines| - 1]).value)
  {
    var n := |lines| - 1;
    assert lines == lines[..n] + [lines[n]];
    if IsHeader(lines[n]) {
      HeaderVisited(lines[..n], defs, lines[n]);
    } else {
      if lines[n].TextLine? {
        HeadersBefore(lines, n);
      }
      OtherVisited(lines[..n], defs, lines[n]);
    }
  }

  lemma {:induction false} VisitAllMeaning(lines: seq<Line>)
    requires Readable(lines)
    ensures VisitAll([], lines).Ok? && CoversAll(lines, VisitAll([], lines).value)
  {
    if lines == [] {
    } else {
      var n := |lines| - 1;
      ReadablePart(lines, n);
      VisitAllMeaning(lines[..n]);
      VisitLast([], lines);
      LastVisited(lines, VisitAll([], lines[..n]).value);
    }
  }

  /** The first line that cannot be taken. */
  ghost predicate Stumbles(lines: seq<Line>, p: nat) {
    && (Headless(lines, p) || Unparsable(lines, p))
    && forall q :: 0 <= q < p ==> Parsable(lines[q]) && !Headless(lines, q)
  }

  lemma StumblesLast(lines: seq<Line>)
    requires lines != [] && Stumbles(lines, |lines| - 1)
    ensures VisitAll([], lines) == Err(if Headless(lines, |lines| - 1) then ExpectedComment else BadText)
  {
    var n := |lines| - 1;
    ReadablePart(lines, n);
    VisitAllMeaning(lines[..n]);
    HeadersBefore(lines, n);
    VisitLast([], lines);
  }

  lemma {:induction false} VisitAllFails(lines: seq<Line>, p: nat)
    requires Stumbles(lines, p)
    ensures VisitAll([], lines) == Err(if Headless(lines, p) then ExpectedComment else BadText)
    decreases |lines|
  {
    var n := |lines| - 1;
    if p < n {
      var before := lines[..n];
      assert forall q :: 0 <= q <= p ==> before[q] == lines[q];
      forall q | 0 <= q < p
        ensures Parsable(before[q]) && !Headless(before, q)
      {
        assert Parsable(lines[q]) && !Headless(lines, q);
      }
      VisitAllFails(before, p);
      VisitLast([], lines);
    } else {
      StumblesLast(lines);
    }
  }

  /** The first line a headless one can be: everything before it is a comment. */
  lemma {:induction false} FirstHeadless(lines: seq<Line>, p: nat) returns (first: nat)
    requires Headless(lines, p)
    ensures Headless(lines, first) && forall q :: 0 <= q < first ==> lines[q].Comment?
    decreases p
  {
    if q :| 0 <= q < p && lines[q].TextLine? {
      first := FirstHeadless(lines, q);
    } else {
      first := p;
    }
  }

  lemma {:induction false} FirstUnparsable(lines: seq<Line>, p: nat) returns (first: nat)
    requires Unparsable(lines, p)
    ensures Unparsable(lines, first) && forall q :: 0 <= q < first ==> Parsable(lines[q])
    decreases p
  {
    if q :| 0 <= q < p && !Parsable(lines[q]) {
      first := FirstUnparsable(lines, q);
    } else {
      first := p;
    }
  }

  /**
   * A file is refused exactly when a line of text comes before the first header, or else some line of text does
   * not parse. Otherwise there is one definition per header, in their order, named by it, with the text of the lines
   * up to the next header; comments that are no headers change nothing.
   */
  lemma DefinitionsMeaning(s: string)
    ensures ParseLines(s).Some?
    ensures var lines := ParseLines(s).value;
            && (Definitions(s) == Err(ExpectedComment) <==> exists p :: Headless(lines, p))
            && (Definitions(s) == Err(BadText) <==>
                  (exists p :: Unparsable(lines, p)) && !exists p :: Headless(lines, p))
            && (Definitions(s).Ok? <==> !exists p :: Headless(lines, p) || Unparsable(lines, p))
            && (Definitions(s).Ok? ==> CoversAll(lines, Definitions(s).value))
  {
    LinesAlwaysParse(s);
    var lines := ParseLines(s).value;
    if p :| Headless(lines, p) {
      var first := FirstHeadless(lines, p);
      VisitAllFails(lines, first);
    } else if p :| Unparsable(lines, p) {
      var first := FirstUnparsable(lines, p);
      VisitAllFails(lines, first);
    } else {
      forall p | 0 <= p < |lines|
        ensures Parsable(lines[p]) && !Headless(lines, p)
      {
        assert !Unparsable(lines, p) && !Headless(lines, p);
      }
      VisitAllMeaning(lines);
    }
  }
}
