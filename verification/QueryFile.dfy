/** A query file written from its queries is read back as these queries. */
module QueryFile {
  import opened Basics
  import QueryText
  import opened QueryLines
  import opened QueryRepository

  /** A query as it is written: its name, and the parts of each of its lines. */
  datatype Source = Source(name: string, body: seq<seq<Part>>)

  predicate EndsLine(t: string) {
    t != "" && t[|t| - 1] == '\n' && FullSpan(t) == |t|
  }

  /** A line of query text: canonical parts, one line end, and no comment. */
  predicate Writable(ps: seq<Part>) {
    && QueryText.Canonical(ps)
    && EndsLine(QueryText.Print(ps))
    && !IsComment(QueryText.Print(ps))
  }

  predicate Sound(q: Source) {
    && IsQueryName(q.name) && QueryText.NulFree(q.name)
    && forall i :: 0 <= i < |q.body| ==> Writable(q.body[i])
  }

  predicate AllSound(qs: seq<Source>) {
    forall i :: 0 <= i < |qs| ==> Sound(qs[i])
  }

  function HeaderLine(name: string): Line {
    Comment(Header(" ", "", " ", name, "\n"))
  }

  function BodyLines(body: seq<seq<Part>>): seq<Line> {
    if body == [] then [] else [TextLine(QueryText.Print(body[0]))] + BodyLines(body[1..])
  }

  function FileLines(qs: seq<Source>): seq<Line> {
    if qs == [] then [] else [HeaderLine(qs[0].name)] + BodyLines(qs[0].body) + FileLines(qs[1..])
  }

  function WriteFile(qs: seq<Source>): string {
    Join(FileLines(qs))
  }

  function Flatten(body: seq<seq<Part>>): seq<Part> {
    if body == [] then [] else body[0] + Flatten(body[1..])
  }

  function Meant(qs: seq<Source>): seq<Definition> {
    if qs == [] then [] else [Definition(qs[0].name, Flatten(qs[0].body))] + Meant(qs[1..])
  }

  // ---------------------------------------------------------------------------------------
  // The lines are canonical

  predicate Ended(l: Line) {
    EndsLine(l.value) && l.Comment? == IsComment(l.value) && QueryText.NulFree(l.value)
  }

  predicate AllEnded(lines: seq<Line>) {
    forall i :: 0 <= i < |lines| ==> Ended(lines[i])
  }

  lemma {:induction false} EndedAreCanonical(lines: seq<Line>)
    requires AllEnded(lines)
    ensures QueryLines.Canonical(lines)
  {
    if lines == [] {
    } else {
      assert Ended(lines[0]);
      EndedAreCanonical(lines[1..]);
    }
  }

  lemma {:induction false} JoinedNulFree(lines: seq<Line>)
    requires AllEnded(lines)
    ensures QueryText.NulFree(Join(lines))
  {
    if lines == [] {
    } else {
      assert Ended(lines[0]);
      JoinedNulFree(lines[1..]);
    }
  }

  const PREFIX := "-- name: "

  lemma HeaderText(name: string)
    ensures Header(" ", "", " ", name, "\n") == PREFIX + (name + "\n")
  {
    var rest := name + "\n";
    assert " " + rest == [' '] + rest;
    assert "" + (":" + (" " + rest)) == ": " + rest;
    assert "name" + (": " + rest) == "name: " + rest;
    assert " " + ("name: " + rest) == " name: " + rest;
  }

  lemma PrefixSpan()
    ensures LineSpan(PREFIX) == 9 && QueryText.NulFree(PREFIX)
  {
    LineSpanIs(PREFIX, 9);
  }

  lemma HeaderEnded(name: string)
    requires IsQueryName(name) && QueryText.NulFree(name)
    ensures Ended(HeaderLine(name))
  {
    var rest := name + "\n";
    HeaderText(name);
    PrefixSpan();
    NameToEnd(name, "\n");
    NoEndWithin(PREFIX, rest);
    assert (PREFIX + rest)[9 + |name|..] == "\n";
  }

  lemma {:induction false} NoEndWithin(a: string, b: string)
    requires LineSpan(a) == |a|
    ensures LineSpan(a + b) == |a| + LineSpan(b)
  {
    LineSpanIs(a + b, |a| + LineSpan(b));
  }

  lemma {:induction false} ColonsNulFree(t: string)
    requires QueryText.Colons(t)
    ensures QueryText.NulFree(t)
  {
    if t == "" {
    } else {
      if t[0] == ':' {
        ColonsNulFree(t[2..]);
        assert t == [t[0], t[1]] + t[2..];
      } else {
        ColonsNulFree(t[1..]);
        assert t == [t[0]] + t[1..];
      }
    }
  }

  lemma {:induction false} PrintNulFree(ps: seq<Part>)
    requires QueryText.Canonical(ps)
    ensures QueryText.NulFree(QueryText.Print(ps))
  {
    if ps == [] {
    } else {
      PrintNulFree(ps[1..]);
      if ps[0].Text? {
        ColonsNulFree(ps[0].value);
      }
    }
  }

  lemma {:induction false} BodyEnded(body: seq<seq<Part>>)
    requires forall i :: 0 <= i < |body| ==> Writable(body[i])
    ensures AllEnded(BodyLines(body))
  {
    if body == [] {
    } else {
      assert Writable(body[0]);
      PrintNulFree(body[0]);
      BodyEnded(body[1..]);
    }
  }

  lemma {:induction false} FileEnded(qs: seq<Source>)
    requires AllSound(qs)
    ensures AllEnded(FileLines(qs))
  {
    if qs == [] {
    } else {
      assert Sound(qs[0]);
      HeaderEnded(qs[0].name);
      BodyEnded(qs[0].body);
      FileEnded(qs[1..]);
    }
  }

  // ---------------------------------------------------------------------------------------
  // The lines give the definitions back

  lemma {:induction false} VisitParts(ds: seq<Definition>, a: seq<Line>, b: seq<Line>)
    requires VisitAll(ds, a).Ok?
    ensures VisitAll(ds, a + b) == VisitAll(VisitAll(ds, a).value, b)
    decreases a
  {
    if a == [] {
      assert a + b == b;
    } else {
      TailOfSum(a, b);
      VisitParts(Visit(ds, a[0]).value, a[1..], b);
    }
  }

  lemma VisitText(ds: seq<Definition>, d: Definition, ps: seq<Part>)
    requires Writable(ps)
    ensures Visit(ds + [d], TextLine(QueryText.Print(ps))) == Ok(ds + [Definition(d.name, d.text + ps)])
  {
    PrintNulFree(ps);
    QueryText.ParsesExactlyWhen(QueryText.Print(ps), ps);
    assert (ds + [d])[..|ds|] == ds;
  }

  lemma {:induction false} VisitBody(ds: seq<Definition>, d: Definition, body: seq<seq<Part>>)
    requires forall i :: 0 <= i < |body| ==> Writable(body[i])
    ensures VisitAll(ds + [d], BodyLines(body)) == Ok(ds + [Definition(d.name, d.text + Flatten(body))])
    decreases body
  {
    if body == [] {
      assert d.text + [] == d.text;
    } else {
      var next := Definition(d.name, d.text + body[0]);
      VisitText(ds, d, body[0]);
      VisitBody(ds, next, body[1..]);
      assert BodyLines(body)[1..] == BodyLines(body[1..]);
      Regroup(d.text, body[0], Flatten(body[1..]));
    }
  }

  lemma VisitQuery(ds: seq<Definition>, q: Source)
    requires Sound(q)
    ensures VisitAll(ds, [HeaderLine(q.name)] + BodyLines(q.body)) == Ok(ds + [Definition(q.name, Flatten(q.body))])
  {
    var lines := [HeaderLine(q.name)] + BodyLines(q.body);
    HeaderParses(" ", "", " ", q.name, "\n");
    assert Visit(ds, lines[0]) == Ok(ds + [Definition(q.name, [])]);
    assert lines[1..] == BodyLines(q.body);
    VisitBody(ds, Definition(q.name, []), q.body);
    assert [] + Flatten(q.body) == Flatten(q.body);
  }

  lemma {:induction false} VisitFile(ds: seq<Definition>, qs: seq<Source>)
    requires AllSound(qs)
    ensures VisitAll(ds, FileLines(qs)) == Ok(ds + Meant(qs))
    decreases qs
  {
    if qs == [] {
      assert ds + [] == ds;
    } else {
      var first := [HeaderLine(qs[0].name)] + BodyLines(qs[0].body);
      var d := Definition(qs[0].name, Flatten(qs[0].body));
      VisitQuery(ds, qs[0]);
      VisitParts(ds, first, FileLines(qs[1..]));
      VisitFile(ds + [d], qs[1..]);
      Regroup(ds, [d], Meant(qs[1..]));
    }
  }

  /** Whatever queries are written to a file, the file is read as these queries. */
  lemma FileRoundTrip(qs: seq<Source>)
    requires AllSound(qs)
    ensures Definitions(WriteFile(qs)) == Ok(Meant(qs))
  {
    var lines := FileLines(qs);
    FileEnded(qs);
    EndedAreCanonical(lines);
    JoinedNulFree(lines);
    SplitsExactlyWhen(WriteFile(qs), lines);
    VisitFile([], qs);
    assert [] + Meant(qs) == Meant(qs);
  }
}
