/** From the lines of a query file to the texts of the declared queries. */
module QueryRepository {
  import opened Basics
  import QueryText
  import QueryLines

  type Part = QueryText.Part
  type Line = QueryLines.Line

  /** A definition in the file: its name, and the parts of all its text lines. */
  datatype Definition = Definition(name: string, text: seq<Part>)

  /** The parameters of a declared query: a structure with named members, or a tuple of some size. */
  datatype Params = Members(names: seq<string>) | Numbered(count: nat)

  datatype Declaration = Declaration(name: string, params: Params)

  datatype ConfError =
    | ExpectedComment | BadText | BadLines
    | DuplicateDeclaration | DuplicateDefinition | NotDefined | NotDeclared
    | ParameterNotFound | NotNumeric | OutOfRange

  // ---------------------------------------------------------------------------------------
  // Lines to definitions

  function Visit(ds: seq<Definition>, line: Line): Result<seq<Definition>, ConfError> {
    match line
    case Comment(value) =>
      (match QueryLines.ParseHeader(value)
       case None => Ok(ds)
       case Some(name) => Ok(ds + [Definition(name, [])]))
    case TextLine(value) =>
      if ds == [] then Err(ExpectedComment)
      else
        var last := ds[|ds| - 1];
        match QueryText.ParseText(value)
        case None => Err(BadText)
        case Some(parts) => Ok(ds[..|ds| - 1] + [Definition(last.name, last.text + parts)])
  }

  function VisitAll(ds: seq<Definition>, lines: seq<Line>): Result<seq<Definition>, ConfError>
    decreases lines
  {
    if lines == [] then Ok(ds)
    else
      var next :- Visit(ds, lines[0]);
      VisitAll(next, lines[1..])
  }

  function Definitions(s: string): Result<seq<Definition>, ConfError> {
    match QueryLines.ParseLines(s)
    case None => Err(BadLines)
    case Some(lines) => VisitAll([], lines)
  }

  datatype State = Initial | HeaderParsed

  class LineVisitor {
    var state: State
    var queries: seq<Definition>

    ghost predicate Valid()
      reads this
    {
      state == Initial <==> queries == []
    }

    constructor ()
      ensures Valid() && queries == []
    {
      state, queries := Initial, [];
    }

    method ParseHeader(value: string)
      requires Valid()
      modifies this
      ensures Valid() && Ok(queries) == Visit(old(queries), QueryLines.Comment(value))
    {
      var header := QueryLines.ParseHeader(value);
      if header.Some? {
        state := HeaderParsed;
        queries := queries + [Definition(header.value, [])];
      }
    }

    method ParseText(value: string) returns (r: Result<(), ConfError>)
      requires Valid() && state == HeaderParsed
      modifies this
      ensures Valid()
      ensures match Visit(old(queries), QueryLines.TextLine(value))
              case Ok(ds) => r.Ok? && queries == ds
              case Err(e) => r == Err(e)
    {
      var parsed := QueryText.ParseText(value);
      if parsed.None? {
        return Err(BadText);
      }
      var last := queries[|queries| - 1];
      queries := queries[..|queries| - 1] + [Definition(last.name, last.text + parsed.value)];
      return Ok(());
    }

    method VisitLine(line: Line) returns (r: Result<(), ConfError>)
      requires Valid()
      modifies this
      ensures Valid()
      ensures match Visit(old(queries), line)
              case Ok(ds) => r.Ok? && queries == ds
              case Err(e) => r == Err(e)
    {
      match line
      case Comment(value) =>
        ParseHeader(value);
        return Ok(());
      case TextLine(value) =>
        if state == Initial {
          return Err(ExpectedComment);
        }
        r := ParseText(value);
    }
  }

  method ParseQueryConf(s: string) returns (r: Result<seq<Definition>, ConfError>)
    ensures r == Definitions(s)
  {
    var lines := QueryLines.ParseLines(s);
    if lines.None? {
      return Err(BadLines);
    }
    var visitor := new LineVisitor();
    var i := 0;
    while i < |lines.value|
      invariant 0 <= i <= |lines.value| && visitor.Valid() && fresh(visitor)
      invariant VisitAll(visitor.queries, lines.value[i..]) == Definitions(s)
    {
      var _ :- visitor.VisitLine(lines.value[i]);
      assert lines.value[i..][1..] == lines.value[i + 1..];
      i := i + 1;
    }
    return Ok(visitor.queries);
  }

  // ---------------------------------------------------------------------------------------
  // Parameters

  function Digit(d: nat): char
    requires d < 10
  {
    '0' + d as char
  }

  function Decimal(n: nat): string {
    if n < 10 then [Digit(n)] else Decimal(n / 10) + [Digit(n % 10)]
  }

  predicate IsDigits(s: string) {
    s != "" && forall i :: 0 <= i < |s| ==> '0' <= s[i] <= '9'
  }

  function NumberOf(s: string): nat
    requires forall i :: 0 <= i < |s| ==> '0' <= s[i] <= '9'
  {
    if s == "" then 0 else 10 * NumberOf(s[..|s| - 1]) + (s[|s| - 1] - '0') as nat
  }

  const SIZE_LIMIT := 0x1_0000_0000_0000_0000

  function Count(ps: Params): nat {
    match ps
    case Members(names) => |names|
    case Numbered(n) => n
  }

  /** `k` is the position of the parameter that `name` stands for. */
  predicate IsPosition(ps: Params, name: string, k: nat) {
    match ps
    case Members(names) => k < |names| && names[k] == name && forall j :: 0 <= j < k ==> names[j] != name
    case Numbered(n) => IsDigits(name) && NumberOf(name) == k && k < SIZE_LIMIT && k < n
  }

  function FirstIndex(names: seq<string>, name: string): (k: nat)
    ensures k <= |names| && (k < |names| ==> names[k] == name)
    ensures forall j :: 0 <= j < k ==> names[j] != name
  {
    if names == [] || names[0] == name then 0 else 1 + FirstIndex(names[1..], name)
  }

  function Position(ps: Params, name: string): Result<nat, ConfError> {
    match ps
    case Members(names) =>
      var k := FirstIndex(names, name);
      if k < |names| then Ok(k) else Err(ParameterNotFound)
    case Numbered(n) =>
      if !IsDigits(name) || NumberOf(name) >= SIZE_LIMIT then Err(NotNumeric)
      else if NumberOf(name) >= n then Err(OutOfRange)
      else Ok(NumberOf(name))
  }

  /** A name is numbered by its own position, and only a name that has one is. */
  lemma PositionExactlyWhen(ps: Params, name: string, k: nat)
    ensures Position(ps, name) == Ok(k) <==> IsPosition(ps, name, k)
    ensures Position(ps, name) == Ok(k) ==> k < Count(ps)
    ensures Position(ps, name) == Err(ParameterNotFound) <==> ps.Members? && name !in ps.names
    ensures Position(ps, name) == Err(OutOfRange) <==>
              ps.Numbered? && IsDigits(name) && ps.count <= NumberOf(name) < SIZE_LIMIT
    ensures Position(ps, name) == Err(NotNumeric) <==>
              ps.Numbered? && (IsDigits(name) ==> NumberOf(name) >= SIZE_LIMIT)
  {
    if ps.Members? && IsPosition(ps, name, k) {
      assert FirstIndex(ps.names, name) == k;
    }
  }

  lemma {:induction false} NumberOfDecimal(n: nat)
    ensures IsDigits(Decimal(n)) && NumberOf(Decimal(n)) == n
  {
    if n < 10 {
      assert Decimal(n)[..0] == "";
    } else {
      NumberOfDecimal(n / 10);
      assert Decimal(n)[..|Decimal(n)| - 1] == Decimal(n / 10);
    }
  }

  /** The loop over the members: counting stops at the first that has the name, the loop does not. */
  method FindMember(names: seq<string>, name: string) returns (found: bool, number: nat)
    ensures found == (FirstIndex(names, name) < |names|)
    ensures found ==> number == FirstIndex(names, name)
  {
    found, number := false, 0;
    for i := 0 to |names|
      invariant !found ==> number == i
      invariant found ==> number < i && names[number] == name
      invariant forall j :: 0 <= j < number ==> names[j] != name
    {
      if names[i] == name {
        found := true;
      } else if !found {
        number := number + 1;
      }
    }
  }

  // ---------------------------------------------------------------------------------------
  // Descriptions

  function Substitute(ps: Params, part: Part): Result<string, ConfError> {
    match part
    case Text(value) => Ok(value)
    case Param(name) =>
      var k :- Position(ps, name);
      Ok("$" + Decimal(k + 1))
  }

  function Render(ps: Params, parts: seq<Part>): Result<string, ConfError> {
    if parts == [] then Ok("")
    else
      var first :- Substitute(ps, parts[0]);
      var others :- Render(ps, parts[1..]);
      Ok(first + others)
  }

  function TrimLeft(s: string): (r: string)
    ensures r == "" || !QueryLines.IsSpace(r[0])
  {
    if s != "" && QueryLines.IsSpace(s[0]) then TrimLeft(s[1..]) else s
  }

  function TrimRight(s: string): (r: string)
    ensures r <= s && (r == "" || !QueryLines.IsSpace(r[|r| - 1]))
  {
    if s != "" && QueryLines.IsSpace(s[|s| - 1]) then TrimRight(s[..|s| - 1]) else s
  }

  function Trim(s: string): string {
    TrimRight(TrimLeft(s))
  }

  lemma {:induction false} TrimLeftMeaning(s: string) returns (n: nat)
    ensures n <= |s| && TrimLeft(s) == s[n..] && QueryLines.AllSpaces(s[..n])
  {
    if s != "" && QueryLines.IsSpace(s[0]) {
      var m := TrimLeftMeaning(s[1..]);
      n := m + 1;
      assert s[1..][m..] == s[n..] && s[1..][..m] == s[1..n];
      forall i | 0 <= i < n
        ensures QueryLines.IsSpace(s[i])
      {
        assert i > 0 ==> s[i] == s[1..][..m][i - 1];
      }
    } else {
      n := 0;
    }
  }

  lemma {:induction false} TrimRightMeaning(s: string)
    ensures QueryLines.AllSpaces(s[|TrimRight(s)|..])
  {
    if s != "" && QueryLines.IsSpace(s[|s| - 1]) {
      var n := |s| - 1;
      TrimRightMeaning(s[..n]);
      var k := |TrimRight(s)|;
      forall i | k <= i < |s|
        ensures QueryLines.IsSpace(s[i])
      {
        assert i < n ==> s[i] == s[..n][k..][i - k];
      }
    }
  }

  /** Trimming takes spaces off both ends, and all there are. */
  lemma TrimMeaning(s: string) returns (i: nat, j: nat)
    ensures i <= j <= |s| && Trim(s) == s[i..j]
    ensures QueryLines.AllSpaces(s[..i]) && QueryLines.AllSpaces(s[j..])
    ensures i < j ==> !QueryLines.IsSpace(s[i]) && !QueryLines.IsSpace(s[j - 1])
  {
    i := TrimLeftMeaning(s);
    var t := s[i..];
    TrimRightMeaning(t);
    j := i + |TrimRight(t)|;
    assert s[j..] == t[|TrimRight(t)|..] && s[i..j] == t[..|TrimRight(t)|];
    assert TrimRight(t) == t[..|TrimRight(t)|];
  }

  function Described(ps: Params, parts: seq<Part>): Result<string, ConfError> {
    var text :- Render(ps, parts);
    Ok(Trim(text))
  }

  /** Every declaration of that name describes the definition; the last one stands. */
  function DescribedAmong(ds: seq<Declaration>, d: Definition): Result<Option<string>, ConfError> {
    if ds == [] then Ok(None)
    else
      var n := |ds| - 1;
      var earlier :- DescribedAmong(ds[..n], d);
      if ds[n].name != d.name then Ok(earlier)
      else
        var text :- Described(ds[n].params, d.text);
        Ok(Some(text))
  }

  function Description(ds: seq<Declaration>, d: Definition): Result<string, ConfError> {
    var text :- DescribedAmong(ds, d);
    if text.None? then Err(NotDeclared) else Ok(text.value)
  }

  /** The texts by name, for definitions with distinct names. */
  function Texts(ds: seq<Declaration>, defs: seq<Definition>): Result<map<string, string>, ConfError> {
    if defs == [] then Ok(map[])
    else
      var n := |defs| - 1;
      var earlier :- Texts(ds, defs[..n]);
      var text :- Description(ds, defs[n]);
      Ok(earlier[defs[n].name := text])
  }

  // ---------------------------------------------------------------------------------------
  // The repository

  predicate Distinct(names: seq<string>) {
    forall i, j :: 0 <= i < j < |names| ==> names[i] != names[j]
  }

  function Declared(ds: seq<Declaration>): (r: seq<string>)
    ensures |r| == |ds| && forall i :: 0 <= i < |ds| ==> r[i] == ds[i].name
  {
    seq(|ds|, i requires 0 <= i < |ds| => ds[i].name)
  }

  function Defined(ds: seq<Definition>): (r: seq<string>)
    ensures |r| == |ds| && forall i :: 0 <= i < |ds| ==> r[i] == ds[i].name
  {
    seq(|ds|, i requires 0 <= i < |ds| => ds[i].name)
  }

  function Repository(s: string, ds: seq<Declaration>): Result<map<string, string>, ConfError> {
    if !Distinct(Declared(ds)) then Err(DuplicateDeclaration)
    else
      var defs :- Definitions(s);
      if !Distinct(Defined(defs)) then Err(DuplicateDefinition)
      else if !(Elems(Declared(ds)) <= Elems(Defined(defs))) then Err(NotDefined)
      else Texts(ds, defs)
  }

  method CheckForDuplicates(names: seq<string>) returns (r: Option<set<string>>)
    ensures r.Some? <==> Distinct(names)
    ensures r.Some? ==> r.value == Elems(names)
  {
    var seen: set<string> := {};
    for i := 0 to |names|
      invariant Distinct(names[..i]) && seen == Elems(names[..i])
    {
      if names[i] in seen {
        var j :| 0 <= j < i && names[j] == names[i];
        assert !Distinct(names);
        return None;
      }
      assert names[..i + 1] == names[..i] + [names[i]];
      seen := seen + {names[i]};
    }
    assert names[..|names|] == names;
    return Some(seen);
  }

  method CheckForUndefined(names: seq<string>, defined: set<string>) returns (ok: bool)
    ensures ok <==> Elems(names) <= defined
  {
    for i := 0 to |names|
      invariant forall j :: 0 <= j < i ==> names[j] in defined
    {
      if names[i] !in defined {
        assert names[i] in Elems(names);
        return false;
      }
    }
    return true;
  }

  method MakeText(ps: Params, parts: seq<Part>) returns (r: Result<string, ConfError>)
    ensures r == Described(ps, parts)
  {
    var text := "";
    var i := 0;
    AppendToNothing(Render(ps, parts));
    while i < |parts|
      invariant 0 <= i <= |parts|
      invariant Appended(text, Render(ps, parts[i..])) == Render(ps, parts)
    {
      assert parts[i..][1..] == parts[i + 1..];
      match parts[i] {
        case Text(value) =>
          AppendStep(text, value, Render(ps, parts[i + 1..]));
          text := text + value;
        case Param(name) =>
          var number :- Number(ps, name);
          AppendStep(text, "$" + Decimal(number + 1), Render(ps, parts[i + 1..]));
          text := text + ("$" + Decimal(number + 1));
      }
      i := i + 1;
    }
    assert text + "" == text;
    return Ok(Trim(text));
  }

  function Appended(text: string, r: Result<string, ConfError>): Result<string, ConfError> {
    match r
    case Ok(others) => Ok(text + others)
    case Err(e) => Err(e)
  }

  lemma AppendToNothing(r: Result<string, ConfError>)
    ensures Appended("", r) == r
  {
    assert r.Ok? ==> "" + r.value == r.value;
  }

  lemma AppendStep(text: string, piece: string, r: Result<string, ConfError>)
    ensures Appended(text, Appended(piece, r)) == Appended(text + piece, r)
  {
    if r.Ok? {
      assert text + (piece + r.value) == text + piece + r.value;
    }
  }

  method Number(ps: Params, name: string) returns (r: Result<nat, ConfError>)
    ensures r == Position(ps, name)
  {
    match ps
    case Members(names) =>
      var found, number := FindMember(names, name);
      return if found then Ok(number) else Err(ParameterNotFound);
    case Numbered(n) =>
      if !IsDigits(name) || NumberOf(name) >= SIZE_LIMIT {
        return Err(NotNumeric);
      }
      if NumberOf(name) >= n {
        return Err(OutOfRange);
      }
      return Ok(NumberOf(name));
  }

  method MakeDescription(ds: seq<Declaration>, d: Definition) returns (r: Result<string, ConfError>)
    ensures r == Description(ds, d)
  {
    var text: Option<string> := None;
    var i := 0;
    while i < |ds|
      invariant 0 <= i <= |ds|
      invariant DescribedAmong(ds[..i], d) == Ok(text)
    {
      assert ds[..i + 1][..i] == ds[..i];
      if ds[i].name == d.name {
        var described := MakeText(ds[i].params, d.text);
        if described.Err? {
          FirstErrorAmong(ds, d, i + 1);
          return Err(described.error);
        }
        text := Some(described.value);
      }
      i := i + 1;
    }
    assert ds[..|ds|] == ds;
    if text.None? {
      return Err(NotDeclared);
    }
    return Ok(text.value);
  }

  lemma {:induction false} FirstErrorAmong(ds: seq<Declaration>, d: Definition, k: nat)
    requires k <= |ds| && DescribedAmong(ds[..k], d).Err?
    ensures DescribedAmong(ds, d) == DescribedAmong(ds[..k], d)
  {
    if k == |ds| {
      assert ds[..k] == ds;
    } else {
      var n := |ds| - 1;
      assert ds[..n][..k] == ds[..k];
      FirstErrorAmong(ds[..n], d, k);
    }
  }

  method MakeRepository(s: string, ds: seq<Declaration>) returns (r: Result<map<string, string>, ConfError>)
    ensures r == Repository(s, ds)
  {
    var declared := CheckForDuplicates(Declared(ds));
    if declared.None? {
      return Err(DuplicateDeclaration);
    }
    var defs :- ParseQueryConf(s);
    var defined := CheckForDuplicates(Defined(defs));
    if defined.None? {
      return Err(DuplicateDefinition);
    }
    var ok := CheckForUndefined(Declared(ds), defined.value);
    if !ok {
      return Err(NotDefined);
    }
    r := MakeTexts(ds, defs);
  }

  method MakeTexts(ds: seq<Declaration>, defs: seq<Definition>) returns (r: Result<map<string, string>, ConfError>)
    ensures r == Texts(ds, defs)
  {
    var texts: map<string, string> := map[];
    var i := 0;
    while i < |defs|
      invariant 0 <= i <= |defs|
      invariant Texts(ds, defs[..i]) == Ok(texts)
    {
      assert defs[..i + 1][..i] == defs[..i];
      var text := MakeDescription(ds, defs[i]);
      if text.Err? {
        FirstErrorInTexts(ds, defs, i + 1);
        return Err(text.error);
      }
      texts := texts[defs[i].name := text.value];
      i := i + 1;
    }
    assert defs[..|defs|] == defs;
    return Ok(texts);
  }

  lemma {:induction false} FirstErrorInTexts(ds: seq<Declaration>, defs: seq<Definition>, k: nat)
    requires k <= |defs| && Texts(ds, defs[..k]).Err?
    ensures Texts(ds, defs) == Texts(ds, defs[..k])
  {
    if k == |defs| {
      assert defs[..k] == defs;
    } else {
      var n := |defs| - 1;
      assert defs[..n][..k] == defs[..k];
      FirstErrorInTexts(ds, defs[..n], k);
    }
  }

  // ---------------------------------------------------------------------------------------
  // What a repository holds

  lemma {:induction false} OneDeclaration(ds: seq<Declaration>, d: Definition, i: nat)
    requires Distinct(Declared(ds)) && i < |ds| && ds[i].name == d.name
    ensures Description(ds, d) == Described(ds[i].params, d.text)
  {
    var n := |ds| - 1;
    assert Declared(ds[..n]) == Declared(ds)[..n];
    if i < n {
      assert Declared(ds)[i] != Declared(ds)[n];
      OneDeclaration(ds[..n], d, i);
    } else {
      NoDeclaration(ds[..n], d);
    }
  }

  lemma {:induction false} NoDeclaration(ds: seq<Declaration>, d: Definition)
    requires d.name !in Declared(ds)
    ensures DescribedAmong(ds, d) == Ok(None)
  {
    if ds == [] {
    } else {
      var n := |ds| - 1;
      assert Declared(ds)[n] in Declared(ds) && Declared(ds[..n]) == Declared(ds)[..n];
      NoDeclaration(ds[..n], d);
    }
  }

  lemma {:induction false} TextsExactlyWhen(ds: seq<Declaration>, defs: seq<Definition>)
    ensures Texts(ds, defs).Ok? <==> forall i :: 0 <= i < |defs| ==> Description(ds, defs[i]).Ok?
  {
    if defs == [] {
    } else {
      var n := |defs| - 1;
      TextsExactlyWhen(ds, defs[..n]);
      assert forall i :: 0 <= i < n ==> defs[..n][i] == defs[i];
    }
  }

  lemma {:induction false} TextsKeys(ds: seq<Declaration>, defs: seq<Definition>)
    requires Texts(ds, defs).Ok?
    ensures Texts(ds, defs).value.Keys == Elems(Defined(defs))
  {
    if defs == [] {
    } else {
      var n := |defs| - 1;
      TextsKeys(ds, defs[..n]);
      assert Defined(defs) == Defined(defs[..n]) + [defs[n].name];
    }
  }

  lemma {:induction false} TextsAt(ds: seq<Declaration>, defs: seq<Definition>, i: nat)
    requires Distinct(Defined(defs)) && Texts(ds, defs).Ok? && i < |defs|
    ensures defs[i].name in Texts(ds, defs).value
    ensures Description(ds, defs[i]) == Ok(Texts(ds, defs).value[defs[i].name])
  {
    var n := |defs| - 1;
    if i < n {
      assert Defined(defs[..n]) == Defined(defs)[..n];
      assert Defined(defs)[i] != Defined(defs)[n];
      TextsAt(ds, defs[..n], i);
    }
  }

  /** Every parameter a text mentions is one of the declared ones. */
  predicate AllPlaced(ps: Params, parts: seq<Part>) {
    forall i :: 0 <= i < |parts| && parts[i].Param? ==> Position(ps, parts[i].name).Ok?
  }

  lemma {:induction false} RenderExactlyWhen(ps: Params, parts: seq<Part>)
    ensures Render(ps, parts).Ok? <==> AllPlaced(ps, parts)
  {
    if parts == [] {
    } else {
      RenderExactlyWhen(ps, parts[1..]);
      assert forall i :: 1 <= i < |parts| ==> parts[i] == parts[1..][i - 1];
      assert forall i :: 0 <= i < |parts| - 1 ==> parts[1..][i] == parts[i + 1];
    }
  }

  /** Definition `j` is that of declaration `i`. */
  predicate Defines(ds: seq<Declaration>, i: nat, defs: seq<Definition>, j: nat) {
    i < |ds| && j < |defs| && ds[i].name == defs[j].name
  }

  lemma FindName(names: seq<string>, name: string) returns (i: nat)
    requires name in Elems(names)
    ensures i < |names| && names[i] == name
  {
    i :| 0 <= i < |names| && names[i] == name;
  }

  /** A definition gets a text exactly when it is declared and mentions no parameter that is not. */
  lemma DescriptionExactlyWhen(ds: seq<Declaration>, d: Definition)
    requires Distinct(Declared(ds))
    ensures Description(ds, d).Ok? <==>
              exists i :: 0 <= i < |ds| && ds[i].name == d.name && AllPlaced(ds[i].params, d.text)
  {
    if d.name in Elems(Declared(ds)) {
      var i := FindName(Declared(ds), d.name);
      OneDeclaration(ds, d, i);
      RenderExactlyWhen(ds[i].params, d.text);
      forall k | 0 <= k < |ds| && ds[k].name == d.name
        ensures k == i
      {
        assert Declared(ds)[k] == Declared(ds)[i];
      }
    } else {
      NoDeclaration(ds, d);
      assert forall i :: 0 <= i < |ds| ==> Declared(ds)[i] in Declared(ds);
    }
  }

  /**
   * A repository comes about if and only if the file parses, neither side repeats a name, every declared query is
   * defined, and every defined one is declared with the parameters it mentions.
   */
  lemma RepositoryExactlyWhen(s: string, ds: seq<Declaration>)
    ensures Repository(s, ds).Ok? <==>
              && Distinct(Declared(ds)) && Definitions(s).Ok?
              && var defs := Definitions(s).value;
                 && Distinct(Defined(defs)) && Elems(Declared(ds)) <= Elems(Defined(defs))
                 && forall j :: 0 <= j < |defs| ==>
                      exists i :: 0 <= i < |ds| && ds[i].name == defs[j].name && AllPlaced(ds[i].params, defs[j].text)
  {
    if Distinct(Declared(ds)) && Definitions(s).Ok? {
      var defs := Definitions(s).value;
      TextsExactlyWhen(ds, defs);
      forall j | 0 <= j < |defs|
        ensures Description(ds, defs[j]).Ok? <==>
                  exists i :: 0 <= i < |ds| && ds[i].name == defs[j].name && AllPlaced(ds[i].params, defs[j].text)
      {
        DescriptionExactlyWhen(ds, defs[j]);
      }
    }
  }

  /** The first parameter that has no number decides how a text fails. */
  lemma {:induction false} RenderFails(ps: Params, parts: seq<Part>) returns (k: nat)
    requires Render(ps, parts).Err?
    ensures k < |parts| && parts[k].Param? && AllPlaced(ps, parts[..k])
    ensures Position(ps, parts[k].name) == Err(Render(ps, parts).error)
  {
    if Substitute(ps, parts[0]).Err? {
      k := 0;
    } else {
      var m := RenderFails(ps, parts[1..]);
      k := m + 1;
      assert parts[1..][..m] == parts[1..k] && parts[1..][m] == parts[k];
      forall i | 0 <= i < k && parts[..k][i].Param?
        ensures Position(ps, parts[..k][i].name).Ok?
      {
        assert i > 0 ==> parts[..k][i] == parts[1..][..m][i - 1];
      }
    }
  }

  /** The first definition that gets no text decides how the texts fail. */
  lemma {:induction false} TextsFail(ds: seq<Declaration>, defs: seq<Definition>) returns (j: nat)
    requires Texts(ds, defs).Err?
    ensures j < |defs| && forall i :: 0 <= i < j ==> Description(ds, defs[i]).Ok?
    ensures Description(ds, defs[j]) == Err(Texts(ds, defs).error)
  {
    var n := |defs| - 1;
    if Texts(ds, defs[..n]).Err? {
      j := TextsFail(ds, defs[..n]);
      assert forall i :: 0 <= i <= j ==> defs[..n][i] == defs[i];
    } else {
      j := n;
      TextsExactlyWhen(ds, defs[..n]);
      assert forall i :: 0 <= i < n ==> defs[..n][i] == defs[i];
    }
  }

  /** Definition `d` has parameter number `k` as its first one that declaration `i` does not have. */
  predicate Misses(ds: seq<Declaration>, i: nat, d: Definition, k: nat, e: ConfError) {
    && i < |ds| && ds[i].name == d.name && k < |d.text| && d.text[k].Param?
    && AllPlaced(ds[i].params, d.text[..k]) && Position(ds[i].params, d.text[k].name) == Err(e)
  }

  lemma DescriptionFails(ds: seq<Declaration>, d: Definition)
    requires Distinct(Declared(ds)) && Description(ds, d).Err?
    ensures var e := Description(ds, d).error;
            if d.name in Declared(ds) then exists i, k :: Misses(ds, i, d, k, e) else e == NotDeclared
  {
    if d.name in Declared(ds) {
      var i := FindName(Declared(ds), d.name);
      OneDeclaration(ds, d, i);
      var k := RenderFails(ds[i].params, d.text);
      assert Misses(ds, i, d, k, Description(ds, d).error);
    } else {
      NoDeclaration(ds, d);
    }
  }

  /** `d` is not declared, or it mentions a parameter that its declaration does not have. */
  ghost predicate Undescribed(ds: seq<Declaration>, d: Definition, e: ConfError) {
    if d.name in Declared(ds) then exists i, k :: Misses(ds, i, d, k, e) else e == NotDeclared
  }

  ghost predicate FirstUndescribed(ds: seq<Declaration>, defs: seq<Definition>, j: nat, e: ConfError) {
    j < |defs| && Undescribed(ds, defs[j], e) && forall i :: 0 <= i < j ==> Description(ds, defs[i]).Ok?
  }

  lemma TextsErrors(ds: seq<Declaration>, defs: seq<Definition>)
    requires Distinct(Declared(ds)) && Texts(ds, defs).Err?
    ensures exists j :: FirstUndescribed(ds, defs, j, Texts(ds, defs).error)
    ensures Texts(ds, defs).error in {NotDeclared, ParameterNotFound, NotNumeric, OutOfRange}
  {
    var j := TextsFail(ds, defs);
    DescriptionFails(ds, defs[j]);
    assert FirstUndescribed(ds, defs, j, Texts(ds, defs).error);
  }

  lemma SubsetByName(ds: seq<Declaration>, defs: seq<Definition>)
    ensures Elems(Declared(ds)) <= Elems(Defined(defs)) <==> forall i :: 0 <= i < |ds| ==> ds[i].name in Defined(defs)
  {
    assert forall i :: 0 <= i < |ds| ==> Declared(ds)[i] in Elems(Declared(ds));
  }

  /** Which error refuses a repository: the checks count in this order, then the first definition without a text. */
  lemma RepositoryRefuses(s: string, ds: seq<Declaration>)
    ensures Repository(s, ds) == Err(DuplicateDeclaration) <==> !Distinct(Declared(ds))
    ensures Distinct(Declared(ds)) && Definitions(s).Err? ==> Repository(s, ds) == Err(Definitions(s).error)
    ensures Distinct(Declared(ds)) && Definitions(s).Ok? ==>
              var defs := Definitions(s).value;
              && (Repository(s, ds) == Err(DuplicateDefinition) <==> !Distinct(Defined(defs)))
              && (Repository(s, ds) == Err(NotDefined) <==>
                    Distinct(Defined(defs)) && exists i :: 0 <= i < |ds| && ds[i].name !in Defined(defs))
              && (Repository(s, ds).Err? && Repository(s, ds).error !in {DuplicateDefinition, NotDefined} ==>
                    exists j :: FirstUndescribed(ds, defs, j, Repository(s, ds).error))
  {
    if Distinct(Declared(ds)) {
      if Definitions(s).Err? {
        DefinitionsErrors(s);
      } else {
        var defs := Definitions(s).value;
        SubsetByName(ds, defs);
        if Texts(ds, defs).Err? {
          TextsErrors(ds, defs);
        }
      }
    }
  }

  lemma {:induction false} VisitErrors(ds: seq<Definition>, lines: seq<Line>)
    requires VisitAll(ds, lines).Err?
    ensures VisitAll(ds, lines).error in {ExpectedComment, BadText}
    decreases lines
  {
    if Visit(ds, lines[0]).Ok? {
      VisitErrors(Visit(ds, lines[0]).value, lines[1..]);
    }
  }

  lemma DefinitionsErrors(s: string)
    requires Definitions(s).Err?
    ensures Definitions(s).error in {BadLines, ExpectedComment, BadText}
  {
    if QueryLines.ParseLines(s).Some? {
      VisitErrors([], QueryLines.ParseLines(s).value);
    }
  }

  lemma DefinedAreDeclared(ds: seq<Declaration>, defs: seq<Definition>)
    requires Distinct(Declared(ds)) && Texts(ds, defs).Ok?
    ensures Elems(Defined(defs)) <= Elems(Declared(ds))
  {
    TextsExactlyWhen(ds, defs);
    forall name | name in Elems(Defined(defs))
      ensures name in Elems(Declared(ds))
    {
      var j := FindName(Defined(defs), name);
      if name !in Elems(Declared(ds)) {
        NoDeclaration(ds, defs[j]);
        assert false;
      }
    }
  }

  /** Declared and defined names are the same, without repetition, and they are those that can be looked up. */
  lemma RepositoryNames(s: string, ds: seq<Declaration>)
    requires Repository(s, ds).Ok?
    ensures var defs := Definitions(s).value;
            && Distinct(Declared(ds)) && Distinct(Defined(defs)) && |ds| == |defs|
            && Elems(Declared(ds)) == Elems(Defined(defs)) == Repository(s, ds).value.Keys
  {
    RepositoryParts(s, ds);
    var defs := Definitions(s).value;
    TextsKeys(ds, defs);
    DefinedAreDeclared(ds, defs);
    assert Elems(Declared(ds)) == Elems(Defined(defs));
    DistinctSize(Declared(ds));
    DistinctSize(Defined(defs));
  }

  lemma RepositoryParts(s: string, ds: seq<Declaration>)
    requires Repository(s, ds).Ok?
    ensures Definitions(s).Ok? && Distinct(Declared(ds)) && Distinct(Defined(Definitions(s).value))
    ensures Elems(Declared(ds)) <= Elems(Defined(Definitions(s).value))
    ensures Repository(s, ds) == Texts(ds, Definitions(s).value)
  {
  }

  lemma {:induction false} DistinctSize(names: seq<string>)
    requires Distinct(names)
    ensures |Elems(names)| == |names|
  {
    if names == [] {
    } else {
      var n := |names| - 1;
      DistinctSize(names[..n]);
      assert names == names[..n] + [names[n]];
      assert Elems(names) == Elems(names[..n]) + {names[n]};
      assert forall i :: 0 <= i < n ==> names[..n][i] != names[n];
      assert names[n] !in Elems(names[..n]);
    }
  }

  // ---------------------------------------------------------------------------------------
  // What a text is made of

  /**
   * What replaces a part in the text of a query: a piece of text itself; a parameter by a dollar sign and its
   * number in decimal, which is one more than its position.
   */
  predicate StandsFor(ps: Params, part: Part, piece: string) {
    match part
    case Text(value) => piece == value
    case Param(name) =>
      && |piece| > 1 && piece[0] == '$' && IsDigits(piece[1..]) && piece[1] != '0'
      && 1 <= NumberOf(piece[1..]) <= Count(ps)
      && IsPosition(ps, name, NumberOf(piece[1..]) - 1)
  }

  ghost predicate StandFor(ps: Params, parts: seq<Part>, pieces: seq<string>) {
    |pieces| == |parts| && forall i :: 0 <= i < |parts| ==> StandsFor(ps, parts[i], pieces[i])
  }

  function Concat(pieces: seq<string>): string {
    if pieces == [] then "" else pieces[0] + Concat(pieces[1..])
  }

  lemma {:induction false} DecimalStart(n: nat)
    requires n > 0
    ensures Decimal(n) != "" && Decimal(n)[0] != '0'
  {
    if n >= 10 {
      DecimalStart(n / 10);
    }
  }

  lemma SubstituteStands(ps: Params, part: Part)
    requires Substitute(ps, part).Ok?
    ensures StandsFor(ps, part, Substitute(ps, part).value)
  {
    if part.Param? {
      var k := Position(ps, part.name).value;
      var piece := Substitute(ps, part).value;
      PositionExactlyWhen(ps, part.name, k);
      NumberOfDecimal(k + 1);
      DecimalStart(k + 1);
      assert piece[1..] == Decimal(k + 1);
    }
  }

  lemma {:induction false} RenderedPieces(ps: Params, parts: seq<Part>) returns (pieces: seq<string>)
    requires Render(ps, parts).Ok?
    ensures StandFor(ps, parts, pieces) && Concat(pieces) == Render(ps, parts).value
  {
    if parts == [] {
      pieces := [];
    } else {
      var others := RenderedPieces(ps, parts[1..]);
      var first := Substitute(ps, parts[0]).value;
      SubstituteStands(ps, parts[0]);
      pieces := [first] + others;
      assert pieces[1..] == others;
      assert forall i :: 1 <= i < |parts| ==> parts[i] == parts[1..][i - 1];
    }
  }

  lemma RepositoryDescribes(s: string, ds: seq<Declaration>, i: nat) returns (j: nat)
    requires Repository(s, ds).Ok? && i < |ds|
    ensures Defines(ds, i, Definitions(s).value, j)
    ensures ds[i].name in Repository(s, ds).value
    ensures Described(ds[i].params, Definitions(s).value[j].text) == Ok(Repository(s, ds).value[ds[i].name])
  {
    var defs := Definitions(s).value;
    assert Declared(ds)[i] in Elems(Declared(ds));
    j := FindName(Defined(defs), ds[i].name);
    TextsAt(ds, defs, j);
    OneDeclaration(ds, defs[j], i);
  }

  /**
   * Every declared query has its text, made from its only definition: piece by piece the parts of the definition,
   * each parameter by its number among the declared ones, and of all that what is left without the spaces at both
   * ends.
   */
  lemma RepositoryHolds(s: string, ds: seq<Declaration>, i: nat)
    returns (j: nat, pieces: seq<string>, first: nat, last: nat)
    requires Repository(s, ds).Ok? && i < |ds|
    ensures Defines(ds, i, Definitions(s).value, j)
    ensures StandFor(ds[i].params, Definitions(s).value[j].text, pieces)
    ensures ds[i].name in Repository(s, ds).value
    ensures var whole := Concat(pieces);
            && first <= last <= |whole| && Repository(s, ds).value[ds[i].name] == whole[first..last]
            && QueryLines.AllSpaces(whole[..first]) && QueryLines.AllSpaces(whole[last..])
            && (first < last ==> !QueryLines.IsSpace(whole[first]) && !QueryLines.IsSpace(whole[last - 1]))
  {
    j := RepositoryDescribes(s, ds, i);
    pieces := RenderedPieces(ds[i].params, Definitions(s).value[j].text);
    first, last := TrimMeaning(Concat(pieces));
  }
}
