/** The declaration generator `getDeclareParameter` and the assembly of the
    whole query in `addQueryWithParameters`. */
module Declarations {
  import opened Strings
  import opened Seqs
  import opened Decimal
  import opened Params
  import opened Inserts

  /** The text a template string `${value}` produces for a value: a
      non-negative integer in canonical decimal, a Float's text, `true` or
      `false`, a string as it is, and an object as `[object Object]`. */
  function Render(v: Value): string {
    match v
    case IntValue(n) => NatToDecimal(n)
    case FloatValue(t) => t
    case BoolValue(b) => if b then "true" else "false"
    case StringValue(s) => s
    case ArrayValue(_) => "[object Object]"
  }

  /** One template per parameter type. Every declaration starts with `@`,
      the name and a space; only a table has an insert, and it is the
      table's INSERT statements; a Boolean declares `BIT = 1` exactly when
      its value is `true`. */
  function GetDeclareParameter(p: Param): (d: DeclareParam)
    requires Declarable(p)
    ensures StartsWith(d.paramString, "@" + p.name + " ")
    ensures d.insert.Some? <==> p.paramType == Table
    ensures p.paramType == Table ==>
              d.insert.value == InsertText(p.name, p.value.arr.values)
              && d.paramString == "@" + p.name + " " + p.value.arr.typeName
    ensures p.paramType == Boolean ==>
              (d.paramString == "@" + p.name + " BIT = 1" <==> p.value == BoolValue(true))
              && (d.paramString == "@" + p.name + " BIT = 0" <==> p.value != BoolValue(true))
  {
    var head := "@" + p.name + " ";
    var d :=
      match p.paramType
      case Table => DeclareParam(head + p.value.arr.typeName, Some(InsertText(p.name, p.value.arr.values)))
      case String => DeclareParam(head + "NVARCHAR(MAX) = N'" + Render(p.value) + "'", None)
      case Null => DeclareParam(head + "NVARCHAR(10) = NULL", None)
      case Boolean => DeclareParam(head + "BIT = " + (if p.value == BoolValue(true) then "1" else "0"), None)
      case Integer => DeclareParam(head + "BIGINT = " + Render(p.value), None)
      case Float => DeclareParam(head + "DECIMAL(16, 5) = " + Render(p.value), None);
    assert d.paramString[..|head|] == head;
    assert p.paramType == Boolean ==> d.paramString[|head| + 6] == (if p.value == BoolValue(true) then '1' else '0');
    d
  }

  /** A String goes into `N'...'` as it is: quotes inside it are not
      escaped. */
  lemma StringDeclaration(p: Param)
    requires p.paramType == String && p.value.StringValue?
    ensures GetDeclareParameter(p).paramString == "@" + p.name + " NVARCHAR(MAX) = N'" + p.value.s + "'"
  {
  }

  /** A Null declares an `NVARCHAR(10)` set to `NULL`, whatever its value. */
  lemma NullDeclaration(p: Param)
    requires p.paramType == Null
    ensures GetDeclareParameter(p).paramString == "@" + p.name + " NVARCHAR(10) = NULL"
  {
  }

  /** An Integer declares a `BIGINT` with its canonical decimal text. */
  lemma IntegerDeclaration(p: Param)
    requires p.paramType == Integer && p.value.IntValue?
    ensures GetDeclareParameter(p).paramString == "@" + p.name + " BIGINT = " + NatToDecimal(p.value.n)
  {
  }

  /** A Float declares a `DECIMAL(16, 5)` with its text. */
  lemma FloatDeclaration(p: Param)
    requires p.paramType == Float && p.value.FloatValue?
    ensures GetDeclareParameter(p).paramString == "@" + p.name + " DECIMAL(16, 5) = " + p.value.text
  {
  }

  /** The literal of an Integer declaration reads back as the parameter's
      value, and it has no leading zero unless the value is 0. */
  lemma IntegerDeclarationValue(p: Param)
    requires p.paramType == Integer && p.value.IntValue?
    ensures var d := GetDeclareParameter(p).paramString;
            var lit := d[|"@" + p.name + " BIGINT = "|..];
            && StartsWith(d, "@" + p.name + " BIGINT = ")
            && AllDigits(lit) && DigitsToNat(lit) == p.value.n
            && (lit[0] == '0' ==> lit == "0")
  {
    IntegerDeclaration(p);
    var head := "@" + p.name + " BIGINT = ";
    var d := GetDeclareParameter(p).paramString;
    assert d[|head|..] == NatToDecimal(p.value.n);
    assert d[..|head|] == head;
    DecimalRoundTrip(p.value.n);
  }

  /** The result of `getDeclareParameter` for every parameter, in parameter
      order. */
  function DeclareAll(ps: seq<Param>): seq<DeclareParam>
    requires forall i :: 0 <= i < |ps| ==> Declarable(ps[i])
  {
    Map(GetDeclareParameter, ps)
  }

  /** The list the `map` returns: the declaration text of every result. */
  function ParamStrings(ds: seq<DeclareParam>): (ss: seq<string>)
    ensures |ss| == |ds|
    ensures forall i :: 0 <= i < |ds| ==> ss[i] == ds[i].paramString
  {
    seq(|ds|, i requires 0 <= i < |ds| => ds[i].paramString)
  }

  /** What one result adds to the insert section: its insert, if any. */
  function InsertOf(d: DeclareParam): string {
    match d.insert
    case Some(text) => text
    case None => ""
  }

  function InsertList(ds: seq<DeclareParam>): seq<string> {
    Map(InsertOf, ds)
  }

  /** The insert section: the inserts of the results, in order. */
  function AllInserts(ds: seq<DeclareParam>): string {
    Concat(InsertList(ds))
  }

  /** The query for a list of results: `DECLARE`, the declarations joined by
      `,` and a line feed, a line feed, the insert section, and a final line
      feed. */
  function QueryText(ds: seq<DeclareParam>): string {
    "DECLARE\n" + Join(ParamStrings(ds), ",\n") + "\n" + AllInserts(ds) + "\n"
  }

  /** The query for a list of parameters. */
  function Query(ps: seq<Param>): string
    requires forall i :: 0 <= i < |ps| ==> Declarable(ps[i])
  {
    QueryText(DeclareAll(ps))
  }

  /** `addQueryWithParameters`: the `map` over the parameters collects the
      declarations and, as a side effect, appends every truthy (non-empty)
      insert to the insert section. */
  method AddQueryWithParameters(params: seq<Param>) returns (queryWithParameters: string)
    requires forall i :: 0 <= i < |params| ==> Declarable(params[i])
    ensures queryWithParameters == Query(params)
  {
    queryWithParameters := "";
    queryWithParameters := queryWithParameters + "DECLARE\n";
    assert queryWithParameters == "DECLARE\n";
    var parametersList, insert := MapParameters(params);
    var joinParam := Join(parametersList, ",\n");
    queryWithParameters := queryWithParameters + (joinParam + "\n");
    queryWithParameters := queryWithParameters + (insert + "\n");
    QueryOfParts(params, parametersList, insert);
  }

  /** The `map` over the parameters: the list of declarations it returns and
      the insert section its callback builds on the side. */
  method MapParameters(params: seq<Param>) returns (parametersList: seq<string>, insert: string)
    requires forall i :: 0 <= i < |params| ==> Declarable(params[i])
    ensures parametersList == ParamStrings(DeclareAll(params))
    ensures insert == AllInserts(DeclareAll(params))
  {
    insert := "";
    parametersList := [];
    for i := 0 to |params|
      invariant parametersList == ParamStrings(DeclareAll(params[..i]))
      invariant insert == AllInserts(DeclareAll(params[..i]))
    {
      parametersList, insert := AddParameter(params[..i], params[i], parametersList, insert);
      assert params[..i + 1] == params[..i] + [params[i]];
    }
    assert params[..|params|] == params;
  }

  /** The query text of the parameters, from the declaration list and the
      insert section the loop builds. */
  lemma QueryOfParts(params: seq<Param>, parametersList: seq<string>, insert: string)
    requires forall i :: 0 <= i < |params| ==> Declarable(params[i])
    requires parametersList == ParamStrings(DeclareAll(params))
    requires insert == AllInserts(DeclareAll(params))
    ensures Query(params) == "DECLARE\n" + (Join(parametersList, ",\n") + "\n") + (insert + "\n")
  {
  }

  /** The callback of the `map` for one parameter: its declaration goes to
      the list, and its insert, when it has a non-empty one, to the insert
      section. */
  method AddParameter(done: seq<Param>, parameter: Param, parametersList: seq<string>, insert: string)
    returns (parametersList': seq<string>, insert': string)
    requires forall i :: 0 <= i < |done| ==> Declarable(done[i])
    requires Declarable(parameter)
    requires parametersList == ParamStrings(DeclareAll(done)) && insert == AllInserts(DeclareAll(done))
    ensures parametersList' == ParamStrings(DeclareAll(done + [parameter]))
    ensures insert' == AllInserts(DeclareAll(done + [parameter]))
  {
    var result := GetDeclareParameter(parameter);
    DeclareAllSnoc(done, parameter);
    DeclareStep(DeclareAll(done), result);
    insert' := insert;
    if result.insert.Some? && result.insert.value != "" {
      insert' := insert + result.insert.value;
    }
    parametersList' := parametersList + [result.paramString];
  }

  lemma DeclareAllSnoc(ps: seq<Param>, p: Param)
    requires forall i :: 0 <= i < |ps| ==> Declarable(ps[i])
    requires Declarable(p)
    ensures DeclareAll(ps + [p]) == DeclareAll(ps) + [GetDeclareParameter(p)]
  {
    DeclareAllAppend(ps, [p]);
  }

  /** One more result adds its declaration and its insert, when it has a
      non-empty one. */
  lemma DeclareStep(ds: seq<DeclareParam>, d: DeclareParam)
    ensures ParamStrings(ds + [d]) == ParamStrings(ds) + [d.paramString]
    ensures AllInserts(ds + [d]) == AllInserts(ds) + (if d.insert.Some? && d.insert.value != "" then d.insert.value else "")
  {
    AllInsertsAppend(ds, [d]);
    ParamStringsAppend(ds, [d]);
    assert InsertList([d]) == [InsertOf(d)];
    assert Concat([InsertOf(d)]) == InsertOf(d) by {
      assert [InsertOf(d)][..0] == [];
    }
  }

  /** Every query starts with `DECLARE` and a line feed and ends with a line
      feed. */
  lemma QueryShape(ds: seq<DeclareParam>)
    ensures StartsWith(QueryText(ds), "DECLARE\n") && EndsWith(QueryText(ds), "\n")
  {
    var rest := Join(ParamStrings(ds), ",\n") + "\n" + AllInserts(ds) + "\n";
    assert QueryText(ds) == "DECLARE\n" + rest;
    var init := "DECLARE\n" + Join(ParamStrings(ds), ",\n") + "\n" + AllInserts(ds);
    assert QueryText(ds) == init + "\n";
  }

  /** The query for a single result: its declaration on the line after
      `DECLARE`, then its insert, if any, and a final line feed. */
  lemma QueryOne(d: DeclareParam)
    ensures QueryText([d]) == "DECLARE\n" + d.paramString + "\n" + InsertOf(d) + "\n"
  {
    assert ParamStrings([d]) == [d.paramString];
    assert InsertList([d]) == [InsertOf(d)];
    ConcatCons(InsertOf(d), []);
    assert [InsertOf(d)] + [] == [InsertOf(d)];
    assert InsertOf(d) + [] == InsertOf(d);
  }

  /** Without parameters the query is the bare header: `DECLARE` and three
      line feeds. */
  lemma EmptyQuery()
    ensures Query([]) == "DECLARE\n\n\n"
  {
    assert DeclareAll([]) == [];
  }

  /** The insert section follows result order. */
  lemma AllInsertsAppend(a: seq<DeclareParam>, b: seq<DeclareParam>)
    ensures AllInserts(a + b) == AllInserts(a) + AllInserts(b)
  {
    MapAppend(InsertOf, a, b);
    ConcatAppend(InsertList(a), InsertList(b));
  }

  /** Only tables contribute to the insert section: without a table
      parameter it is empty. */
  lemma NoTablesNoInserts(ps: seq<Param>)
    requires forall i :: 0 <= i < |ps| ==> Declarable(ps[i]) && ps[i].paramType != Table
    ensures AllInserts(DeclareAll(ps)) == ""
  {
    EmptyConcat(InsertList(DeclareAll(ps)));
  }

  /** The declarations follow result order. */
  lemma ParamStringsAppend(a: seq<DeclareParam>, b: seq<DeclareParam>)
    ensures ParamStrings(a + b) == ParamStrings(a) + ParamStrings(b)
  {
    var ab := a + b;
    assert forall i :: 0 <= i < |ab| ==> ab[i] == if i < |a| then a[i] else b[i - |a|];
  }

  /** Parameter order is kept: the results for two lists of parameters are
      those of the first followed by those of the second. */
  lemma DeclareAllAppend(a: seq<Param>, b: seq<Param>)
    requires forall i :: 0 <= i < |a| ==> Declarable(a[i])
    requires forall i :: 0 <= i < |b| ==> Declarable(b[i])
    ensures DeclareAll(a + b) == DeclareAll(a) + DeclareAll(b)
  {
    MapAppend(GetDeclareParameter, a, b);
  }
}
