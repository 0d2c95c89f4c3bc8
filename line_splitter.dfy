/** The line splitter `parseParams`: the input is split on line feeds and
    every line matching `^([0-z]*)\=([\s\S]*)$` yields one parameter, in line
    order; other lines are dropped. */
module LineSplitter {
  import opened Strings
  import opened Seqs
  import opened Params
  import opened Classifier

  /** The character class `[0-z]`: code points from `0` (0x30) to `z`
      (0x7A). It contains `=`, `@`, `[`, `_` and other punctuation. */
  predicate NameChar(c: char) {
    '0' <= c <= 'z'
  }

  /** The regular expression matches with the `=` at index `k`: `line[k]` is
      `=` and everything before it is in `[0-z]`. The group `[\s\S]*` takes
      the rest of the line, whatever it is. */
  predicate SplitPoint(line: string, k: int) {
    0 <= k < |line| && line[k] == '=' && forall i :: 0 <= i < k ==> NameChar(line[i])
  }

  /** The two capture groups of a matching line. */
  datatype LineMatch = LineMatch(name: string, value: string)

  /** Length of the longest prefix made of `[0-z]` characters. */
  function NameRun(s: string): (n: nat)
    ensures n <= |s|
    ensures forall i :: 0 <= i < n ==> NameChar(s[i])
    ensures n < |s| ==> !NameChar(s[n])
    decreases |s|
  {
    if s == [] || !NameChar(s[0]) then 0 else 1 + NameRun(s[1..])
  }

  /** Index of the last occurrence of `c` in `s`, or -1. */
  function LastIndexOf(s: string, c: char): (k: int)
    ensures -1 <= k < |s|
    ensures k >= 0 ==> s[k] == c
    ensures forall i :: k < i < |s| ==> s[i] != c
    decreases |s|
  {
    if s == [] then -1
    else if s[|s| - 1] == c then |s| - 1
    else LastIndexOf(s[..|s| - 1], c)
  }

  /** Matching one line. The line matches exactly when some split point
      exists; the greedy `[0-z]*` then takes the longest name, so the name
      ends at the last split point and the value is everything after it. */
  function MatchLine(line: string): (r: Option<LineMatch>)
    ensures r.Some? <==> exists k :: SplitPoint(line, k)
    ensures r.Some? ==> SplitPoint(line, |r.value.name|)
    ensures r.Some? ==> line == r.value.name + "=" + r.value.value
    ensures r.Some? ==> forall k :: SplitPoint(line, k) ==> k <= |r.value.name|
  {
    var n := NameRun(line);
    var k := LastIndexOf(line[..n], '=');
    MatchLineCorrect(line, n, k);
    if k < 0 then None else Some(LineMatch(line[..k], line[k + 1..]))
  }

  lemma MatchLineCorrect(line: string, n: nat, k: int)
    requires n == NameRun(line) && k == LastIndexOf(line[..n], '=')
    ensures k >= 0 ==> SplitPoint(line, k) && line == line[..k] + "=" + line[k + 1..]
    ensures forall j :: SplitPoint(line, j) ==> 0 <= j <= k
  {
    if k >= 0 {
      assert line[k] == line[..n][k];
      assert line == line[..k] + [line[k]] + line[k + 1..];
    }
    forall j | SplitPoint(line, j) ensures 0 <= j <= k {
      assert NameChar(line[j]);
      assert j < n;
      assert line[..n][j] == '=';
    }
  }

  /** The parameter a matching line yields. */
  function ToParam(m: LineMatch): (p: Param)
    ensures p.name == m.name
    ensures ParamValue(p.value, p.paramType) == GetValue(m.value)
    ensures Consistent(p.value, p.paramType) && Declarable(p)
  {
    var v := GetValue(m.value);
    Param(m.name, v.value, v.paramType)
  }

  /** The parameters of a list of lines: what every line contributes, in
      line order; at most one per line, each consistent and declarable. */
  function ParseLines(lines: seq<string>): (ps: seq<Param>)
    ensures |ps| <= |lines|
    ensures forall i :: 0 <= i < |ps| ==> Declarable(ps[i]) && Consistent(ps[i].value, ps[i].paramType)
  {
    ParsedAreValid(lines);
    FlatMap(LineParams, lines)
  }

  lemma {:induction false} ParsedAreValid(lines: seq<string>)
    ensures var ps := FlatMap(LineParams, lines);
      && |ps| <= |lines|
      && forall i :: 0 <= i < |ps| ==> Declarable(ps[i]) && Consistent(ps[i].value, ps[i].paramType)
    decreases |lines|
  {
    if lines != [] {
      ParsedAreValid(lines[..|lines| - 1]);
    }
  }

  /** What one line contributes: one parameter exactly when it matches,
      carrying the matched name and the classification of the matched
      value; none otherwise. */
  function LineParams(line: string): (ps: seq<Param>)
    ensures |ps| <= 1
    ensures |ps| == 1 <==> exists k :: SplitPoint(line, k)
    ensures |ps| == 1 ==>
              ps[0].name == MatchLine(line).value.name
              && ParamValue(ps[0].value, ps[0].paramType) == GetValue(MatchLine(line).value.value)
    ensures forall i :: 0 <= i < |ps| ==> Declarable(ps[i]) && Consistent(ps[i].value, ps[i].paramType)
  {
    match MatchLine(line)
    case Some(m) => [ToParam(m)]
    case None => []
  }

  /** `parseParams`: the loop over the lines of the input. */
  method ParseParams(input: string) returns (result: seq<Param>)
    ensures result == ParseLines(Split(input, '\n'))
  {
    var lines := Split(input, '\n');
    result := CollectParams(lines);
  }

  /** The loop over the lines. */
  method CollectParams(lines: seq<string>) returns (result: seq<Param>)
    ensures result == ParseLines(lines)
  {
    result := [];
    for i := 0 to |lines|
      invariant result == ParseLines(lines[..i])
    {
      assert lines[..i + 1][..i] == lines[..i];
      var m := MatchLine(lines[i]);
      if m.Some? {
        result := result + [ToParam(m.value)];
      }
      assert result == ParseLines(lines[..i]) + LineParams(lines[i]);
    }
    assert lines[..|lines|] == lines;
  }

  /** A single line yields what it contributes. */
  lemma ParseLine(line: string)
    ensures ParseLines([line]) == LineParams(line)
  {
    assert [line][..0] == [];
    assert FlatMap(LineParams, [line]) == FlatMap(LineParams, []) + LineParams(line);
  }

  /** Parsing preserves line order: the parameters of two blocks of lines are
      those of the first block followed by those of the second. */
  lemma ParseLinesAppend(a: seq<string>, b: seq<string>)
    ensures ParseLines(a + b) == ParseLines(a) + ParseLines(b)
  {
    FlatMapAppend(LineParams, a, b);
  }

  /** Every matching line yields its parameter, right after the parameters
      of the lines before it. */
  lemma ParseLinesKeeps(lines: seq<string>, i: nat)
    requires i < |lines| && MatchLine(lines[i]).Some?
    ensures var k := |ParseLines(lines[..i])|;
            k < |ParseLines(lines)| && ParseLines(lines)[k] == ToParam(MatchLine(lines[i]).value)
  {
    assert lines == lines[..i] + [lines[i]] + lines[i + 1..];
    ParseLinesAppend(lines[..i] + [lines[i]], lines[i + 1..]);
    ParseLinesAppend(lines[..i], [lines[i]]);
    ParseLine(lines[i]);
  }

  /** Lines of which none matches yield no parameter. */
  lemma {:induction false} ParseLinesNone(lines: seq<string>)
    requires forall i :: 0 <= i < |lines| ==> MatchLine(lines[i]).None?
    ensures ParseLines(lines) == []
    decreases |lines|
  {
    if lines != [] {
      ParseLinesNone(lines[..|lines| - 1]);
    }
  }

  /** The name group is greedy: in `a=b=c` the name is `a=b`. */
  lemma MatchLineGreedy()
    ensures MatchLine("a=b=c") == Some(LineMatch("a=b", "c"))
  {
    var line := "a=b=c";
    assert SplitPoint(line, 3);
    var r := MatchLine(line);
    assert |r.value.name| == 3 by {
      assert !SplitPoint(line, 4) && !SplitPoint(line, 2);
    }
    assert r.value.name == line[..3] == "a=b";
    assert r.value.value == line[4..] == "c";
  }

  /** The name group may be empty: `=x` has the empty name. */
  lemma MatchLineEmptyName()
    ensures MatchLine("=x") == Some(LineMatch("", "x"))
  {
    assert SplitPoint("=x", 0);
  }

  /** A line whose first character is outside `[0-z]` does not match. */
  lemma MatchLineLeadingSpace()
    ensures MatchLine(" a=1") == None
  {
    assert !NameChar(' ');
  }
}
