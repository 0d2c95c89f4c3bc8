/** The component `AppComponent`: it holds the input text, the output text
    and an error message, and `translateInput` compiles the input into the
    T-SQL script. */
module App {
  import opened Strings
  import opened Seqs
  import opened Decimal
  import opened Classifier
  import opened Params
  import opened LineSplitter
  import opened Declarations

  /** The output text for an input text: empty for a blank input, otherwise
      the query of the parameters of its lines. */
  function Compile(input: string): string {
    if Trim(input) == [] then [] else Query(ParseLines(Split(input, '\n')))
  }

  class AppComponent {
    var inputText: string
    var outputText: string
    var errorMessage: string

    constructor ()
      ensures inputText == "" && outputText == "" && errorMessage == ""
    {
      inputText := "";
      outputText := "";
      errorMessage := "";
    }

    /** `translateInput`: a blank input clears the output and the error
        message; any other input is parsed into parameters and the output
        becomes the query for them. The input is never changed and no
        error is raised. */
    method TranslateInput()
      modifies this
      ensures inputText == old(inputText)
      ensures outputText == Compile(inputText)
      ensures errorMessage == ""
    {
      var input := inputText;
      if Trim(input) == [] {
        outputText := "";
        errorMessage := "";
        return;
      }
      var test := ParseParams(input);
      outputText := AddQueryWithParameters(test);
      errorMessage := "";
    }
  }

  /** A blank input (empty or whitespace only) gives no output at all; any
      other input gives a script that starts with `DECLARE` and a line feed
      and ends with a line feed. */
  lemma CompileShape(input: string)
    ensures Compile(input) == "" <==> AllWhitespace(input)
    ensures !AllWhitespace(input) ==> StartsWith(Compile(input), "DECLARE\n") && EndsWith(Compile(input), "\n")
  {
    if !AllWhitespace(input) {
      QueryShape(DeclareAll(ParseLines(Split(input, '\n'))));
    }
  }

  /** A non-blank input none of whose lines is an assignment gives the bare
      header: `DECLARE` and three line feeds. */
  lemma CompileNoMatches(input: string)
    requires !AllWhitespace(input)
    requires forall i :: 0 <= i < |Split(input, '\n')| ==> MatchLine(Split(input, '\n')[i]).None?
    ensures Compile(input) == "DECLARE\n\n\n"
  {
    ParseLinesNone(Split(input, '\n'));
    EmptyQuery();
  }

  /** An input is its lines joined by line feeds, and the query is that of
      the parameters of those lines, in line order. */
  lemma CompileLines(lines: seq<string>)
    requires |lines| >= 1
    requires forall i :: 0 <= i < |lines| ==> '\n' !in lines[i]
    requires !AllWhitespace(Join(lines, "\n"))
    ensures Compile(Join(lines, "\n")) == Query(ParseLines(lines))
  {
    SplitJoin(lines, '\n');
  }

  /** One assignment of a digit string declares a BIGINT without the
      leading zeros. */
  lemma CompileInteger()
    ensures Compile("x=007") == "DECLARE\n@x BIGINT = 7\n\n"
  {
    var line := "x=007";
    assert !IsWhitespace(line[0]);
    SplitNoSep(line, '\n');
    IntegerLine();
    IntegerQuery();
  }

  /** The single line `x=007` becomes the Integer parameter `x` with value
      7. */
  lemma IntegerLine()
    ensures ParseLines(["x=007"]) == [Param("x", IntValue(7), Integer)]
  {
    ParseLine("x=007");
    IntegerLineParams();
  }

  lemma IntegerLineParams()
    ensures LineParams("x=007") == [Param("x", IntValue(7), Integer)]
  {
    IntegerMatch();
    IntegerClassify();
  }

  lemma IntegerMatch()
    ensures MatchLine("x=007") == Some(LineMatch("x", "007"))
  {
    var line := "x=007";
    assert SplitPoint(line, 1);
    assert forall k :: SplitPoint(line, k) ==> k <= 1 by {
      assert line[1] == '=' && !NameChar(' ');
    }
    var m := MatchLine(line).value;
    assert m.name == line[..1] == "x";
    assert m.value == line[2..] == "007";
  }

  lemma IntegerClassify()
    ensures GetValue("007") == ParamValue(IntValue(7), Integer)
  {
    assert DigitsToNat("007") == 7 by {
      assert "007"[..2] == "00" && "00"[..1] == "0" && "0"[..0] == "";
    }
  }

  /** The Integer parameter `x` with value 7 is declared as `@x BIGINT = 7`
      and has no insert. */
  lemma IntegerQuery()
    ensures Query([Param("x", IntValue(7), Integer)]) == "DECLARE\n@x BIGINT = 7\n\n"
  {
    var p := Param("x", IntValue(7), Integer);
    var d := DeclareParam("@x BIGINT = 7", None);
    IntegerDeclare();
    assert DeclareAll([p]) == [d];
    QueryOne(d);
    assert "DECLARE\n" + d.paramString + "\n" + "" + "\n" == "DECLARE\n@x BIGINT = 7\n\n";
  }

  lemma IntegerDeclare()
    ensures GetDeclareParameter(Param("x", IntValue(7), Integer)) == DeclareParam("@x BIGINT = 7", None)
  {
    assert NatToDecimal(7) == "7";
  }
}
