/** The value classifier: `getValue` tries Integer, Boolean, Float, Table and
    String in that order and the first that matches wins. Each regular
    expression of the source is stated as an explicit predicate. */
module Classifier {
  import opened Strings
  import opened Decimal
  import opened Params

  /** `^([\d]+)$`: one or more ASCII digits. */
  predicate IntegerPattern(s: string) {
    |s| >= 1 && AllDigits(s)
  }

  /** `^True|False$`. The alternation binds loosest, so the expression is
      `^True` or `False$`: the string starts with `True` or ends with
      `False`. */
  predicate BooleanPattern(s: string) {
    StartsWith(s, "True") || EndsWith(s, "False")
  }

  /** `^([\d.]+)$`: one or more characters, each a digit or a dot. */
  predicate FloatPattern(s: string) {
    |s| >= 1 && forall i :: 0 <= i < |s| ==> IsDigit(s[i]) || s[i] == '.'
  }

  /** `^\( ([\S\s]*) \)(\[[\S\s]+\])$` matched with group 1 ending at `j`:
      the string is `( `, then group 1 `s[2..j]`, then ` )`, then group 2
      `s[j + 2..]`, which is `[`, at least one character, and `]`. */
  predicate TableSplit(s: string, j: int) {
    2 <= j && j + 5 <= |s| && s[..2] == "( " && s[j..j + 3] == " )[" && s[|s| - 1] == ']'
  }

  /** The largest split point not after `j`, or -1 if there is none. */
  function LastTableSplit(s: string, j: int): (k: int)
    ensures k == -1 || (k <= j && TableSplit(s, k))
    ensures forall i :: k < i <= j ==> !TableSplit(s, i)
    decreases j
  {
    if j < 2 then -1 else if TableSplit(s, j) then j else LastTableSplit(s, j - 1)
  }

  /** How a table value is laid out in the text it came from. */
  predicate TableText(s: string, a: ValueArray) {
    && s == "( " + Join(a.values, " ") + " )" + a.typeName
    && |a.typeName| >= 3 && a.typeName[0] == '[' && a.typeName[|a.typeName| - 1] == ']'
    && |a.values| >= 1
    && forall i :: 0 <= i < |a.values| ==> ' ' !in a.values[i]
  }

  function GetValueIfInteger(s: string): (r: Option<ParamValue>)
    ensures r.Some? <==> IntegerPattern(s)
    ensures r.Some? ==> r.value.paramType == Integer && r.value.value.IntValue?
    ensures r.Some? ==> NatToDecimal(r.value.value.n) == CanonicalDigits(s)
  {
    if IntegerPattern(s) then
      IntegerText(s);
      Some(ParamValue(IntValue(DigitsToNat(s)), Integer))
    else None
  }

  function GetValueIfBoolean(s: string): (r: Option<ParamValue>)
    ensures r.Some? <==> BooleanPattern(s)
    ensures r.Some? ==> r.value.paramType == Boolean && r.value.value.BoolValue?
    ensures r.Some? ==> (r.value.value.b <==> s == "True")
  {
    if BooleanPattern(s) then Some(ParamValue(BoolValue(s == "True"), Boolean)) else None
  }

  function GetValueIfFloat(s: string): (r: Option<ParamValue>)
    ensures r.Some? <==> FloatPattern(s)
    ensures r.Some? ==> r.value == ParamValue(FloatValue(s), Float)
  {
    if FloatPattern(s) then Some(ParamValue(FloatValue(s), Float)) else None
  }

  /** The table pattern: when it matches, the value is laid out as
      `( ` + rows joined by spaces + ` )` + type name, and group 1 is matched
      greedily, so the type name is the shortest possible. */
  function GetValueIfArray(s: string): (r: Option<ParamValue>)
    ensures r.Some? <==> exists j :: TableSplit(s, j)
    ensures r.Some? ==> r.value.paramType == Table && r.value.value.ArrayValue?
    ensures r.Some? ==> TableText(s, r.value.value.arr)
    ensures r.Some? ==> forall j :: TableSplit(s, j) ==> |s| - j - 2 >= |r.value.value.arr.typeName|
  {
    var j := LastTableSplit(s, |s| - 5);
    if j < 0 then None
    else
      TableAt(s, j);
      Some(ParamValue(ArrayValue(ValueArray(s[j + 2..], Split(s[2..j], ' '))), Table))
  }

  /** Splitting at a split point lays the text out as a table value. */
  lemma TableAt(s: string, j: int)
    requires TableSplit(s, j)
    ensures TableText(s, ValueArray(s[j + 2..], Split(s[2..j], ' ')))
  {
    var body := s[2..j];
    var t := s[j + 2..];
    JoinSplit(body, ' ');
    SplitPieces(body, ' ');
    assert s[..2] == "( ";
    var mid := s[j..j + 3];
    assert mid == " )[";
    assert s[j..j + 2] == mid[..2] == " )";
    assert s == s[..2] + body + s[j..j + 2] + t;
    assert t[0] == mid[2] && t[|t| - 1] == s[|s| - 1];
  }

  function GetValueString(s: string): (r: ParamValue)
    ensures r.paramType == String && r.value.StringValue? && r.value.s == s
  {
    ParamValue(StringValue(s), String)
  }

  /** The classification, with its fixed priority order. */
  function GetValue(s: string): (r: ParamValue)
    ensures IntegerPattern(s) ==> r.paramType == Integer
    ensures !IntegerPattern(s) && BooleanPattern(s) ==>
              r == ParamValue(BoolValue(s == "True"), Boolean)
    ensures !IntegerPattern(s) && !BooleanPattern(s) && FloatPattern(s) ==>
              r == ParamValue(FloatValue(s), Float)
    ensures !IntegerPattern(s) && !BooleanPattern(s) && !FloatPattern(s) && (exists j :: TableSplit(s, j)) ==>
              r.paramType == Table && r.value.ArrayValue? && TableText(s, r.value.arr)
              && forall j :: TableSplit(s, j) ==> |s| - j - 2 >= |r.value.arr.typeName|
    ensures !IntegerPattern(s) && !BooleanPattern(s) && !FloatPattern(s) && (forall j :: !TableSplit(s, j)) ==>
              r == ParamValue(StringValue(s), String)
    ensures Consistent(r.value, r.paramType)
  {
    var i := GetValueIfInteger(s);
    if i.Some? then i.value
    else
      var b := GetValueIfBoolean(s);
      if b.Some? then b.value
      else
        var f := GetValueIfFloat(s);
        if f.Some? then f.value
        else
          var a := GetValueIfArray(s);
          if a.Some? then a.value
          else GetValueString(s)
  }

  /** An Integer's value prints as its digits without leading zeros. */
  lemma IntegerValue(s: string)
    requires IntegerPattern(s)
    ensures GetValue(s).value.IntValue? && NatToDecimal(GetValue(s).value.n) == CanonicalDigits(s)
  {
  }

  /** Float only catches strings with at least one dot, because digit-only
      strings are Integer first. */
  lemma FloatHasDot(s: string)
    requires GetValue(s).paramType == Float
    ensures FloatPattern(s) && '.' in s && GetValue(s).value == FloatValue(s)
  {
    var i :| 0 <= i < |s| && !IsDigit(s[i]);
    assert s[i] == '.';
  }

  /** A String is the value unchanged, and it matched none of the other
      patterns. */
  lemma StringIsFallback(s: string)
    requires GetValue(s).paramType == String
    ensures GetValue(s).value == StringValue(s)
    ensures !IntegerPattern(s) && !BooleanPattern(s) && !FloatPattern(s)
    ensures forall j :: !TableSplit(s, j)
  {
  }

  /** A Boolean comes only from text matching the Boolean pattern and not
      the Integer one; and the text `True` is the only one classified as
      the Boolean true. */
  lemma BooleanValue(s: string)
    ensures GetValue(s).paramType == Boolean ==>
              BooleanPattern(s) && !IntegerPattern(s) && GetValue(s).value == BoolValue(s == "True")
    ensures GetValue(s) == ParamValue(BoolValue(true), Boolean) <==> s == "True"
  {
    if s == "True" {
      assert StartsWith(s, "True");
      assert !IsDigit(s[0]);
    }
  }

  /** The Boolean pattern as written is loose: any string that starts with
      `True` or ends with `False` is a Boolean, and only `True` itself is
      true. */
  lemma BooleanPatternIsLoose()
    ensures GetValue("True") == ParamValue(BoolValue(true), Boolean)
    ensures GetValue("False") == ParamValue(BoolValue(false), Boolean)
    ensures GetValue("Truely") == ParamValue(BoolValue(false), Boolean)
    ensures GetValue("NotFalse") == ParamValue(BoolValue(false), Boolean)
  {
    assert StartsWith("True", "True");
    assert EndsWith("False", "False");
    assert StartsWith("Truely", "True");
    assert EndsWith("NotFalse", "False");
    assert !IsDigit('T') && !IsDigit('F') && !IsDigit('N');
  }
}
