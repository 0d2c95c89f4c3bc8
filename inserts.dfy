/** The row renderer and insert generator `addInsert`: every non-empty row
    string of a table becomes one SQL row constructor, and the rows go out in
    `INSERT INTO @name VALUES (...), (...)` statements of at most 1000 rows. */
module Inserts {
  import opened Strings
  import opened Params
  import opened Seqs
  import opened Chunking

  /** The number of rows `addInsert` puts into one INSERT statement. */
  const InsertBatchSize: nat := 1000

  /** One column of a row: passed through, or `NULL` when empty. */
  function Field(col: string): string {
    if col == "" then "NULL" else col
  }

  function RenderFields(cols: seq<string>): seq<string> {
    Map(Field, cols)
  }

  /** The row text of one row string: trimmed, split on commas, every column
      through `Field`, joined again with commas. */
  function RenderRow(item: string): string {
    Join(RenderFields(Split(Trim(item), ',')), ",")
  }

  /** The row strings `addInsert` keeps, in order: those that are not
      empty before trimming. */
  function NonEmpty(items: seq<string>): (kept: seq<string>)
    ensures |kept| <= |items|
    ensures forall i :: 0 <= i < |kept| ==> kept[i] != ""
    decreases |items|
  {
    if items == [] then []
    else NonEmpty(items[..|items| - 1]) + (if items[|items| - 1] == "" then [] else [items[|items| - 1]])
  }

  /** The rows of a table: the row text of every kept row string, in order. */
  function Rows(items: seq<string>): seq<string> {
    Map(RenderRow, NonEmpty(items))
  }

  /** The text the inner loop builds: every column through `Field`, each
      followed by a comma. */
  function FieldsText(cols: seq<string>): string
    decreases |cols|
  {
    if cols == [] then [] else FieldsText(cols[..|cols| - 1]) + Field(cols[|cols| - 1]) + ","
  }

  /** One INSERT statement for a chunk of rows. */
  function InsertBlock(name: string, chunk: seq<string>): string {
    "INSERT INTO @" + name + "\n" + "VALUES (" + Join(chunk, "), (") + ")\n"
  }

  /** One INSERT statement per chunk, in chunk order. */
  function Blocks(name: string, chunks: seq<seq<string>>): string
    decreases |chunks|
  {
    if chunks == [] then [] else Blocks(name, chunks[..|chunks| - 1]) + InsertBlock(name, chunks[|chunks| - 1])
  }

  /** The text `addInsert` returns for a table parameter. */
  function InsertText(name: string, items: seq<string>): string {
    Blocks(name, Chunks(Rows(items), InsertBatchSize))
  }

  /** Dropping the final comma of the inner loop's text leaves the columns
      joined by commas. */
  lemma {:induction false} FieldsTextJoin(cols: seq<string>)
    requires |cols| >= 1
    ensures FieldsText(cols) == Join(RenderFields(cols), ",") + ","
    decreases |cols|
  {
    var init := cols[..|cols| - 1];
    if |cols| == 1 {
      assert init == [];
    } else {
      FieldsTextJoin(init);
      assert RenderFields(cols) == RenderFields(init) + [Field(cols[|cols| - 1])];
      JoinSnoc(RenderFields(init), Field(cols[|cols| - 1]), ",");
    }
  }

  /** The inner loop of `addInsert` for one non-empty row string: the
      trimmed string is split on commas, every column is appended through
      `Field` with a comma after it, and the final comma is cut off. */
  method RenderItem(item: string) returns (row: string)
    ensures row == RenderRow(item)
  {
    var trimmed := TrimEnd(TrimStart(item));
    var cols := Split(trimmed, ',');
    var param := AppendFields(cols);
    FieldsTextJoin(cols);
    ghost var joined := Join(RenderFields(cols), ",");
    assert param[..|param| - 1] == joined;
    row := param[..|param| - 1];
  }

  /** The loop over the columns: each column through `Field`, then a comma. */
  method AppendFields(cols: seq<string>) returns (param: string)
    ensures param == FieldsText(cols)
  {
    param := "";
    for c := 0 to |cols|
      invariant param == FieldsText(cols[..c])
    {
      assert cols[..c + 1][..c] == cols[..c];
      param := param + (if cols[c] != "" then cols[c] else "NULL");
      param := param + ",";
    }
    assert cols[..|cols|] == cols;
  }

  /** `addInsert`: render the rows, cut them into chunks of 1000, and emit one
      INSERT statement per chunk. The source casts the parameter's value to a
      `ValueArray`. */
  method AddInsert(parameter: Param) returns (result: string)
    requires parameter.value.ArrayValue?
    ensures result == InsertText(parameter.name, parameter.value.arr.values)
  {
    var items := parameter.value.arr.values;
    var matchesList: seq<string> := [];
    for k := 0 to |items|
      invariant matchesList == Rows(items[..k])
    {
      var item := items[k];
      assert items[..k + 1] == items[..k] + [item];
      RowsSnoc(items[..k], item);
      if item == "" {
        continue;
      }
      var row := RenderItem(item);
      matchesList := matchesList + [row];
    }
    assert items[..|items|] == items;
    var chunked := ChunkArray(matchesList, InsertBatchSize);
    result := EmitInserts(parameter.name, chunked);
  }

  /** The last loop of `addInsert`: one INSERT statement per chunk, appended
      to the result in chunk order. */
  method EmitInserts(name: string, chunked: seq<seq<string>>) returns (result: string)
    ensures result == Blocks(name, chunked)
  {
    result := "";
    for k := 0 to |chunked|
      invariant result == Blocks(name, chunked[..k])
    {
      assert chunked[..k + 1][..k] == chunked[..k];
      ghost var before := result;
      result := result + "INSERT INTO @" + name + "\n";
      result := result + "VALUES (";
      var param := Join(chunked[k], "), (");
      result := result + param + ")\n";
      assert result == before + InsertBlock(name, chunked[k]);
    }
    assert chunked[..|chunked|] == chunked;
  }

  /** A row has one column per comma-separated field of the trimmed row
      string (one more than its commas), in order, each passed through or
      replaced by `NULL` when empty; the columns can be read back by
      splitting on commas. */
  lemma RowColumns(item: string)
    ensures Split(RenderRow(item), ',') == RenderFields(Split(Trim(item), ','))
    ensures |Split(RenderRow(item), ',')| == CountChar(Trim(item), ',') + 1
  {
    var cols := Split(Trim(item), ',');
    var fs := RenderFields(cols);
    SplitPieces(Trim(item), ',');
    forall i | 0 <= i < |fs| ensures ',' !in fs[i] {
      assert "NULL" == ['N', 'U', 'L', 'L'];
    }
    SplitJoin(fs, ',');
    SplitCount(Trim(item), ',');
  }

  /** A non-empty row string of whitespace only becomes the row `NULL`. */
  lemma BlankItemIsNull(item: string)
    requires item != "" && AllWhitespace(item)
    ensures Rows([item]) == ["NULL"]
  {
    assert [item][..0] == [];
    assert NonEmpty([item]) == [item];
    assert Split(Trim(item), ',') == [[]];
  }

  /** Row order follows item order: the rows of two lists of items are those
      of the first followed by those of the second. */
  lemma RowsAppend(a: seq<string>, b: seq<string>)
    ensures Rows(a + b) == Rows(a) + Rows(b)
  {
    NonEmptyAppend(a, b);
    MapAppend(RenderRow, NonEmpty(a), NonEmpty(b));
  }

  /** One more row string adds its row unless it is empty. */
  lemma RowsSnoc(items: seq<string>, item: string)
    ensures Rows(items + [item]) == Rows(items) + (if item == "" then [] else [RenderRow(item)])
  {
    RowsAppend(items, [item]);
    assert [item][..0] == [];
  }

  lemma {:induction false} NonEmptyAppend(a: seq<string>, b: seq<string>)
    ensures NonEmpty(a + b) == NonEmpty(a) + NonEmpty(b)
    decreases |b|
  {
    if b == [] {
      assert a + b == a;
    } else {
      var ab := a + b;
      assert ab[..|ab| - 1] == a + b[..|b| - 1];
      assert ab[|ab| - 1] == b[|b| - 1];
      NonEmptyAppend(a, b[..|b| - 1]);
    }
  }

  /** Every non-empty row string is kept: it gives a row, and the rows before
      it are those of the strings before it. */
  lemma NonEmptyKeeps(items: seq<string>, i: nat)
    requires i < |items| && items[i] != ""
    ensures var k := |NonEmpty(items[..i])|; k < |Rows(items)| && Rows(items)[k] == RenderRow(items[i])
  {
    assert items == items[..i] + [items[i]] + items[i + 1..];
    NonEmptyAppend(items[..i] + [items[i]], items[i + 1..]);
    NonEmptyAppend(items[..i], [items[i]]);
    assert [items[i]][..0] == [];
  }

  /** The insert text is one INSERT statement per chunk of rows, in chunk
      order; the chunks hold all rows in order, each between 1 and 1000 of
      them, all but the last exactly 1000. */
  lemma InsertTextShape(name: string, items: seq<string>)
    ensures var cs := Chunks(Rows(items), InsertBatchSize);
      && InsertText(name, items) == Concat(seq(|cs|, i requires 0 <= i < |cs| => InsertBlock(name, cs[i])))
      && Concat(cs) == Rows(items)
      && (forall i :: 0 <= i < |cs| ==> 1 <= |cs[i]| <= InsertBatchSize)
      && (forall i :: 0 <= i < |cs| - 1 ==> |cs[i]| == InsertBatchSize)
      && (|cs| - 1) * InsertBatchSize < |Rows(items)| <= |cs| * InsertBatchSize
  {
    var cs := Chunks(Rows(items), InsertBatchSize);
    ChunksConcat(Rows(items), InsertBatchSize);
    ChunksSizes(Rows(items), InsertBatchSize);
    ChunksCount(Rows(items), InsertBatchSize);
    BlocksConcat(name, cs);
  }

  lemma {:induction false} BlocksConcat(name: string, cs: seq<seq<string>>)
    ensures Blocks(name, cs) == Concat(seq(|cs|, i requires 0 <= i < |cs| => InsertBlock(name, cs[i])))
    decreases |cs|
  {
    if cs != [] {
      var init := cs[..|cs| - 1];
      BlocksConcat(name, init);
      var bs := seq(|cs|, i requires 0 <= i < |cs| => InsertBlock(name, cs[i]));
      assert bs[..|bs| - 1] == seq(|init|, i requires 0 <= i < |init| => InsertBlock(name, init[i]));
    }
  }

  /** A table without rows gives no insert text at all. */
  lemma NoRowsNoInsert(name: string, items: seq<string>)
    requires forall i :: 0 <= i < |items| ==> items[i] == ""
    ensures InsertText(name, items) == ""
  {
    EmptyItemsKeepNothing(items);
  }

  lemma {:induction false} EmptyItemsKeepNothing(items: seq<string>)
    requires forall i :: 0 <= i < |items| ==> items[i] == ""
    ensures NonEmpty(items) == []
    decreases |items|
  {
    if items != [] {
      EmptyItemsKeepNothing(items[..|items| - 1]);
    }
  }
}
