# ParamsToSql compiler core in Dafny

ParamsToSql is an Angular page that turns lines of `name=value` into a
T-SQL script: a `DECLARE` block with one variable per parameter, followed
by `INSERT INTO @table VALUES (...)` statements for table-valued
parameters, batched 1000 rows per statement. This project models the
compiler behind that page, which is the component `AppComponent` in
`params-to-sql/src/app/app.component.ts`, and proves what each stage does.

The stages and their Dafny modules:

- `LineSplitter`: `parseParams`. It splits the input on line feeds and matches every line against `^([0-z]*)\=([\s\S]*)$`. The match is modelled as an explicit predicate: a greedy name over the code-point range `0`..`z`, which may be empty.
- `Classifier`: `getValue` and the `getValueIf*` functions. They classify a value text as Integer, Boolean, Float, Table or String, in that priority order.
- `Chunking`: `chunkArray`, the index-stepping loop that slices a list into chunks.
- `Inserts`: `addInsert`, the row renderer and the INSERT-statement emitter.
- `Declarations`: `getDeclareParameter`, one template per parameter type, and `addQueryWithParameters`, which assembles the script.
- `App`: the class `AppComponent`, with its three fields `inputText`, `outputText` and `errorMessage` and the method `TranslateInput`.
- `Params` holds the records `Param`, `ParamValue`, `ValueArray`, `ParamType` and `DeclareParam`.
- `Strings`, `Decimal` and `Seqs` hold the JavaScript string operations the code relies on: `split` on one character, `join`, `trim`/`trimStart`/`trimEnd`, and the printing of a non-negative integer. They also hold list helpers.

Where the code carries out a loop, the model is a method with that loop. Each such method is proved equal to a specification function: `ParseParams` to `ParseLines`, `AddInsert` to `InsertText`, `ChunkArray` to `Chunks`, `AddQueryWithParameters` to `Query`, and `TranslateInput` to `Compile`. The lemmas then state the properties of those functions.

A function cannot call a method in Dafny. So `GetDeclareParameter`
uses the function `InsertText` where the code calls `addInsert`, and
`Query` stands for the whole of `addQueryWithParameters`. As a result the
methods `AddInsert`, `EmitInserts`, `RenderItem`, `AppendFields` and
`ChunkArray` are not on the call path of `TranslateInput`. They are tied
to it by their proved equalities instead: `AddInsert` equals `InsertText`,
and `ChunkArray` equals `Chunks`.

The rows for `GetValueIfBoolean`, `GetValueIfFloat`, `GetValueString` and
`ParamStrings` are definitions over the regular-expression predicates, or
a projection, just as the code's functions are a regular-expression test
and a literal record. What is proved about the classification is in
`GetValue`, `BooleanValue`, `FloatHasDot`, `StringIsFallback` and `BooleanPatternIsLoose`.

The model follows the code's behaviour, including in these places:

- The name group `[0-z]*` accepts `=`, `@`, `[`, `_` and other punctuation. It may be empty, and it is greedy: in `a=b=c` the name is `a=b`.
- The Boolean pattern `^True|False$` accepts any text that starts with `True` or ends with `False`. Only `True` itself is true.
- A row string is skipped only when it is empty before trimming. A row string of blanks becomes the row `NULL`.
- A non-blank input without any assignment line gives `DECLARE` and three line feeds.
- A Float is declared `DECIMAL(16, 5)`.
- A String is put between `N'` and `'` without escaping the quotes inside it.

## Model

| member | source | states |
|---|---|---|
| App.AppComponent.constructor | params-to-sql/src/app/app.component.ts:9-11 | the three text fields start empty |
| App.AppComponent.TranslateInput | params-to-sql/src/app/app.component.ts:13-24 | the input is kept, the error message is cleared, and the output becomes the compiled script of the input (empty for a blank input) |
| App.CompileShape | params-to-sql/src/app/app.component.ts:13-24 | the output is empty exactly when the input is all whitespace; otherwise it starts with `DECLARE` and a line feed and ends with a line feed |
| App.CompileNoMatches | params-to-sql/src/app/app.component.ts:13-24 | a non-blank input none of whose lines is an assignment gives `DECLARE` followed by three line feeds |
| App.CompileLines | params-to-sql/src/app/app.component.ts:37-60 | an input made of lines joined by line feeds compiles to the query of the parameters of exactly those lines, in order |
| App.CompileInteger | params-to-sql/src/app/app.component.ts:13-24 | the input `x=007` compiles to `DECLARE`, `@x BIGINT = 7` and an empty insert section (an example worked through every stage) |
| LineSplitter.MatchLine | params-to-sql/src/app/app.component.ts:41-47 | a line matches exactly when some `=` is preceded only by `[0-z]` characters; the name is the longest such prefix and the line is name, `=`, value |
| LineSplitter.MatchLineCorrect | params-to-sql/src/app/app.component.ts:41 | the last `=` inside the longest `[0-z]` run is a split point, and every split point lies at or before it |
| LineSplitter.ToParam | params-to-sql/src/app/app.component.ts:50-55 | the parameter of a match carries the match's name, and its value and tag are the classification of the matched value text; the tag agrees with the kind of value |
| LineSplitter.LineParams | params-to-sql/src/app/app.component.ts:44-57 | one line contributes at most one parameter, and exactly one when some `=` is preceded only by `[0-z]` characters; that parameter has the matched name and the classification of the matched value; it is consistent and declarable |
| LineSplitter.ParseLines | params-to-sql/src/app/app.component.ts:37-60 | at most one parameter per line, each consistent and declarable |
| LineSplitter.ParsedAreValid | params-to-sql/src/app/app.component.ts:37-60 | the same bound and validity, by induction over the lines |
| LineSplitter.ParseParams | params-to-sql/src/app/app.component.ts:37-60 | splitting the input on line feeds and running the loop over the lines returns the parameters of those lines in order |
| LineSplitter.CollectParams | params-to-sql/src/app/app.component.ts:44-57 | the loop over the lines pushes the parameter of every matching line, so it returns the parameters of the lines in order |
| LineSplitter.ParseLine | params-to-sql/src/app/app.component.ts:44-57 | a one-line input yields what that line contributes |
| LineSplitter.ParseLinesAppend | params-to-sql/src/app/app.component.ts:44-57 | parsing preserves line order: the parameters of two blocks of lines are those of the first followed by those of the second |
| LineSplitter.ParseLinesKeeps | params-to-sql/src/app/app.component.ts:44-57 | every matching line yields its parameter, right after the parameters of the lines before it |
| LineSplitter.ParseLinesNone | params-to-sql/src/app/app.component.ts:44-57 | lines of which none matches yield no parameter |
| LineSplitter.MatchLineGreedy | params-to-sql/src/app/app.component.ts:41 | `a=b=c` has name `a=b` and value `c` |
| LineSplitter.MatchLineEmptyName | params-to-sql/src/app/app.component.ts:41 | `=x` matches with the empty name |
| LineSplitter.MatchLineLeadingSpace | params-to-sql/src/app/app.component.ts:41 | a line starting with a space does not match |
| Classifier.GetValueIfInteger | params-to-sql/src/app/app.component.ts:72-82 | a result exactly for one or more digits; it is an Integer that prints as the digits without leading zeros |
| Classifier.GetValueIfBoolean | params-to-sql/src/app/app.component.ts:84-94 | a result exactly when the text starts with `True` or ends with `False`; the value is true exactly when the text is `True` |
| Classifier.GetValueIfFloat | params-to-sql/src/app/app.component.ts:96-106 | a result exactly for one or more digits and dots; it is a Float carrying that text |
| Classifier.LastTableSplit | params-to-sql/src/app/app.component.ts:109 | finds the last position where group 1 of the table pattern can end, or reports that there is none |
| Classifier.GetValueIfArray | params-to-sql/src/app/app.component.ts:108-124 | a result exactly when the table pattern matches; the text is `( `, the rows joined by spaces, ` )` and a type name of at least three characters in brackets, the rows hold no space, and the type name is the shortest possible (greedy group 1) |
| Classifier.TableAt | params-to-sql/src/app/app.component.ts:109-119 | splitting at any match position lays the text out as such a table value |
| Classifier.GetValueString | params-to-sql/src/app/app.component.ts:126-131 | the value is the text unchanged, tagged String |
| Classifier.GetValue | params-to-sql/src/app/app.component.ts:62-70 | the priority order Integer, Boolean, Float, Table, String, with the value each one gives (for a Table, the layout with the shortest type name, as greedy group 1 chooses); the tag always agrees with the kind of value |
| Classifier.IntegerValue | params-to-sql/src/app/app.component.ts:72-82 | an Integer prints as its digits without leading zeros |
| Classifier.FloatHasDot | params-to-sql/src/app/app.component.ts:62-106 | a Float always contains a dot and keeps its text, because digit-only text is an Integer first |
| Classifier.StringIsFallback | params-to-sql/src/app/app.component.ts:62-131 | a String is the text unchanged and matched none of the other patterns |
| Classifier.BooleanValue | params-to-sql/src/app/app.component.ts:62-94 | a Boolean comes only from text that matches the Boolean pattern and not the Integer one, with value `text === 'True'`; the Boolean true comes exactly from the text `True` |
| Classifier.BooleanPatternIsLoose | params-to-sql/src/app/app.component.ts:84-94 | `True` is true, and `False`, `Truely` and `NotFalse` are all Booleans that are false |
| Chunking.ChunkArray | params-to-sql/src/app/app.component.ts:239-245 | the index-stepping loop returns the chunks of the list |
| Chunking.ChunksStep | params-to-sql/src/app/app.component.ts:241-242 | one step pushes the slice from `i` to `i + size`, cut at the end of the list |
| Chunking.ChunksConcat | params-to-sql/src/app/app.component.ts:239-245 | concatenating the chunks gives back the list |
| Chunking.ChunksSizes | params-to-sql/src/app/app.component.ts:239-245 | every chunk has between 1 and `size` elements, and all but the last have exactly `size` |
| Chunking.ChunksCount | params-to-sql/src/app/app.component.ts:239-245 | there are ceil(n / size) chunks; the empty list gives none |
| Chunking.Chunks2500 | params-to-sql/src/app/app.component.ts:226 | 2500 rows go out as chunks of 1000, 1000 and 500 |
| Inserts.NonEmpty | params-to-sql/src/app/app.component.ts:212-213 | the kept row strings are non-empty, and there are at most as many as there are row strings |
| Inserts.FieldsTextJoin | params-to-sql/src/app/app.component.ts:216-223 | cutting the final comma off the inner loop's text leaves the rendered columns joined by commas |
| Inserts.RenderItem | params-to-sql/src/app/app.component.ts:215-223 | a row string becomes its trimmed text split on commas, each column passed through or `NULL`, joined by commas |
| Inserts.AppendFields | params-to-sql/src/app/app.component.ts:218-221 | the inner loop appends every rendered column followed by a comma |
| Inserts.AddInsert | params-to-sql/src/app/app.component.ts:204-237 | the result is one INSERT statement per chunk of 1000 rows of the table's non-empty row strings |
| Inserts.EmitInserts | params-to-sql/src/app/app.component.ts:228-234 | the last loop appends `INSERT INTO @name`, a line feed, `VALUES (`, the chunk joined by `), (` and `)` with a line feed, for every chunk in order |
| Inserts.RowColumns | params-to-sql/src/app/app.component.ts:215-223 | a row splits back on commas into the rendered columns of the trimmed row string; it has one column more than that string has commas |
| Inserts.BlankItemIsNull | params-to-sql/src/app/app.component.ts:213-223 | a non-empty row string of blanks becomes the row `NULL` |
| Inserts.RowsAppend | params-to-sql/src/app/app.component.ts:212-224 | rows follow row-string order |
| Inserts.RowsSnoc | params-to-sql/src/app/app.component.ts:212-224 | one more row string adds its row unless it is empty |
| Inserts.NonEmptyAppend | params-to-sql/src/app/app.component.ts:212-213 | the kept row strings follow row-string order |
| Inserts.NonEmptyKeeps | params-to-sql/src/app/app.component.ts:212-224 | every non-empty row string gives a row, at the position after the rows of the strings before it |
| Inserts.InsertTextShape | params-to-sql/src/app/app.component.ts:226-236 | the insert text is one INSERT statement per chunk, in chunk order; the chunks hold all rows in order, between 1 and 1000 each, all but the last exactly 1000 |
| Inserts.BlocksConcat | params-to-sql/src/app/app.component.ts:228-234 | the statements are those of the chunks, concatenated in chunk order |
| Inserts.NoRowsNoInsert | params-to-sql/src/app/app.component.ts:204-237 | a table whose row strings are all empty gives no insert text |
| Inserts.EmptyItemsKeepNothing | params-to-sql/src/app/app.component.ts:212-213 | empty row strings are all dropped |
| Declarations.GetDeclareParameter | params-to-sql/src/app/app.component.ts:158-202 | every declaration starts with `@`, the name and a space; only a table has an insert, and it is the table's INSERT statements; a table declares its type name; a Boolean declares `BIT = 1` exactly when its value is true and `BIT = 0` otherwise |
| Declarations.StringDeclaration | params-to-sql/src/app/app.component.ts:167-171 | a String declares `NVARCHAR(MAX) = N'` with the text unescaped and a closing quote |
| Declarations.NullDeclaration | params-to-sql/src/app/app.component.ts:173-177 | a Null declares `NVARCHAR(10) = NULL` |
| Declarations.IntegerDeclaration | params-to-sql/src/app/app.component.ts:187-191 | an Integer declares `BIGINT = ` followed by the canonical decimal text of its value |
| Declarations.FloatDeclaration | params-to-sql/src/app/app.component.ts:193-197 | a Float declares `DECIMAL(16, 5) = ` followed by its text |
| Declarations.IntegerDeclarationValue | params-to-sql/src/app/app.component.ts:187-191 | the literal of an Integer declaration is digits that read back as the value, with no leading zero unless it is `0` |
| Declarations.ParamStrings | params-to-sql/src/app/app.component.ts:142-148 | the list the `map` returns holds the declaration of every parameter, in order |
| Declarations.AddQueryWithParameters | params-to-sql/src/app/app.component.ts:133-156 | the script is `DECLARE`, a line feed, the declarations joined by a comma and a line feed, a line feed, the inserts in parameter order, and a line feed |
| Declarations.MapParameters | params-to-sql/src/app/app.component.ts:140-148 | the `map` returns every declaration in order, and its callback builds the concatenation of the inserts in parameter order |
| Declarations.QueryOfParts | params-to-sql/src/app/app.component.ts:149-153 | the script is the header, the joined declarations and the insert section, each followed by a line feed |
| Declarations.AddParameter | params-to-sql/src/app/app.component.ts:143-147 | the callback for one parameter appends its declaration to the list, and its insert, when it is non-empty, to the insert section |
| Declarations.DeclareAllSnoc | params-to-sql/src/app/app.component.ts:142-148 | one more parameter adds its declaration result at the end |
| Declarations.DeclareStep | params-to-sql/src/app/app.component.ts:144-147 | one more result adds its declaration, and its insert when it is non-empty |
| Declarations.QueryShape | params-to-sql/src/app/app.component.ts:138-153 | every script starts with `DECLARE` and a line feed and ends with a line feed |
| Declarations.QueryOne | params-to-sql/src/app/app.component.ts:133-156 | the script of one result is the header, its declaration, its insert and a line feed |
| Declarations.EmptyQuery | params-to-sql/src/app/app.component.ts:133-156 | without parameters the script is `DECLARE` and three line feeds |
| Declarations.AllInsertsAppend | params-to-sql/src/app/app.component.ts:144-146 | the insert section follows parameter order |
| Declarations.NoTablesNoInserts | params-to-sql/src/app/app.component.ts:144-146 | without a table parameter the insert section is empty |
| Declarations.ParamStringsAppend | params-to-sql/src/app/app.component.ts:142-148 | the declarations follow parameter order |
| Declarations.DeclareAllAppend | params-to-sql/src/app/app.component.ts:142-148 | the results for two lists of parameters are those of the first followed by those of the second |
| Strings.Trim | params-to-sql/src/app/app.component.ts:14 | `trim` gives the empty string exactly for all-whitespace text; otherwise the result neither starts nor ends with whitespace |
| Strings.TrimExact | params-to-sql/src/app/app.component.ts:215 | text with whitespace only around a core that neither starts nor ends with whitespace trims to that core |
| Strings.TrimStartExact | params-to-sql/src/app/app.component.ts:215 | `trimStart` removes exactly the leading whitespace |
| Strings.TrimEndExact | params-to-sql/src/app/app.component.ts:215 | `trimEnd` removes exactly the trailing whitespace |
| Strings.Split | params-to-sql/src/app/app.component.ts:40 | `split` always gives at least one piece |
| Strings.SplitPieces | params-to-sql/src/app/app.component.ts:40 | no piece of a split contains the separator |
| Strings.JoinSplit | params-to-sql/src/app/app.component.ts:117 | joining the pieces of a split with the separator gives back the text |
| Strings.SplitJoin | params-to-sql/src/app/app.component.ts:40 | splitting undoes joining for a non-empty list of pieces free of the separator |
| Strings.SplitCount | params-to-sql/src/app/app.component.ts:218 | a split has one piece more than the text has separators |
| Decimal.DecimalRoundTrip | params-to-sql/src/app/app.component.ts:189 | the printed text of a number reads back as the number |
| Decimal.IntegerText | params-to-sql/src/app/app.component.ts:76 | printing the number a digit string denotes drops its leading zeros |
| Decimal.CanonicalRoundTrip | params-to-sql/src/app/app.component.ts:76 | a digit string without leading zeros is the printed text of its value |

## Left out

- `copyToClipboard` (lines 31-35) is not modelled: it calls the browser clipboard and `alert`.
- The `console.log` calls, the `@Component` decorator and the view template are framework and logging plumbing and are not modelled.
- App.AppComponent.TranslateInput: the `catch` branch (lines 25-28) is not modelled. Nothing in the compiler can throw, so compilation always succeeds and the error message is always cleared.
- The number conversions `+value` (lines 76 and 100) are not modelled as JavaScript numbers. An Integer is an unbounded `nat` printed in canonical decimal, so the loss of precision above 2^53 and the exponent notation of large numbers are not captured.
- Classifier.GetValueIfFloat: a Float keeps its raw text instead of the double `+value` would make. The text printed for it in a declaration is therefore the input text, not JavaScript's formatting of that double; `NaN` for texts such as `1.2.3` is not captured.
- Declarations.GetDeclareParameter: its unused second parameter `insert` is dropped.
- Declarations.GetDeclareParameter: the default branch (lines 199-201) cannot be reached because the six types are all handled above it, so the model has no such branch.
- The exact Unicode whitespace set of `trim` is written out as a predicate (`Strings.IsWhitespace`), following the ECMAScript WhiteSpace and LineTerminator productions.
- The commented-out interfaces (lines 248-260) are not modelled.
- Parameters are values: the array `result` of `parseParams`, the `matchesList` of `addInsert` and the chunk array are sequences that the loops reassign. An in-place `push` on a shared array is not needed because nothing else holds those arrays.
- The callback of `map` in `addQueryWithParameters` is modelled by the loop of `Declarations.MapParameters` over the parameters, with `Declarations.AddParameter` as the callback body, because a Dafny lambda cannot update a variable outside it.
