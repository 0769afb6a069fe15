/**
 * infer_gender: loads a table, takes its name column, optionally removes last
 * names, classifies the names in batches of 32, renames the prediction fields
 * to `gender` and `gender_confidence`, optionally drops the confidence, joins
 * the new columns onto the table by row, and writes the result.
 */
module Orchestrator {
  import opened Wrappers
  import Formats
  import Batcher
  import Names

  /** A floating-point value; the model carries it around and never computes with it. */
  datatype Float = Float(bits: int)

  /** One classifier output `{"label": ..., "score": ...}`; `label` is a Dafny keyword, so the field is `category`. */
  datatype Prediction = Prediction(category: string, score: Float)

  /** A table cell: text, a number, or a missing value. */
  datatype Value = Text(text: string) | Number(number: Float) | Missing

  /**
   * A data frame: the row labels, the column names, and one list of cells per
   * row, in column order.  Row i is identified by index[i].
   */
  datatype Table = Table(index: seq<int>, columns: seq<string>, rows: seq<seq<Value>>)

  /** What a loaded table satisfies: one label per row, distinct labels and column names, rectangular rows. */
  ghost predicate WellFormed(t: Table) {
    && |t.index| == |t.rows|
    && (forall i, j :: 0 <= i < j < |t.index| ==> t.index[i] != t.index[j])
    && (forall i, j :: 0 <= i < j < |t.columns| ==> t.columns[i] != t.columns[j])
    && (forall i :: 0 <= i < |t.rows| ==> |t.rows[i]| == |t.columns|)
  }

  /** The errors a run can end with. */
  datatype Error =
    | UnsupportedFormat(extension: string)    // ValueError from load_table / write_table
    | ColumnNotFound(column: string)          // KeyError from data[name_column]
    | NameNotText(row: nat)                   // a name cell that is not a string
    | MissingConfidenceColumn                 // KeyError from drop(columns=["gender_confidence"])
    | LengthMismatch(expected: nat, received: nat)  // ValueError from set_index(data.index): result rows, then index length
    | ColumnsOverlap(columns: set<string>)    // ValueError from join without suffixes

  /** The batch size infer_gender hands to `batched`. */
  const BatchSize: nat := 32

  const GenderColumn: string := "gender"
  const ConfidenceColumn: string := "gender_confidence"

  /** What a run produces: the reader used on the input, the writer for the output and the table it writes. */
  datatype Output = Output(reader: Formats.Reader, writer: Formats.Writer, table: Table)

  /** The position of a column, if the table has it. */
  function ColumnIndex(columns: seq<string>, name: string): (r: Option<nat>)
    ensures r.None? <==> name !in columns
    ensures r.Some? ==> r.value < |columns| && columns[r.value] == name
  {
    if |columns| == 0 then None
    else if columns[0] == name then Some(0)
    else match ColumnIndex(columns[1..], name)
      case None => None
      case Some(k) => Some(k + 1)
  }

  /** The first row whose cell in column c is not text, or the row count if there is none. */
  function FirstNonText(rows: seq<seq<Value>>, c: nat): (k: nat)
    requires forall i :: 0 <= i < |rows| ==> c < |rows[i]|
    ensures k <= |rows|
    ensures forall i :: 0 <= i < k ==> rows[i][c].Text?
    ensures k < |rows| ==> !rows[k][c].Text?
  {
    if |rows| == 0 || !rows[0][c].Text? then 0 else 1 + FirstNonText(rows[1..], c)
  }

  /** `data[name_column].tolist()`, each entry a name: one per row, or the KeyError of a missing column. */
  function NameColumn(t: Table, column: string): (r: Result<seq<string>, Error>)
    requires WellFormed(t)
    ensures column !in t.columns ==> r == Failure(ColumnNotFound(column))
    ensures r.Success? ==> |r.value| == |t.rows|
  {
    match ColumnIndex(t.columns, column)
    case None => Failure(ColumnNotFound(column))
    case Some(c) =>
      var k := FirstNonText(t.rows, c);
      if k < |t.rows| then Failure(NameNotText(k))
      else Success(seq(|t.rows|, i requires 0 <= i < |t.rows| => t.rows[i][c].text))
  }

  /**
   * The names handed to the classifier: one per input name, in order, either
   * the names themselves or each name's tokens but the last, joined by single
   * spaces.
   */
  function PreparedNames(names: seq<string>, removeLastName: bool): (r: seq<string>)
    ensures |r| == |names|
    ensures !removeLastName ==> r == names
    ensures removeLastName ==> forall i :: 0 <= i < |names| ==>
      Names.Split(r[i]) == Names.DropLast(Names.Split(names[i])) && Names.Join(" ", Names.Split(r[i])) == r[i]
  {
    if removeLastName then Names.RemoveLastNames(names) else names
  }

  /**
   * The classifier's outputs for the batches, concatenated in batch order;
   * with a length-preserving classifier, one output per batched item.
   */
  function ClassifyAll(classify: seq<string> -> seq<Prediction>, batches: seq<seq<string>>): (r: seq<Prediction>)
    ensures PreservesLength(classify) ==> |r| == |Batcher.Flatten(batches)|
  {
    if |batches| == 0 then [] else classify(batches[0]) + ClassifyAll(classify, batches[1..])
  }

  /** The accumulated `results` list after the inference loop: one prediction per name for a length-preserving classifier. */
  function Predictions(names: seq<string>, classify: seq<string> -> seq<Prediction>): (r: seq<Prediction>)
    ensures PreservesLength(classify) ==> |r| == |names|
  {
    Batcher.FlattenBatches(names, BatchSize);
    ClassifyAll(classify, Batcher.Batches(names, BatchSize))
  }

  /** The classifier's contract: one prediction per input string. */
  ghost predicate PreservesLength(classify: seq<string> -> seq<Prediction>) {
    forall batch :: |classify(batch)| == |batch|
  }

  /** A classifier that labels every string on its own, whatever batch it arrives in. */
  ghost predicate Pointwise(classify: seq<string> -> seq<Prediction>, f: string -> Prediction) {
    forall batch :: |classify(batch)| == |batch| && forall j :: 0 <= j < |batch| ==> classify(batch)[j] == f(batch[j])
  }

  /** The columns of `json_normalize(results)` after renaming; an empty result list has none. */
  function NormalizedColumns(results: seq<Prediction>): seq<string> {
    if |results| == 0 then [] else [GenderColumn, ConfidenceColumn]
  }

  /** The result columns after the optional drop of the confidence column. */
  function ResultColumns(results: seq<Prediction>, dropConfidence: bool): (r: Result<seq<string>, Error>)
    ensures r.Failure? <==> dropConfidence && |results| == 0
    ensures r.Success? && |results| > 0 ==> r.value == if dropConfidence then [GenderColumn] else [GenderColumn, ConfidenceColumn]
  {
    var columns := NormalizedColumns(results);
    if !dropConfidence then Success(columns)
    else if ConfidenceColumn in columns then Success([GenderColumn])
    else Failure(MissingConfidenceColumn)
  }

  /** The cells one prediction contributes under the given result columns. */
  function Cells(p: Prediction, columns: seq<string>): (cells: seq<Value>)
    ensures |cells| == |columns|
  {
    seq(|columns|, j requires 0 <= j < |columns| =>
      if columns[j] == GenderColumn then Text(p.category) else Number(p.score))
  }

  /** The column names two column lists share. */
  function Overlap(left: seq<string>, right: seq<string>): set<string> {
    set c | c in right && c in left
  }

  /**
   * `results_df.set_index(data.index)` followed by `data.join(results_df)`:
   * prediction i goes to row i, and the result columns go after the existing ones.
   */
  function JoinResults(t: Table, results: seq<Prediction>, columns: seq<string>): (r: Result<Table, Error>)
    ensures r.Success? <==> |results| == |t.rows| && Overlap(t.columns, columns) == {}
    ensures r.Success? ==>
      && r.value.index == t.index
      && r.value.columns == t.columns + columns
      && |r.value.rows| == |t.rows|
      && forall i :: 0 <= i < |t.rows| ==>
           |r.value.rows[i]| == |t.rows[i]| + |columns|
           && r.value.rows[i][..|t.rows[i]|] == t.rows[i]
           && r.value.rows[i][|t.rows[i]|..] == Cells(results[i], columns)
  {
    if |results| != |t.rows| then Failure(LengthMismatch(|results|, |t.rows|))
    else if Overlap(t.columns, columns) != {} then Failure(ColumnsOverlap(Overlap(t.columns, columns)))
    else Success(Table(t.index, t.columns + columns,
      seq(|t.rows|, i requires 0 <= i < |t.rows| => t.rows[i] + Cells(results[i], columns))))
  }

  /**
   * The table infer_gender writes, given the table it loaded: on success it
   * has the same row labels and as many rows; a name-column error stops the run.
   */
  function Augment(t: Table, nameColumn: string, removeLastName: bool, dropConfidence: bool,
                   classify: seq<string> -> seq<Prediction>): (r: Result<Table, Error>)
    requires WellFormed(t)
    ensures r.Success? ==> r.value.index == t.index && |r.value.rows| == |t.rows|
    ensures NameColumn(t, nameColumn).Failure? ==> r == Failure(NameColumn(t, nameColumn).error)
  {
    var raw :- NameColumn(t, nameColumn);
    var results := Predictions(PreparedNames(raw, removeLastName), classify);
    var columns :- ResultColumns(results, dropConfidence);
    JoinResults(t, results, columns)
  }

  /**
   * A whole run: load dispatch, augmentation, then write dispatch to the
   * output path, which is the input path when none is given.  A successful
   * run keeps the loaded table's row labels and row count; an unreadable
   * input suffix is reported first.
   */
  function Pipeline(inSuffix: string, outSuffix: Option<string>, loaded: Table, nameColumn: string,
                    removeLastName: bool, dropConfidence: bool,
                    classify: seq<string> -> seq<Prediction>): (r: Result<Output, Error>)
    requires WellFormed(loaded)
    ensures r.Success? ==> r.value.table.index == loaded.index && |r.value.table.rows| == |loaded.rows|
    ensures Formats.LoadTable(inSuffix).Failure? ==> r == Failure(UnsupportedFormat(Formats.RemoveDot(inSuffix)))
  {
    match Formats.LoadTable(inSuffix)
    case Failure(e) => Failure(UnsupportedFormat(e.extension))
    case Success(reader) =>
      match Augment(loaded, nameColumn, removeLastName, dropConfidence, classify)
      case Failure(e) => Failure(e)
      case Success(table) =>
        match Formats.WriteTable(if outSuffix.Some? then outSuffix.value else inSuffix)
        case Failure(e) => Failure(UnsupportedFormat(e.extension))
        case Success(writer) => Success(Output(reader, writer, table))
  }

  lemma {:induction false} ClassifyAllAppend(classify: seq<string> -> seq<Prediction>, batches: seq<seq<string>>, b: seq<string>)
    ensures ClassifyAll(classify, batches + [b]) == ClassifyAll(classify, batches) + classify(b)
  {
    if |batches| == 0 {
      assert batches + [b] == [b];
    } else {
      assert (batches + [b])[1..] == batches[1..] + [b];
      ClassifyAllAppend(classify, batches[1..], b);
    }
  }

  /**
   * The inference loop: `results` starts empty and is extended with the
   * classifier's output for each batch of 32 names, in batch order.
   */
  method ClassifyInBatches(names: seq<string>, classify: seq<string> -> seq<Prediction>) returns (results: seq<Prediction>)
    ensures results == Predictions(names, classify)
  {
    results := [];
    var batched := Batcher.BatchedLoop(names, BatchSize);
    var batches := batched.value;
    for i := 0 to |batches|
      invariant results == ClassifyAll(classify, batches[..i])
    {
      assert batches[..i + 1] == batches[..i] + [batches[i]];
      ClassifyAllAppend(classify, batches[..i], batches[i]);
      results := results + classify(batches[i]);
    }
    assert batches[..|batches|] == batches;
  }

  /**
   * infer_gender.  `loaded` is what pandas read from the input path (reading
   * is not modelled); the result names the reader and writer used and the
   * table that is written.
   */
  method InferGender(inSuffix: string, outSuffix: Option<string>, loaded: Table, nameColumn: string,
                     removeLastName: bool, dropConfidence: bool,
                     classify: seq<string> -> seq<Prediction>) returns (r: Result<Output, Error>)
    requires WellFormed(loaded)
    ensures r == Pipeline(inSuffix, outSuffix, loaded, nameColumn, removeLastName, dropConfidence, classify)
  {
    var outPath := if outSuffix.Some? then outSuffix.value else inSuffix;
    var reader := Formats.LoadTable(inSuffix);
    if reader.Failure? {
      return Failure(UnsupportedFormat(reader.error.extension));
    }
    ghost var aug := Augment(loaded, nameColumn, removeLastName, dropConfidence, classify);
    var data := loaded;
    var names :- NameColumn(data, nameColumn);
    ghost var raw := names;
    if removeLastName {
      names := Names.RemoveLastNames(names);
    }
    assert names == PreparedNames(raw, removeLastName);
    var results := ClassifyInBatches(names, classify);
    var columns := ResultColumns(results, dropConfidence);
    if columns.Failure? {
      assert aug == Failure(columns.error);
      return Failure(columns.error);
    }
    var joined := JoinResults(data, results, columns.value);
    assert aug == joined;
    if joined.Failure? {
      return Failure(joined.error);
    }
    data := joined.value;
    var writer := Formats.WriteTable(outPath);
    if writer.Failure? {
      return Failure(UnsupportedFormat(writer.error.extension));
    }
    r := Success(Output(reader.value, writer.value, data));
  }

  /** Every row's cell in the named column is text. */
  ghost predicate NameCellsText(t: Table, column: string) {
    forall i, c :: 0 <= i < |t.rows| && 0 <= c < |t.columns| && c < |t.rows[i]| && t.columns[c] == column ==> t.rows[i][c].Text?
  }

  /**
   * The name column is found exactly when the table has it and all its cells
   * are text; it then holds row i's name at position i.
   */
  lemma NameColumnSpec(t: Table, column: string)
    requires WellFormed(t)
    ensures NameColumn(t, column).Success? <==> column in t.columns && NameCellsText(t, column)
    ensures NameColumn(t, column).Success? ==>
      |NameColumn(t, column).value| == |t.rows| &&
      forall i, c :: 0 <= i < |t.rows| && 0 <= c < |t.columns| && t.columns[c] == column ==>
        NameColumn(t, column).value[i] == t.rows[i][c].text
  {
    match ColumnIndex(t.columns, column)
    case None =>
    case Some(c) =>
      var k := FirstNonText(t.rows, c);
      if k < |t.rows| {
        assert !NameCellsText(t, column);
      } else {
        forall c' | 0 <= c' < |t.columns| && t.columns[c'] == column
          ensures c' == c
        {
        }
      }
  }

  /**
   * With a length-preserving classifier, prediction q * n + r is the
   * classifier's output r for batch q.
   */
  lemma {:induction false} ClassifyBatchesAt(names: seq<string>, n: nat, classify: seq<string> -> seq<Prediction>, q: nat, r: nat)
    requires n >= 1 && PreservesLength(classify)
    requires r < n && q * n + r < |names|
    ensures q < |Batcher.Batches(names, n)| && r < |Batcher.Batches(names, n)[q]|
    ensures |ClassifyAll(classify, Batcher.Batches(names, n))| == |names|
    ensures ClassifyAll(classify, Batcher.Batches(names, n))[q * n + r] == classify(Batcher.Batches(names, n)[q])[r]
    decreases q
  {
    var bs := Batcher.Batches(names, n);
    var first := Batcher.Take(names, n);
    var rest := names[|first|..];
    assert bs == [first] + Batcher.Batches(rest, n);
    assert bs[1..] == Batcher.Batches(rest, n);
    Batcher.FlattenBatches(names, n);
    if q > 0 {
      Batcher.MultipleOutside(q, n);
      Batcher.MulStep(q - 1, n);
      assert |first| == n;
      ClassifyBatchesAt(rest, n, classify, q - 1, r);
      ClassifyAllTail(classify, bs, q * n + r);
    } else {
      ClassifyAllHead(classify, bs, r);
    }
  }

  lemma ClassifyAllHead(classify: seq<string> -> seq<Prediction>, batches: seq<seq<string>>, j: nat)
    requires |batches| > 0 && j < |classify(batches[0])|
    ensures j < |ClassifyAll(classify, batches)|
    ensures ClassifyAll(classify, batches)[j] == classify(batches[0])[j]
  {
  }

  lemma ClassifyAllTail(classify: seq<string> -> seq<Prediction>, batches: seq<seq<string>>, j: nat)
    requires |batches| > 0 && |classify(batches[0])| <= j < |ClassifyAll(classify, batches)|
    ensures ClassifyAll(classify, batches)[j] == ClassifyAll(classify, batches[1..])[j - |classify(batches[0])|]
  {
  }

  /**
   * With a length-preserving classifier the accumulated results hold one
   * prediction per name, in name order: prediction k comes from position
   * k mod 32 of the classifier's answer for batch k div 32, and that position
   * of that batch holds name k.
   */
  lemma PredictionsAligned(names: seq<string>, classify: seq<string> -> seq<Prediction>)
    requires PreservesLength(classify)
    ensures |Predictions(names, classify)| == |names|
    ensures forall k :: 0 <= k < |names| ==>
      k / BatchSize < |Batcher.Batches(names, BatchSize)| &&
      k % BatchSize < |Batcher.Batches(names, BatchSize)[k / BatchSize]| &&
      Predictions(names, classify)[k] == classify(Batcher.Batches(names, BatchSize)[k / BatchSize])[k % BatchSize] &&
      Batcher.Batches(names, BatchSize)[k / BatchSize][k % BatchSize] == names[k]
  {
    Batcher.FlattenBatches(names, BatchSize);
    forall k | 0 <= k < |names|
      ensures k / BatchSize < |Batcher.Batches(names, BatchSize)|
      ensures k % BatchSize < |Batcher.Batches(names, BatchSize)[k / BatchSize]|
      ensures Predictions(names, classify)[k] == classify(Batcher.Batches(names, BatchSize)[k / BatchSize])[k % BatchSize]
      ensures Batcher.Batches(names, BatchSize)[k / BatchSize][k % BatchSize] == names[k]
    {
      var q, r := k / BatchSize, k % BatchSize;
      ClassifyBatchesAt(names, BatchSize, classify, q, r);
      assert q * BatchSize + r == k;
      Batcher.BatchEntry(names, BatchSize, q, r);
    }
  }

  lemma {:induction false} ClassifyAllPointwise(classify: seq<string> -> seq<Prediction>, f: string -> Prediction, batches: seq<seq<string>>)
    requires Pointwise(classify, f)
    ensures |ClassifyAll(classify, batches)| == |Batcher.Flatten(batches)|
    ensures forall k :: 0 <= k < |Batcher.Flatten(batches)| ==> ClassifyAll(classify, batches)[k] == f(Batcher.Flatten(batches)[k])
  {
    if |batches| > 0 {
      ClassifyAllPointwise(classify, f, batches[1..]);
      var b := batches[0];
      assert |classify(b)| == |b|;
    }
  }

  /** When the classifier labels each string on its own, prediction k is the label of name k. */
  lemma PredictionsPointwise(names: seq<string>, classify: seq<string> -> seq<Prediction>, f: string -> Prediction)
    requires Pointwise(classify, f)
    ensures |Predictions(names, classify)| == |names|
    ensures forall k :: 0 <= k < |names| ==> Predictions(names, classify)[k] == f(names[k])
  {
    ClassifyAllPointwise(classify, f, Batcher.Batches(names, BatchSize));
    Batcher.FlattenBatches(names, BatchSize);
  }

  /**
   * The join checks only the total number of predictions: whenever it equals
   * the row count of a non-empty table whose name column exists and holds
   * text, and no column the join adds exists yet, the output is well formed.
   * It keeps the row labels, the rows and their order and every existing
   * cell; it adds `gender` (and `gender_confidence` unless dropped) after the
   * existing columns; and row i carries prediction i, whichever batch that
   * prediction came back with.
   */
  lemma AugmentByPosition(t: Table, nameColumn: string, removeLastName: bool, dropConfidence: bool,
                          classify: seq<string> -> seq<Prediction>)
    requires WellFormed(t)
    requires nameColumn in t.columns && NameCellsText(t, nameColumn)
    requires GenderColumn !in t.columns && (!dropConfidence ==> ConfidenceColumn !in t.columns)
    requires |t.rows| > 0
    requires NameColumn(t, nameColumn).Success?
    requires |Predictions(PreparedNames(NameColumn(t, nameColumn).value, removeLastName), classify)| == |t.rows|
    ensures Augment(t, nameColumn, removeLastName, dropConfidence, classify).Success?
    ensures
      var out := Augment(t, nameColumn, removeLastName, dropConfidence, classify).value;
      var preds := Predictions(PreparedNames(NameColumn(t, nameColumn).value, removeLastName), classify);
      && WellFormed(out)
      && out.index == t.index
      && out.columns == t.columns + (if dropConfidence then [GenderColumn] else [GenderColumn, ConfidenceColumn])
      && |out.rows| == |t.rows|
      && forall i :: 0 <= i < |t.rows| ==>
           && out.rows[i][..|t.columns|] == t.rows[i]
           && out.rows[i][|t.columns|] == Text(preds[i].category)
           && (!dropConfidence ==> out.rows[i][|t.columns| + 1] == Number(preds[i].score))
  {
    var raw := NameColumn(t, nameColumn).value;
    var names := PreparedNames(raw, removeLastName);
    var preds := Predictions(names, classify);
    var columns := ResultColumns(preds, dropConfidence).value;
    assert Overlap(t.columns, columns) == {};
    var out := Augment(t, nameColumn, removeLastName, dropConfidence, classify).value;
    assert out.columns == t.columns + columns;
    forall i | 0 <= i < |t.rows|
      ensures out.rows[i] == t.rows[i] + Cells(preds[i], columns)
      ensures out.rows[i][..|t.columns|] == t.rows[i]
    {
    }
    forall a, b | 0 <= a < b < |out.columns|
      ensures out.columns[a] != out.columns[b]
    {
      if b >= |t.columns| && a < |t.columns| {
        assert out.columns[a] in t.columns;
      }
    }
  }

  /**
   * The main guarantee, for a length-preserving classifier: the prediction
   * count then always matches, so the guarantees of `AugmentByPosition` hold.
   */
  lemma AugmentAligned(t: Table, nameColumn: string, removeLastName: bool, dropConfidence: bool,
                       classify: seq<string> -> seq<Prediction>)
    requires WellFormed(t) && PreservesLength(classify)
    requires nameColumn in t.columns && NameCellsText(t, nameColumn)
    requires GenderColumn !in t.columns && (!dropConfidence ==> ConfidenceColumn !in t.columns)
    requires |t.rows| > 0
    ensures NameColumn(t, nameColumn).Success?
    ensures Augment(t, nameColumn, removeLastName, dropConfidence, classify).Success?
    ensures
      var out := Augment(t, nameColumn, removeLastName, dropConfidence, classify).value;
      var preds := Predictions(PreparedNames(NameColumn(t, nameColumn).value, removeLastName), classify);
      && WellFormed(out)
      && out.index == t.index
      && out.columns == t.columns + (if dropConfidence then [GenderColumn] else [GenderColumn, ConfidenceColumn])
      && |out.rows| == |t.rows| == |preds|
      && forall i :: 0 <= i < |t.rows| ==>
           && out.rows[i][..|t.columns|] == t.rows[i]
           && out.rows[i][|t.columns|] == Text(preds[i].category)
           && (!dropConfidence ==> out.rows[i][|t.columns| + 1] == Number(preds[i].score))
  {
    NameColumnSpec(t, nameColumn);
    AugmentByPosition(t, nameColumn, removeLastName, dropConfidence, classify);
  }

  /** With a classifier that labels each name on its own, row i's `gender` is the label of row i's (prepared) name. */
  lemma AugmentPointwise(t: Table, nameColumn: string, removeLastName: bool, dropConfidence: bool,
                         classify: seq<string> -> seq<Prediction>, f: string -> Prediction)
    requires WellFormed(t) && Pointwise(classify, f)
    requires nameColumn in t.columns && NameCellsText(t, nameColumn)
    requires GenderColumn !in t.columns && (!dropConfidence ==> ConfidenceColumn !in t.columns)
    requires |t.rows| > 0
    ensures NameColumn(t, nameColumn).Success?
    ensures Augment(t, nameColumn, removeLastName, dropConfidence, classify).Success?
    ensures
      var out := Augment(t, nameColumn, removeLastName, dropConfidence, classify).value;
      var names := PreparedNames(NameColumn(t, nameColumn).value, removeLastName);
      |names| == |out.rows| == |t.rows| &&
      forall i :: 0 <= i < |t.rows| ==> |out.rows[i]| > |t.columns| && out.rows[i][|t.columns|] == Text(f(names[i]).category)
  {
    assert PreservesLength(classify) by {
      forall batch ensures |classify(batch)| == |batch| {
      }
    }
    AugmentAligned(t, nameColumn, removeLastName, dropConfidence, classify);
    NameColumnSpec(t, nameColumn);
    var names := PreparedNames(NameColumn(t, nameColumn).value, removeLastName);
    PredictionsPointwise(names, classify, f);
  }

  /**
   * An empty table gains no column, because `json_normalize([])` has none;
   * asking to drop the confidence column then fails with a KeyError.
   */
  lemma AugmentEmptyTable(t: Table, nameColumn: string, removeLastName: bool, dropConfidence: bool,
                          classify: seq<string> -> seq<Prediction>)
    requires WellFormed(t) && |t.rows| == 0 && nameColumn in t.columns
    ensures dropConfidence ==> Augment(t, nameColumn, removeLastName, dropConfidence, classify) == Failure(MissingConfidenceColumn)
    ensures !dropConfidence ==> Augment(t, nameColumn, removeLastName, dropConfidence, classify) == Success(t)
  {
    NameColumnSpec(t, nameColumn);
    var raw := NameColumn(t, nameColumn).value;
    var names := PreparedNames(raw, removeLastName);
    assert |raw| == 0 && |names| == 0;
    assert Batcher.Batches(names, BatchSize) == [];
    assert Predictions(names, classify) == [];
    assert Overlap(t.columns, []) == {};
    assert t.columns + [] == t.columns;
    if !dropConfidence {
      assert ResultColumns([], false) == Success([]);
      var out := JoinResults(t, [], []).value;
      assert |out.rows| == 0 && out.rows == t.rows;
      assert t == out;
    }
  }

  /**
   * A prediction count that differs from the row count is caught only when
   * the results are re-indexed, with the result count as the expected length
   * and the row count as the received one; an empty result list with the
   * confidence drop fails earlier, in the drop.
   */
  lemma AugmentLengthMismatch(t: Table, nameColumn: string, removeLastName: bool, dropConfidence: bool,
                              classify: seq<string> -> seq<Prediction>)
    requires WellFormed(t) && nameColumn in t.columns && NameCellsText(t, nameColumn)
    requires
      var preds := Predictions(PreparedNames(NameColumn(t, nameColumn).value, removeLastName), classify);
      |preds| != |t.rows|
    ensures
      var preds := Predictions(PreparedNames(NameColumn(t, nameColumn).value, removeLastName), classify);
      Augment(t, nameColumn, removeLastName, dropConfidence, classify) ==
        if |preds| == 0 && dropConfidence then Failure(MissingConfidenceColumn)
        else Failure(LengthMismatch(|preds|, |t.rows|))
  {
    NameColumnSpec(t, nameColumn);
  }

  /**
   * A non-empty table that already has a column the join would add (`gender`,
   * or `gender_confidence` when it is kept) cannot be augmented once the
   * prediction count matches the row count: the join, which has no suffixes,
   * refuses and names exactly the shared columns.
   */
  lemma AugmentExistingColumns(t: Table, nameColumn: string, removeLastName: bool, dropConfidence: bool,
                               classify: seq<string> -> seq<Prediction>)
    requires WellFormed(t)
    requires GenderColumn in t.columns || (!dropConfidence && ConfidenceColumn in t.columns)
    requires |t.rows| > 0
    requires NameColumn(t, nameColumn).Success?
    requires |Predictions(PreparedNames(NameColumn(t, nameColumn).value, removeLastName), classify)| == |t.rows|
    ensures
      var added := if dropConfidence then {GenderColumn} else {GenderColumn, ConfidenceColumn};
      Augment(t, nameColumn, removeLastName, dropConfidence, classify) ==
        Failure(ColumnsOverlap(set c | c in added && c in t.columns))
  {
    var names := PreparedNames(NameColumn(t, nameColumn).value, removeLastName);
    var columns := ResultColumns(Predictions(names, classify), dropConfidence).value;
    var added := if dropConfidence then {GenderColumn} else {GenderColumn, ConfidenceColumn};
    assert Overlap(t.columns, columns) == set c | c in added && c in t.columns;
    if GenderColumn in t.columns {
      assert GenderColumn in Overlap(t.columns, columns);
    } else {
      assert ConfidenceColumn in Overlap(t.columns, columns);
    }
  }

  /**
   * The order of the checks in a run: the input suffix first, then the
   * augmentation, and the output suffix only after all inference is done; the
   * output suffix is the input's when none is given.
   */
  lemma PipelineOrder(inSuffix: string, outSuffix: Option<string>, loaded: Table, nameColumn: string,
                      removeLastName: bool, dropConfidence: bool, classify: seq<string> -> seq<Prediction>)
    requires WellFormed(loaded)
    ensures
      var r := Pipeline(inSuffix, outSuffix, loaded, nameColumn, removeLastName, dropConfidence, classify);
      var aug := Augment(loaded, nameColumn, removeLastName, dropConfidence, classify);
      var outPath := if outSuffix.Some? then outSuffix.value else inSuffix;
      && (Formats.LoadTable(inSuffix).Failure? ==> r == Failure(UnsupportedFormat(Formats.RemoveDot(inSuffix))))
      && (Formats.LoadTable(inSuffix).Success? && aug.Failure? ==> r == Failure(aug.error))
      && (Formats.LoadTable(inSuffix).Success? && aug.Success? && Formats.WriteTable(outPath).Failure? ==>
            r == Failure(UnsupportedFormat(Formats.RemoveDot(outPath))))
      && (r.Success? <==> Formats.LoadTable(inSuffix).Success? && aug.Success? && Formats.WriteTable(outPath).Success?)
      && (r.Success? ==> r.value.table == aug.value && r.value.writer == Formats.WriteTable(outPath).value)
  {
  }

  /**
   * Without an output path the table is written back in the format it was read
   * in, so a run that could load its input never fails on the output suffix.
   */
  lemma PipelineOverwrite(inSuffix: string, loaded: Table, nameColumn: string,
                          removeLastName: bool, dropConfidence: bool, classify: seq<string> -> seq<Prediction>)
    requires WellFormed(loaded)
    requires Formats.LoadTable(inSuffix).Success?
    requires Augment(loaded, nameColumn, removeLastName, dropConfidence, classify).Success?
    ensures
      var r := Pipeline(inSuffix, None, loaded, nameColumn, removeLastName, dropConfidence, classify);
      && r.Success?
      && Formats.Dispatch(inSuffix).Success?
      && r.value.writer == Formats.WriteTable(Formats.Extension(Formats.Dispatch(inSuffix).value)).value
  {
    var f := Formats.Dispatch(inSuffix).value;
    Formats.DispatchExtension(f, inSuffix);
  }
}
