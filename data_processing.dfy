/** Ingestion and validation of an uploaded production table
    (`process_uploaded_file` and `validate_dataframe`). The file has already
    been tokenised into a header and rows of text cells. */
module DataProcessing {
  import opened Wrappers
  import opened Decimal
  import opened Timestamps
  import opened Frames

  const StartOfOrder := "startOfOrder"

  const RequiredColumns: seq<string> := [
    "startOfOrder", "productionLine", "partNumber",
    "plannedProductionTime", "actualProductionTime",
    "idealCycleTime", "totalPieces", "goodPieces",
    "plannedDowntime", "unplannedDowntime"
  ]

  /** Coerced in this order; the first one that fails is reported. */
  const NumericColumns: seq<string> := [
    "plannedProductionTime", "actualProductionTime", "idealCycleTime",
    "totalPieces", "goodPieces", "plannedDowntime", "unplannedDowntime"
  ]

  const StringColumns: seq<string> := ["productionLine", "partNumber"]

  const ReadPrefix := "Error reading CSV file: "
  const DatePrefix := "Error parsing dates: "
  const FormatHint := "Please ensure dates are in format: MM/DD/YYYY HH:MM"

  // ---- text helpers -----------------------------------------------------

  predicate IsPrefix(p: string, s: string) {
    |p| <= |s| && s[..|p|] == p
  }

  /** Python's `sub in s` on strings. */
  predicate Contains(s: string, sub: string)
    decreases |s|
  {
    IsPrefix(sub, s) || (|s| > 0 && Contains(s[1..], sub))
  }

  // ---- header recovery (lines 21-27) --------------------------------------

  /** Why probing the first cell raised: `iloc[0, 0]` on a frame without
      rows, or `in` applied to a cell that is not a string. */
  datatype HeaderError = RowOutOfBounds | NotAString

  predicate HasUnnamedColumn(columns: seq<string>) {
    exists k :: 0 <= k < |columns| && Contains(columns[k], "Unnamed")
  }

  /** The column name a promoted header cell becomes; a NaN cell gives a
      name that matches no required column. */
  function HeaderName(c: Cell): string {
    if c.Text? then c.text else ""
  }

  /** `pd.DataFrame(df.values[1:], columns=df.iloc[0].tolist())`. */
  function PromoteFirstRow(t: Table): (r: Table)
    requires Rectangular(t) && |t.rows| > 0
    ensures Rectangular(r)
    ensures |r.columns| == |t.columns|
    ensures forall k :: 0 <= k < |r.columns| ==> r.columns[k] == HeaderName(t.rows[0][k])
    ensures |r.rows| == |t.rows| - 1
    ensures forall i :: 0 <= i < |r.rows| ==> r.rows[i] == t.rows[i + 1]
  {
    Table(seq(|t.columns|, k requires 0 <= k < |t.columns| => HeaderName(t.rows[0][k])), t.rows[1..])
  }

  /** True when the header is promoted: some column is "Unnamed" and the
      first cell of the first row is text mentioning startOfOrder. */
  predicate PromotesHeader(t: Table)
    requires Rectangular(t)
  {
    HasUnnamedColumn(t.columns) && |t.rows| > 0 && |t.columns| > 0
    && t.rows[0][0].Text? && Contains(t.rows[0][0].text, StartOfOrder)
  }

  function RecoverHeader(t: Table): (r: Result<Table, HeaderError>)
    requires Rectangular(t)
    ensures r.Failure? <==> HasUnnamedColumn(t.columns) && (|t.rows| == 0 || !t.rows[0][0].Text?)
    ensures r.Failure? ==> (r.error == RowOutOfBounds <==> |t.rows| == 0)
    ensures r.Success? ==> r.value == if PromotesHeader(t) then PromoteFirstRow(t) else t
  {
    if !HasUnnamedColumn(t.columns) then Success(t)
    else if |t.rows| == 0 then Failure(RowOutOfBounds)
    else
      var first := t.rows[0][0];
      if !first.Text? then Failure(NotAString)
      else if Contains(first.text, StartOfOrder) then Success(PromoteFirstRow(t))
      else Success(t)
  }

  // ---- startOfOrder conversion (lines 34-47) ------------------------------

  /** `pd.to_datetime(value, format='%m/%d/%Y %H:%M', errors='coerce')`. */
  function PrimaryConvert(c: Cell): (r: Cell)
    ensures r.Stamp? || r.Missing?
    ensures c.Text? ==> (r.Stamp? <==> ParsePrimary(c.text).Some?)
    ensures c.Text? && r.Stamp? ==> ParsePrimary(c.text) == Some(r.time)
    ensures c.Missing? ==> r.Missing?
  {
    match c
    case Text(s) => (match ParsePrimary(s) case Some(t) => Stamp(t) case None => Missing)
    case Stamp(_) => c
    case _ => Missing
  }

  /** `pd.to_datetime(value, errors='coerce')`, modelled on two textual
      formats: the primary one, and the ISO-like `YYYY-MM-DD HH:MM:SS` that
      the repository's sample generator writes through `to_csv`. On a value
      that is already a timestamp or NaT it gives that value back. */
  function FlexibleConvert(c: Cell): (r: Cell)
    ensures r.Stamp? || r.Missing?
    ensures c.Stamp? || c.Missing? ==> r == c
    ensures c.Text? && (ParsePrimary(c.text).Some? || ParseIso(c.text).Some?) ==> r.Stamp?
  {
    match c
    case Text(s) =>
      (match ParsePrimary(s)
       case Some(t) => Stamp(t)
       case None => (match ParseIso(s) case Some(t) => Stamp(t) case None => Missing))
    case Stamp(_) => c
    case Missing => Missing
    case Number(_) => Missing
  }

  datatype DateError = ColumnNotFound(available: seq<string>) | Unparsed

  /** Lines 35-47 as written: parse with the primary format, re-parse the
      already converted column if anything is NaT, fail if anything still is. */
  function ConvertStartOfOrder(t: Table): Result<Table, DateError>
    requires Rectangular(t)
  {
    if StartOfOrder !in t.columns then Failure(ColumnNotFound(t.columns))
    else
      var j := IndexOf(t.columns, StartOfOrder);
      var t1 := WithColumn(t, j, MapCells(Column(t, j), PrimaryConvert));
      var t2 := if AnyMissing(Column(t1, j)) then WithColumn(t1, j, MapCells(Column(t1, j), FlexibleConvert)) else t1;
      if AnyMissing(Column(t2, j)) then Failure(Unparsed) else Success(t2)
  }

  /** Lines 39-47 as the comment at line 41 means them: when the primary
      format leaves a value unparsed, the flexible parser is given the
      uploaded values instead of the already converted column. */
  function ConvertStartOfOrderIntended(t: Table): Result<Table, DateError>
    requires Rectangular(t)
  {
    if StartOfOrder !in t.columns then Failure(ColumnNotFound(t.columns))
    else
      var j := IndexOf(t.columns, StartOfOrder);
      var t1 := WithColumn(t, j, MapCells(Column(t, j), PrimaryConvert));
      var t2 := if AnyMissing(Column(t1, j)) then WithColumn(t, j, MapCells(Column(t, j), FlexibleConvert)) else t1;
      if AnyMissing(Column(t2, j)) then Failure(Unparsed) else Success(t2)
  }

  datatype ProcessError = HeaderProbe(reason: HeaderError) | DateParse(cause: DateError)

  /** `process_uploaded_file` on a tokenised file. */
  function Process(t: Table): Result<Table, ProcessError>
    requires Rectangular(t)
  {
    match RecoverHeader(t)
    case Failure(e) => Failure(HeaderProbe(e))
    case Success(t1) =>
      match ConvertStartOfOrder(t1)
      case Failure(e) => Failure(DateParse(e))
      case Success(t2) => Success(t2)
  }

  /** `process_uploaded_file` with the corrected fallback. */
  function ProcessIntended(t: Table): Result<Table, ProcessError>
    requires Rectangular(t)
  {
    match RecoverHeader(t)
    case Failure(e) => Failure(HeaderProbe(e))
    case Success(t1) =>
      match ConvertStartOfOrderIntended(t1)
      case Failure(e) => Failure(DateParse(e))
      case Success(t2) => Success(t2)
  }

  // ---- error messages (lines 36, 47, 51, 56) -----------------------------

  /** Python's rendering of a list of column names (quotes inside names are
      not escaped here). */
  function ShowNames(names: seq<string>): string {
    "[" + JoinQuoted(names) + "]"
  }

  function JoinQuoted(names: seq<string>): string {
    if names == [] then ""
    else if |names| == 1 then "'" + names[0] + "'"
    else "'" + names[0] + "', " + JoinQuoted(names[1..])
  }

  function HeaderErrorText(e: HeaderError): string {
    match e
    case RowOutOfBounds => "single positional indexer is out-of-bounds"
    case NotAString => "argument of type 'float' is not iterable"
  }

  function DateErrorText(e: DateError): string {
    match e
    case ColumnNotFound(cols) => "'startOfOrder' column not found. Available columns: " + ShowNames(cols)
    case Unparsed => "Some dates could not be parsed. " + FormatHint
  }

  /** The text of the exception `process_uploaded_file` raises. */
  function Message(e: ProcessError): (m: string)
    ensures IsPrefix(ReadPrefix, m)
    ensures e.DateParse? ==> IsPrefix(ReadPrefix + DatePrefix, m)
  {
    match e
    case HeaderProbe(h) => ReadPrefix + HeaderErrorText(h)
    case DateParse(d) => ReadPrefix + (DatePrefix + DateErrorText(d) + ". " + FormatHint)
  }

  /** `process_uploaded_file`: header recovery may replace the frame, then the
      startOfOrder column is overwritten in place, once or twice. */
  method ProcessUploadedFile(raw: Table) returns (r: Result<DataFrame, ProcessError>)
    requires Rectangular(raw)
    ensures r.Failure? ==> Process(raw) == Failure(r.error)
    ensures r.Success? ==> fresh(r.value) && Process(raw) == Success(r.value.Snapshot())
  {
    var df := new DataFrame(raw);
    if HasUnnamedColumn(df.columns) {
      if |df.rows| == 0 {
        return Failure(HeaderProbe(RowOutOfBounds));
      }
      var first := df.rows[0][0];
      if !first.Text? {
        return Failure(HeaderProbe(NotAString));
      }
      if Contains(first.text, StartOfOrder) {
        df := new DataFrame(PromoteFirstRow(df.Snapshot()));
      }
    }
    assert RecoverHeader(raw) == Success(df.Snapshot());
    if StartOfOrder !in df.columns {
      return Failure(DateParse(ColumnNotFound(df.columns)));
    }
    var j := IndexOf(df.columns, StartOfOrder);
    df.ReplaceColumn(j, MapCells(Column(df.Snapshot(), j), PrimaryConvert));
    if AnyMissing(Column(df.Snapshot(), j)) {
      df.ReplaceColumn(j, MapCells(Column(df.Snapshot(), j), FlexibleConvert));
    }
    if AnyMissing(Column(df.Snapshot(), j)) {
      return Failure(DateParse(Unparsed));
    }
    return Success(df);
  }

  // ---- validate_dataframe (lines 58-89) ---------------------------------

  datatype ValidationError =
    | MissingColumns(names: set<string>)
    | InvalidNumeric(column: string)
    | EmptyValues(column: string)

  /** `set(required_columns) - set(df.columns)`. */
  function MissingColumnsOf(columns: seq<string>): (m: set<string>)
    ensures forall c :: c in m <==> c in RequiredColumns && c !in columns
  {
    (set c | c in RequiredColumns) - (set c | c in columns)
  }

  /** `pd.to_numeric(value, errors='coerce')`; a timestamp becomes its
      nanosecond count. */
  function ToNumeric(c: Cell): (r: Cell)
    ensures r.Number? || r.Missing?
    ensures c.Text? ==> (r.Number? <==> ParseNumber(c.text).Some?)
    ensures c.Text? && r.Number? ==> ParseNumber(c.text) == Some(r.value)
    ensures c.Number? ==> r == c
    ensures c.Missing? ==> r.Missing?
  {
    match c
    case Text(s) => (match ParseNumber(s) case Some(v) => Number(v) case None => Missing)
    case Number(_) => c
    case Stamp(t) => Number(EpochNanoseconds(t) as real)
    case Missing => Missing
  }

  /** A cell the empty-value check rejects: NaN or the empty string. */
  predicate IsBlank(c: Cell) {
    c.Missing? || c == Text("")
  }

  predicate AnyBlank(cells: seq<Cell>) {
    exists i :: 0 <= i < |cells| && IsBlank(cells[i])
  }

  predicate AllPresent(t: Table, names: seq<string>) {
    forall n :: n in names ==> n in t.columns
  }

  /** The table a validation run leaves behind and what it reported. */
  datatype Checked = Checked(table: Table, outcome: Outcome<ValidationError>)

  /** `df[name] = pd.to_numeric(df[name], errors='coerce')`. */
  function CoerceColumn(t: Table, name: string): (r: Table)
    requires Rectangular(t) && name in t.columns
    ensures Rectangular(r) && r.columns == t.columns && |r.rows| == |t.rows|
  {
    var j := IndexOf(t.columns, name);
    WithColumn(t, j, MapCells(Column(t, j), ToNumeric))
  }

  /** The numeric loop (lines 78-81): each column is overwritten by its
      coerced values before it is checked. */
  function CoerceNumeric(t: Table, names: seq<string>): (r: Checked)
    requires Rectangular(t) && AllPresent(t, names)
    ensures Rectangular(r.table) && r.table.columns == t.columns && |r.table.rows| == |t.rows|
    decreases |names|
  {
    if names == [] then Checked(t, Pass)
    else
      var t1 := CoerceColumn(t, names[0]);
      if AnyMissing(Column(t1, IndexOf(t.columns, names[0]))) then Checked(t1, Fail(InvalidNumeric(names[0])))
      else CoerceNumeric(t1, names[1..])
  }

  /** The string loop (lines 84-87). */
  function CheckStrings(t: Table, names: seq<string>): (r: Outcome<ValidationError>)
    requires Rectangular(t) && AllPresent(t, names)
    ensures r.Fail? ==> r.error.EmptyValues? && r.error.column in names
    decreases |names|
  {
    if names == [] then Pass
    else if AnyBlank(Column(t, IndexOf(t.columns, names[0]))) then Fail(EmptyValues(names[0]))
    else CheckStrings(t, names[1..])
  }

  /** `validate_dataframe`: missing columns, then numeric coercion, then
      empty identifiers; the first failing stage decides. */
  function Validate(t: Table): Checked
    requires Rectangular(t)
  {
    var missing := MissingColumnsOf(t.columns);
    if missing != {} then Checked(t, Fail(MissingColumns(missing)))
    else
      var c := CoerceNumeric(t, NumericColumns);
      if c.outcome.Fail? then c
      else Checked(c.table, CheckStrings(c.table, StringColumns))
  }

  /** `validate_dataframe` with its in-place column updates; returning Pass
      stands for `return True`, Fail for the raised exception. */
  method ValidateDataFrame(df: DataFrame) returns (outcome: Outcome<ValidationError>)
    requires Rectangular(df.Snapshot())
    modifies df
    ensures Validate(old(df.Snapshot())) == Checked(df.Snapshot(), outcome)
  {
    var missing := MissingColumnsOf(df.columns);
    if missing != {} {
      return Fail(MissingColumns(missing));
    }
    assert AllPresent(df.Snapshot(), NumericColumns);
    var n := 0;
    while n < |NumericColumns|
      invariant 0 <= n <= |NumericColumns|
      invariant Rectangular(df.Snapshot()) && df.columns == old(df.columns)
      invariant CoerceNumeric(old(df.Snapshot()), NumericColumns) == CoerceNumeric(df.Snapshot(), NumericColumns[n..])
    {
      var name := NumericColumns[n];
      var j := IndexOf(df.columns, name);
      assert NumericColumns[n..][0] == name && NumericColumns[n..][1..] == NumericColumns[n + 1..];
      df.ReplaceColumn(j, MapCells(Column(df.Snapshot(), j), ToNumeric));
      if AnyMissing(Column(df.Snapshot(), j)) {
        return Fail(InvalidNumeric(name));
      }
      n := n + 1;
    }
    assert AllPresent(df.Snapshot(), StringColumns);
    var s := 0;
    while s < |StringColumns|
      invariant 0 <= s <= |StringColumns|
      invariant CheckStrings(df.Snapshot(), StringColumns) == CheckStrings(df.Snapshot(), StringColumns[s..])
    {
      var name := StringColumns[s];
      assert StringColumns[s..][0] == name && StringColumns[s..][1..] == StringColumns[s + 1..];
      if AnyBlank(Column(df.Snapshot(), IndexOf(df.columns, name))) {
        return Fail(EmptyValues(name));
      }
      s := s + 1;
    }
    return Pass;
  }
}
