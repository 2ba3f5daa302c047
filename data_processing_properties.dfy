/** What `process_uploaded_file` and `validate_dataframe` promise, proved
    about the functions that model them. */
module DataProcessingProperties {
  import opened Wrappers
  import opened Decimal
  import opened Timestamps
  import opened Frames
  import opened DataProcessing

  // ---- substring test ----------------------------------------------------

  /** `sub` occurs in `s` starting at position i. */
  predicate OccursAt(s: string, sub: string, i: nat) {
    i + |sub| <= |s| && s[i..i + |sub|] == sub
  }

  /** The recursive substring test agrees with "occurs at some position". */
  lemma {:induction false} ContainsIff(s: string, sub: string)
    ensures Contains(s, sub) <==> exists i: nat :: OccursAt(s, sub, i)
    decreases |s|
  {
    if IsPrefix(sub, s) {
      assert OccursAt(s, sub, 0);
    } else if |s| > 0 {
      ContainsIff(s[1..], sub);
      if Contains(s[1..], sub) {
        var i: nat :| OccursAt(s[1..], sub, i);
        assert s[i + 1..i + 1 + |sub|] == s[1..][i..i + |sub|];
        assert OccursAt(s, sub, i + 1);
      }
      if i: nat :| OccursAt(s, sub, i) {
        assert i != 0;
        assert s[1..][i - 1..i - 1 + |sub|] == s[i..i + |sub|];
        assert OccursAt(s[1..], sub, i - 1);
      }
    }
  }

  /** A string none of whose characters starts `sub` does not contain it. */
  lemma {:induction false} NoFirstCharNoMatch(s: string, sub: string)
    requires |sub| > 0 && forall k :: 0 <= k < |s| ==> s[k] != sub[0]
    ensures !Contains(s, sub)
    decreases |s|
  {
    if |s| > 0 {
      if |sub| <= |s| {
        assert s[..|sub|][0] == s[0];
      }
      NoFirstCharNoMatch(s[1..], sub);
    }
  }

  // ---- date conversion -------------------------------------------------------

  /** A cell the primary format turns into a timestamp. */
  predicate PrimaryParses(c: Cell) {
    PrimaryConvert(c).Stamp?
  }

  /** The re-parse at line 43 receives the already converted column, on which
      it is the identity: a value rejected by the primary format stays NaT. */
  lemma {:induction false} FallbackKeepsConverted(t: Table, j: nat)
    requires Rectangular(t) && j < |t.columns|
    requires forall i :: 0 <= i < |t.rows| ==> t.rows[i][j].Stamp? || t.rows[i][j].Missing?
    ensures WithColumn(t, j, MapCells(Column(t, j), FlexibleConvert)) == t
  {
    var r := WithColumn(t, j, MapCells(Column(t, j), FlexibleConvert));
    forall i | 0 <= i < |t.rows|
      ensures r.rows[i] == t.rows[i]
    {
      assert |r.rows[i]| == |t.rows[i]|;
      forall k | 0 <= k < |t.columns|
        ensures r.rows[i][k] == t.rows[i][k]
      {
      }
    }
    assert r.rows == t.rows;
  }

  /** Lines 35-47: with the column present, conversion succeeds exactly when
      every value parses in the primary format; the result is that column
      replaced by the parsed timestamps, and a failure is the date error. */
  lemma ConvertStartOfOrderSpec(t: Table)
    requires Rectangular(t) && StartOfOrder in t.columns
    ensures var j := IndexOf(t.columns, StartOfOrder);
            var r := ConvertStartOfOrder(t);
            && (r.Success? <==> forall i :: 0 <= i < |t.rows| ==> PrimaryParses(t.rows[i][j]))
            && (r.Success? ==> r.value == WithColumn(t, j, MapCells(Column(t, j), PrimaryConvert)))
            && (r.Failure? ==> r.error == Unparsed)
  {
    var j := IndexOf(t.columns, StartOfOrder);
    var t1 := WithColumn(t, j, MapCells(Column(t, j), PrimaryConvert));
    FallbackKeepsConverted(t1, j);
    if forall i :: 0 <= i < |t.rows| ==> PrimaryParses(t.rows[i][j]) {
      assert !AnyMissing(Column(t1, j));
    } else {
      var i :| 0 <= i < |t.rows| && !PrimaryParses(t.rows[i][j]);
      assert Column(t1, j)[i].Missing?;
    }
  }

  /** A table without a startOfOrder column (after header recovery) is
      rejected with the column-not-found error, listing the columns. */
  lemma MissingStartOfOrderRejected(t: Table)
    requires Rectangular(t) && RecoverHeader(t).Success?
    ensures var cols := RecoverHeader(t).value.columns;
            StartOfOrder !in cols <==> Process(t) == Failure(DateParse(ColumnNotFound(cols)))
  {
    var t1 := RecoverHeader(t).value;
    if StartOfOrder in t1.columns {
      ConvertStartOfOrderSpec(t1);
    }
  }

  /** The recovered table has startOfOrder and every value in it parses in
      the primary format. */
  predicate DatesParse(t: Table)
    requires Rectangular(t)
  {
    StartOfOrder in t.columns
    && forall i :: 0 <= i < |t.rows| ==> PrimaryParses(t.rows[i][IndexOf(t.columns, StartOfOrder)])
  }

  /** `process_uploaded_file` raises a header error exactly when header
      recovery fails, and otherwise succeeds exactly when the recovered table
      has startOfOrder and every value in it parses in the primary format. */
  lemma ProcessSpec(t: Table)
    requires Rectangular(t)
    ensures Process(t).Failure? && Process(t).error.HeaderProbe? <==> RecoverHeader(t).Failure?
    ensures RecoverHeader(t).Success? ==> (Process(t).Success? <==> DatesParse(RecoverHeader(t).value))
  {
    if RecoverHeader(t).Success? {
      var t1 := RecoverHeader(t).value;
      if StartOfOrder in t1.columns {
        ConvertStartOfOrderSpec(t1);
      }
    }
  }

  /** On success the recovered header, the row count and order and every
      other cell are kept, and every startOfOrder cell holds the timestamp its
      text parsed to. */
  lemma ProcessResult(t: Table)
    requires Rectangular(t) && Process(t).Success?
    ensures RecoverHeader(t).Success? && StartOfOrder in RecoverHeader(t).value.columns
    ensures var t1 := RecoverHeader(t).value;
            var r := Process(t).value;
            var j := IndexOf(t1.columns, StartOfOrder);
            && Rectangular(r) && r.columns == t1.columns && |r.rows| == |t1.rows|
            && (forall i, k :: 0 <= i < |r.rows| && 0 <= k < |r.columns| && k != j ==> r.rows[i][k] == t1.rows[i][k])
            && (forall i :: 0 <= i < |r.rows| ==> r.rows[i][j] == PrimaryConvert(t1.rows[i][j]) && r.rows[i][j].Stamp?)
  {
    var t1 := RecoverHeader(t).value;
    ConvertStartOfOrderSpec(t1);
  }

  /** A timestamp written in the primary format survives the conversion. */
  lemma PrimaryFormatAccepted(t: Instant)
    requires t.second == 0
    ensures PrimaryConvert(Text(FormatPrimary(t))) == Stamp(t)
  {
    PrimaryRoundTrip(t);
  }

  lemma SampleDateFields()
    ensures ShowNat(1) == "1" && ShowNat(12) == "12" && ShowNat(14) == "14"
    ensures Pad4(2025) == "2025" && Pad2(12) == "12"
  {
    assert DigitChar(0) == '0' && DigitChar(1) == '1' && DigitChar(2) == '2';
    assert DigitChar(4) == '4' && DigitChar(5) == '5';
    assert Pad2(20) == "20" && Pad2(25) == "25";
  }

  lemma SampleDateText()
    ensures PrimaryText(1, 12, 2025, 14, 12) == "1/12/2025 14:12"
  {
    SampleDateFields();
    assert "1" + ("/" + ("12" + ("/" + ("2025" + (" " + ("14" + (":" + "12"))))))) == "1/12/2025 14:12";
  }

  /** "1/12/2025 14:12", written as the primary format writes it, reads as
      12 January 2025, 14:12. */
  lemma SampleDateParses()
    ensures ParsePrimary("1/12/2025 14:12") == Some(DateTime(2025, 1, 12, 14, 12, 0))
  {
    SampleDateText();
    ParsePrimaryText(1, 12, 2025, 14, 12);
  }

  /** The zero-padded spelling strftime writes for `%m/%d/%Y %H:%M` is read
      too. */
  lemma PaddedDateParses()
    ensures ParsePrimary("01/12/2025 09:05") == Some(DateTime(2025, 1, 12, 9, 5, 0))
  {
    var ms, ds, ys, hs, ns := "01", "12", "2025", "09", "05";
    assert DigitValue('0') == 0 && DigitValue('1') == 1 && DigitValue('2') == 2;
    assert DigitValue('5') == 5 && DigitValue('9') == 9;
    DigitsValueTwo(ms);
    DigitsValueTwo(ds);
    DigitsValueFour(ys);
    DigitsValueTwo(hs);
    DigitsValueTwo(ns);
    assert ys[0] == '2' && ys[1] == '0' && ys[2] == '2' && ys[3] == '5';
    assert DigitsValue(ms) == 1 && DigitsValue(ds) == 12 && DigitsValue(ys) == 2025;
    assert DigitsValue(hs) == 9 && DigitsValue(ns) == 5;
    assert Timestamps.Checked(2025, 1, 12, 9, 5, 0) == Some(DateTime(2025, 1, 12, 9, 5, 0));
    assert "01/12/2025 09:05" == ms + ("/" + (ds + ("/" + (ys + (" " + (hs + (":" + ns)))))));
    ParseFieldText(ms, ds, ys, " ", hs, ns);
  }

  /** So is a one-digit minute. */
  lemma ShortMinuteParses()
    ensures ParsePrimary("1/12/2025 14:5") == Some(DateTime(2025, 1, 12, 14, 5, 0))
  {
    var ms, ds, ys, hs, ns := "1", "12", "2025", "14", "5";
    assert DigitValue('0') == 0 && DigitValue('1') == 1 && DigitValue('2') == 2;
    assert DigitValue('4') == 4 && DigitValue('5') == 5;
    DigitsValueOne(ms);
    DigitsValueTwo(ds);
    DigitsValueFour(ys);
    DigitsValueTwo(hs);
    DigitsValueOne(ns);
    assert ys[0] == '2' && ys[1] == '0' && ys[2] == '2' && ys[3] == '5';
    assert DigitsValue(ms) == 1 && DigitsValue(ds) == 12 && DigitsValue(ys) == 2025;
    assert DigitsValue(hs) == 14 && DigitsValue(ns) == 5;
    assert Timestamps.Checked(2025, 1, 12, 14, 5, 0) == Some(DateTime(2025, 1, 12, 14, 5, 0));
    assert "1/12/2025 14:5" == ms + ("/" + (ds + ("/" + (ys + (" " + (hs + (":" + ns)))))));
    ParseFieldText(ms, ds, ys, " ", hs, ns);
  }

  /** A February 29 reading in the primary format parses exactly when its
      year is a leap year, and then as that date and time. */
  lemma LeapDayParses(year: nat, hour: nat, minute: nat)
    requires 1 <= year <= 9999 && hour < 24 && minute < 60
    ensures ParsePrimary(PrimaryText(2, 29, year, hour, minute)) ==
      if IsLeapYear(year) then Some(DateTime(year, 2, 29, hour, minute, 0)) else None
  {
    ParsePrimaryText(2, 29, year, hour, minute);
  }

  /** So "2/29/2023 10:00" is rejected... */
  lemma LeapDayRejected()
    ensures ParsePrimary(PrimaryText(2, 29, 2023, 10, 0)) == None
  {
    assert !IsLeapYear(2023);
    LeapDayParses(2023, 10, 0);
  }

  /** ...and "2/29/2024 10:00" accepted. */
  lemma LeapDayAccepted()
    ensures ParsePrimary(PrimaryText(2, 29, 2024, 10, 0)) == Some(DateTime(2024, 2, 29, 10, 0, 0))
  {
    assert IsLeapYear(2024);
    LeapDayParses(2024, 10, 0);
  }

  // ---- validate_dataframe ---------------------------------------------------

  predicate Distinct(names: seq<string>) {
    forall a, b :: 0 <= a < b < |names| ==> names[a] != names[b]
  }

  /** Every value of the named column coerces to a number. */
  predicate NumericColumn(t: Table, name: string)
    requires Rectangular(t) && name in t.columns
  {
    forall i :: 0 <= i < |t.rows| ==> ToNumeric(t.rows[i][IndexOf(t.columns, name)]).Number?
  }

  /** Some value of the named column is NaN or empty. */
  predicate BlankColumn(t: Table, name: string)
    requires Rectangular(t) && name in t.columns
  {
    AnyBlank(Column(t, IndexOf(t.columns, name)))
  }

  /** One coercion step: the named column becomes its coerced values, which
      hold a NaN exactly when the column was not numeric; every other
      column, and so whether it is numeric, is unchanged. */
  lemma CoerceColumnFacts(t: Table, name: string)
    requires Rectangular(t) && name in t.columns
    ensures var j := IndexOf(t.columns, name);
            var t1 := CoerceColumn(t, name);
            && (forall i :: 0 <= i < |t.rows| ==> t1.rows[i][j] == ToNumeric(t.rows[i][j]))
            && (forall i, c :: 0 <= i < |t.rows| && 0 <= c < |t.columns| && c != j ==> t1.rows[i][c] == t.rows[i][c])
            && (AnyMissing(Column(t1, j)) <==> !NumericColumn(t, name))
            && (forall n :: n in t.columns && n != name ==> NumericColumn(t1, n) == NumericColumn(t, n))
  {
    var j := IndexOf(t.columns, name);
    var t1 := CoerceColumn(t, name);
    if AnyMissing(Column(t1, j)) {
      var i :| 0 <= i < |Column(t1, j)| && Column(t1, j)[i].Missing?;
      assert !ToNumeric(t.rows[i][j]).Number?;
    }
    forall n | n in t.columns && n != name
      ensures NumericColumn(t1, n) == NumericColumn(t, n)
    {
      assert IndexOf(t.columns, n) != j;
    }
  }

  /** The numeric loop leaves every column it is not given alone. */
  lemma {:induction false} CoerceNumericUntouched(t: Table, names: seq<string>)
    requires Rectangular(t) && AllPresent(t, names)
    ensures var r := CoerceNumeric(t, names);
      forall i, c :: 0 <= i < |t.rows| && 0 <= c < |t.columns| && t.columns[c] !in names ==>
        r.table.rows[i][c] == t.rows[i][c]
    decreases |names|
  {
    if names != [] {
      var t1 := CoerceColumn(t, names[0]);
      CoerceColumnFacts(t, names[0]);
      if !AnyMissing(Column(t1, IndexOf(t.columns, names[0]))) {
        assert AllPresent(t1, names[1..]);
        CoerceNumericUntouched(t1, names[1..]);
        forall i, c | 0 <= i < |t.rows| && 0 <= c < |t.columns| && t.columns[c] !in names
          ensures CoerceNumeric(t, names).table.rows[i][c] == t.rows[i][c]
        {
          assert t.columns[c] !in names[1..];
          assert c != IndexOf(t.columns, names[0]);
        }
      }
    }
  }

  /** The numeric loop, over any list of present columns, passes exactly
      when every column is numeric; a failure names one of the columns. */
  lemma {:induction false} CoerceNumericPass(t: Table, names: seq<string>)
    requires Rectangular(t) && AllPresent(t, names) && Distinct(names)
    ensures var r := CoerceNumeric(t, names);
      && (r.outcome.Pass? <==> forall k :: 0 <= k < |names| ==> NumericColumn(t, names[k]))
      && (r.outcome.Fail? ==> r.outcome.error.InvalidNumeric? && r.outcome.error.column in names)
    decreases |names|
  {
    if names != [] {
      var t1 := CoerceColumn(t, names[0]);
      CoerceColumnFacts(t, names[0]);
      if !AnyMissing(Column(t1, IndexOf(t.columns, names[0]))) {
        var rest := names[1..];
        assert AllPresent(t1, rest) && Distinct(rest);
        forall k | 1 <= k < |names|
          ensures names[k] == rest[k - 1]
          ensures NumericColumn(t1, names[k]) == NumericColumn(t, names[k])
        {
          assert names[k] != names[0];
        }
        CoerceNumericPass(t1, rest);
        assert (forall k :: 0 <= k < |names| ==> NumericColumn(t, names[k])) <==>
               (forall k :: 0 <= k < |rest| ==> NumericColumn(t1, rest[k]));
      }
    }
  }

  /** Column k is the first of `names` in t that is not numeric. */
  predicate FirstNonNumeric(t: Table, names: seq<string>, k: nat)
    requires Rectangular(t) && AllPresent(t, names) && k < |names|
  {
    (forall k' :: 0 <= k' < k ==> NumericColumn(t, names[k'])) && !NumericColumn(t, names[k])
  }

  /** Dropping a numeric first column shifts the first failure by one. */
  lemma FirstNonNumericShift(t: Table, t1: Table, names: seq<string>, k: nat)
    requires Rectangular(t) && AllPresent(t, names) && 0 < k < |names|
    requires Rectangular(t1) && t1.columns == t.columns && NumericColumn(t, names[0])
    requires forall n :: n in t.columns && n != names[0] ==> NumericColumn(t1, n) == NumericColumn(t, n)
    requires forall k' :: 1 <= k' < |names| ==> names[k'] != names[0]
    ensures FirstNonNumeric(t, names, k) <==> FirstNonNumeric(t1, names[1..], k - 1)
  {
    var rest := names[1..];
    forall k' | 0 <= k' < |rest|
      ensures rest[k'] == names[k' + 1]
      ensures NumericColumn(t1, rest[k']) == NumericColumn(t, names[k' + 1])
    {
      assert names[k' + 1] != names[0];
    }
    if FirstNonNumeric(t1, rest, k - 1) {
      forall k' | 0 <= k' < k ensures NumericColumn(t, names[k']) {
        if k' > 0 {
          assert NumericColumn(t1, rest[k' - 1]);
        }
      }
    }
  }

  /** A failing numeric loop over distinct present columns names the first
      column, in list order, that is not numeric. */
  lemma {:induction false} CoerceNumericOutcome(t: Table, names: seq<string>)
    requires Rectangular(t) && AllPresent(t, names) && Distinct(names)
    ensures forall k :: 0 <= k < |names| ==>
      (CoerceNumeric(t, names).outcome == Fail(InvalidNumeric(names[k])) <==> FirstNonNumeric(t, names, k))
    decreases |names|
  {
    if names != [] {
      var t1 := CoerceColumn(t, names[0]);
      CoerceColumnFacts(t, names[0]);
      if !AnyMissing(Column(t1, IndexOf(t.columns, names[0]))) {
        var rest := names[1..];
        assert AllPresent(t1, rest) && Distinct(rest);
        assert forall k :: 1 <= k < |names| ==> names[k] == rest[k - 1] && names[k] != names[0];
        CoerceNumericOutcome(t1, rest);
        CoerceNumericPass(t1, rest);
        var r := CoerceNumeric(t1, rest);
        forall k | 0 <= k < |names|
          ensures r.outcome == Fail(InvalidNumeric(names[k])) <==> FirstNonNumeric(t, names, k)
        {
          if k > 0 {
            FirstNonNumericShift(t, t1, names, k);
          }
        }
      }
    }
  }

  /** After a passing numeric loop every listed column holds the coerced
      values of the original, all of them numbers. */
  lemma {:induction false} CoerceNumericValues(t: Table, names: seq<string>)
    requires Rectangular(t) && AllPresent(t, names) && Distinct(names)
    requires CoerceNumeric(t, names).outcome.Pass?
    ensures var r := CoerceNumeric(t, names);
      forall k, i :: 0 <= k < |names| && 0 <= i < |t.rows| ==>
        var c := IndexOf(t.columns, names[k]);
        r.table.rows[i][c] == ToNumeric(t.rows[i][c]) && r.table.rows[i][c].Number?
    decreases |names|
  {
    if names != [] {
      var j := IndexOf(t.columns, names[0]);
      var t1 := CoerceColumn(t, names[0]);
      CoerceColumnFacts(t, names[0]);
      var rest := names[1..];
      assert AllPresent(t1, rest);
      assert Distinct(rest);
      CoerceNumericValues(t1, rest);
      CoerceNumericUntouched(t1, rest);
      CoerceNumericPass(t, names);
      var r := CoerceNumeric(t1, rest);
      forall k, i | 0 <= k < |names| && 0 <= i < |t.rows|
        ensures var c := IndexOf(t.columns, names[k]);
                r.table.rows[i][c] == ToNumeric(t.rows[i][c]) && r.table.rows[i][c].Number?
      {
        var c := IndexOf(t.columns, names[k]);
        if k == 0 {
          assert t1.columns[j] !in rest;
          assert NumericColumn(t, names[0]);
        } else {
          assert names[k] == rest[k - 1] && names[k] != names[0];
          assert c != j;
        }
      }
    }
  }

  /** CoerceNumericPass and CoerceNumericValues, with the columns named
      rather than indexed. */
  lemma CoerceNumericByName(t: Table, names: seq<string>)
    requires Rectangular(t) && AllPresent(t, names) && Distinct(names)
    ensures CoerceNumeric(t, names).outcome.Pass? <==> forall n :: n in names ==> NumericColumn(t, n)
    ensures CoerceNumeric(t, names).outcome.Fail? ==> CoerceNumeric(t, names).outcome.error.InvalidNumeric?
    ensures CoerceNumeric(t, names).outcome.Pass? ==>
      forall n, i :: n in names && 0 <= i < |t.rows| ==>
        var c := IndexOf(t.columns, n);
        CoerceNumeric(t, names).table.rows[i][c] == ToNumeric(t.rows[i][c])
        && CoerceNumeric(t, names).table.rows[i][c].Number?
  {
    CoerceNumericPass(t, names);
    assert (forall n :: n in names ==> NumericColumn(t, n)) <==>
           (forall k :: 0 <= k < |names| ==> NumericColumn(t, names[k]));
    if CoerceNumeric(t, names).outcome.Pass? {
      CoerceNumericValues(t, names);
      forall n, i | n in names && 0 <= i < |t.rows|
        ensures var c := IndexOf(t.columns, n);
          CoerceNumeric(t, names).table.rows[i][c] == ToNumeric(t.rows[i][c])
          && CoerceNumeric(t, names).table.rows[i][c].Number?
      {
        var k :| 0 <= k < |names| && names[k] == n;
      }
    }
  }

  /** With every required column present, both loops find their columns. */
  lemma RequiredPresent(t: Table)
    requires forall c :: c in RequiredColumns ==> c in t.columns
    ensures MissingColumnsOf(t.columns) == {}
    ensures AllPresent(t, NumericColumns) && AllPresent(t, StringColumns)
  {
    NumericColumnsDistinct();
  }

  lemma NumericColumnsDistinct()
    ensures Distinct(NumericColumns)
    ensures forall n :: n in NumericColumns ==> n in RequiredColumns
    ensures forall n :: n in StringColumns ==> n in RequiredColumns && n !in NumericColumns
    ensures StartOfOrder in RequiredColumns && StartOfOrder !in NumericColumns
  {
  }

  /** The missing-columns error is raised exactly when some required name is
      absent; it names exactly the absent ones, and nothing has been
      coerced yet. */
  lemma ValidateMissingColumns(t: Table)
    requires Rectangular(t)
    ensures var r := Validate(t);
      (r.outcome.Fail? && r.outcome.error.MissingColumns?) <==>
        exists c :: c in RequiredColumns && c !in t.columns
    ensures var r := Validate(t);
      r.outcome.Fail? && r.outcome.error.MissingColumns? ==>
        r.table == t && r.outcome.error.names == (set c | c in RequiredColumns) - (set c | c in t.columns)
  {
    var r := Validate(t);
    if exists c :: c in RequiredColumns && c !in t.columns {
      var c :| c in RequiredColumns && c !in t.columns;
      assert c in MissingColumnsOf(t.columns);
    } else {
      ValidateComplete(t);
      NumericColumnsAllNumeric(t);
    }
  }

  /** With every required column present, the numeric error names the first
      column, in the order of lines 73-76, holding a value that is not a
      number. */
  lemma ValidateNumericOrder(t: Table, k: nat)
    requires Rectangular(t) && k < |NumericColumns|
    requires forall c :: c in RequiredColumns ==> c in t.columns
    ensures Validate(t).outcome == Fail(InvalidNumeric(NumericColumns[k])) <==>
      (forall k' :: 0 <= k' < k ==> NumericColumn(t, NumericColumns[k'])) && !NumericColumn(t, NumericColumns[k])
  {
    ValidateComplete(t);
    NumericColumnsAllNumeric(t);
    NumericColumnsDistinct();
    CoerceNumericOutcome(t, NumericColumns);
    assert FirstNonNumeric(t, NumericColumns, k) ==> CoerceNumeric(t, NumericColumns).outcome.Fail?;
  }

  /** A column that is not numeric makes the numeric loop fail, naming
      that column or an earlier one. */
  lemma CoerceNumericFailsBy(t: Table, names: seq<string>, k: nat)
    requires Rectangular(t) && AllPresent(t, names) && Distinct(names)
    requires k < |names| && !NumericColumn(t, names[k])
    ensures exists k' :: 0 <= k' <= k && CoerceNumeric(t, names).outcome == Fail(InvalidNumeric(names[k']))
  {
    CoerceNumericPass(t, names);
    CoerceNumericOutcome(t, names);
    var name := CoerceNumeric(t, names).outcome.error.column;
    var k' :| 0 <= k' < |names| && names[k'] == name;
    assert FirstNonNumeric(t, names, k');
    assert k' <= k;
  }

  /** Fail-fast: one value that is not a number in a numeric column rejects the
      whole table with a numeric error, naming that column or an earlier one. */
  lemma OneBadCellRejects(t: Table, k: nat, i: nat)
    requires Rectangular(t) && k < |NumericColumns| && i < |t.rows|
    requires forall c :: c in RequiredColumns ==> c in t.columns
    requires ToNumeric(t.rows[i][IndexOf(t.columns, NumericColumns[k])]).Missing?
    ensures exists k' :: 0 <= k' <= k && Validate(t).outcome == Fail(InvalidNumeric(NumericColumns[k']))
  {
    ValidateComplete(t);
    NumericColumnsDistinct();
    assert !NumericColumn(t, NumericColumns[k]);
    CoerceNumericFailsBy(t, NumericColumns, k);
  }

  /** The string loop passes exactly when no listed column has a blank value. */
  lemma {:induction false} CheckStringsPass(t: Table, names: seq<string>)
    requires Rectangular(t) && AllPresent(t, names)
    ensures CheckStrings(t, names).Pass? <==> forall n :: n in names ==> !BlankColumn(t, n)
    decreases |names|
  {
    if names != [] && !BlankColumn(t, names[0]) {
      var rest := names[1..];
      assert AllPresent(t, rest);
      CheckStringsPass(t, rest);
      assert forall n :: n in names <==> n == names[0] || n in rest;
    }
  }

  /** Column k is the first of `names` in t with a blank value. */
  predicate FirstBlank(t: Table, names: seq<string>, k: nat)
    requires Rectangular(t) && AllPresent(t, names) && k < |names|
  {
    (forall k' :: 0 <= k' < k ==> !BlankColumn(t, names[k'])) && BlankColumn(t, names[k])
  }

  /** Dropping a non-blank first column shifts the first blank one by one. */
  lemma FirstBlankShift(t: Table, names: seq<string>, k: nat)
    requires Rectangular(t) && AllPresent(t, names) && 0 < k < |names| && !BlankColumn(t, names[0])
    ensures AllPresent(t, names[1..])
    ensures FirstBlank(t, names, k) <==> FirstBlank(t, names[1..], k - 1)
  {
    var rest := names[1..];
    assert forall k' :: 0 <= k' < |rest| ==> rest[k'] == names[k' + 1];
    if FirstBlank(t, rest, k - 1) {
      forall k' | 0 <= k' < k ensures !BlankColumn(t, names[k']) {
        if k' > 0 {
          assert !BlankColumn(t, rest[k' - 1]);
        }
      }
    }
  }

  /** A failing string loop over distinct present columns names the first
      column, in list order, with a blank value. */
  lemma {:induction false} CheckStringsOutcome(t: Table, names: seq<string>)
    requires Rectangular(t) && AllPresent(t, names) && Distinct(names)
    ensures forall k :: 0 <= k < |names| ==>
      (CheckStrings(t, names) == Fail(EmptyValues(names[k])) <==> FirstBlank(t, names, k))
    decreases |names|
  {
    if names != [] && !BlankColumn(t, names[0]) {
      var rest := names[1..];
      assert AllPresent(t, rest) && Distinct(rest);
      assert forall k :: 1 <= k < |names| ==> names[k] == rest[k - 1] && names[k] != names[0];
      CheckStringsOutcome(t, rest);
      forall k | 0 <= k < |names|
        ensures CheckStrings(t, rest) == Fail(EmptyValues(names[k])) <==> FirstBlank(t, names, k)
      {
        if k > 0 {
          FirstBlankShift(t, names, k);
        }
      }
    }
  }

  /** With the header complete, the numeric loop over the seven columns
      passes exactly when each of them is numeric. */
  lemma NumericColumnsAllNumeric(t: Table)
    requires Rectangular(t) && forall c :: c in RequiredColumns ==> c in t.columns
    ensures AllPresent(t, NumericColumns)
    ensures CoerceNumeric(t, NumericColumns).outcome.Pass? <==> forall n :: n in NumericColumns ==> NumericColumn(t, n)
    ensures CoerceNumeric(t, NumericColumns).outcome.Fail? ==> CoerceNumeric(t, NumericColumns).outcome.error.InvalidNumeric?
  {
    RequiredPresent(t);
    NumericColumnsDistinct();
    CoerceNumericByName(t, NumericColumns);
  }

  /** The identifier columns reach the string checks as uploaded. */
  lemma StringColumnsSurviveCoercion(t: Table)
    requires Rectangular(t) && forall c :: c in RequiredColumns ==> c in t.columns
    ensures var c := CoerceNumeric(t, NumericColumns).table;
      forall n :: n in StringColumns ==> n in c.columns && BlankColumn(c, n) == BlankColumn(t, n)
  {
    NumericColumnsDistinct();
    RequiredPresent(t);
    OtherColumnsKeepBlanks(t, NumericColumns, StringColumns);
  }

  /** The numeric loop does not change which of the columns outside its
      list are blank. */
  lemma OtherColumnsKeepBlanks(t: Table, names: seq<string>, others: seq<string>)
    requires Rectangular(t) && AllPresent(t, names) && AllPresent(t, others)
    requires forall n :: n in others ==> n !in names
    ensures var c := CoerceNumeric(t, names).table;
      forall n :: n in others ==> n in c.columns && BlankColumn(c, n) == BlankColumn(t, n)
  {
    CoerceNumericUntouched(t, names);
    var c := CoerceNumeric(t, names).table;
    forall n | n in others
      ensures n in c.columns && BlankColumn(c, n) == BlankColumn(t, n)
    {
      var j := IndexOf(t.columns, n);
      assert t.columns[j] !in names;
      assert Column(c, j) == Column(t, j);
    }
  }

  /** The string loop over a table that agrees with t on which of the
      checked columns are blank behaves as if it were run on t. */
  lemma StringChecksTransfer(t: Table, c: Table, names: seq<string>)
    requires Rectangular(t) && AllPresent(t, names) && Distinct(names)
    requires Rectangular(c) && AllPresent(c, names)
    requires forall n :: n in names ==> BlankColumn(c, n) == BlankColumn(t, n)
    ensures CheckStrings(c, names).Pass? <==> forall n :: n in names ==> !BlankColumn(t, n)
    ensures forall k :: 0 <= k < |names| ==>
      (CheckStrings(c, names) == Fail(EmptyValues(names[k])) <==> FirstBlank(t, names, k))
  {
    CheckStringsPass(c, names);
    CheckStringsOutcome(c, names);
    forall k | 0 <= k < |names| ensures FirstBlank(c, names, k) == FirstBlank(t, names, k) {
      assert forall k' :: 0 <= k' <= k ==> BlankColumn(c, names[k']) == BlankColumn(t, names[k']);
    }
  }

  /** The string loop, run on the coerced table, judges the identifier
      columns as uploaded. */
  lemma StringChecksOnUpload(t: Table)
    requires Rectangular(t) && forall c :: c in RequiredColumns ==> c in t.columns
    ensures var c := CoerceNumeric(t, NumericColumns).table;
      && AllPresent(c, StringColumns)
      && (CheckStrings(c, StringColumns).Pass? <==> forall n :: n in StringColumns ==> !BlankColumn(t, n))
      && (forall k :: 0 <= k < |StringColumns| ==>
            (CheckStrings(c, StringColumns) == Fail(EmptyValues(StringColumns[k])) <==> FirstBlank(t, StringColumns, k)))
  {
    RequiredPresent(t);
    StringColumnsSurviveCoercion(t);
    assert Distinct(StringColumns);
    StringChecksTransfer(t, CoerceNumeric(t, NumericColumns).table, StringColumns);
  }

  /** Numeric coercion runs before the string checks, which examine the
      identifier columns unchanged: the empty-value error names the first
      identifier column holding NaN or "". */
  lemma ValidateStringOrder(t: Table, k: nat)
    requires Rectangular(t) && k < |StringColumns|
    requires forall c :: c in RequiredColumns ==> c in t.columns
    ensures Validate(t).outcome == Fail(EmptyValues(StringColumns[k])) <==>
      && (forall n :: n in NumericColumns ==> NumericColumn(t, n))
      && (forall k' :: 0 <= k' < k ==> !BlankColumn(t, StringColumns[k']))
      && BlankColumn(t, StringColumns[k])
  {
    ValidateComplete(t);
    NumericColumnsAllNumeric(t);
    StringChecksOnUpload(t);
  }

  /** `validate_dataframe` returns True exactly when every required column is
      present, every numeric column holds numbers only, and no identifier is
      NaN or empty. */
  lemma ValidatePassIff(t: Table)
    requires Rectangular(t)
    ensures Validate(t).outcome.Pass? <==>
        && (forall c :: c in RequiredColumns ==> c in t.columns)
        && (forall n :: n in NumericColumns ==> NumericColumn(t, n))
        && (forall n :: n in StringColumns ==> !BlankColumn(t, n))
  {
    if forall c :: c in RequiredColumns ==> c in t.columns {
      ValidateComplete(t);
      NumericColumnsAllNumeric(t);
      StringChecksOnUpload(t);
    } else {
      ValidateMissingColumns(t);
    }
  }

  /** A passing validation found every required column and ended with a
      passing numeric loop whose table it returns. */
  lemma ValidatePassStages(t: Table)
    requires Rectangular(t) && Validate(t).outcome.Pass?
    ensures forall c :: c in RequiredColumns ==> c in t.columns
    ensures AllPresent(t, NumericColumns) && Distinct(NumericColumns)
    ensures CoerceNumeric(t, NumericColumns).outcome.Pass?
    ensures Validate(t).table == CoerceNumeric(t, NumericColumns).table
  {
    ValidatePassIff(t);
    ValidateComplete(t);
    NumericColumnsDistinct();
  }

  /** With the header complete, validation is the numeric loop followed,
      if it passes, by the string loop. */
  lemma ValidateComplete(t: Table)
    requires Rectangular(t)
    requires forall c :: c in RequiredColumns ==> c in t.columns
    ensures AllPresent(t, NumericColumns) && AllPresent(t, StringColumns)
    ensures var c := CoerceNumeric(t, NumericColumns);
      Validate(t) == if c.outcome.Fail? then c else Checked(c.table, CheckStrings(c.table, StringColumns))
  {
    RequiredPresent(t);
  }

  /** r holds, in each of the named columns of t, the coerced values of t,
      all of them numbers. */
  predicate NumbersCoerced(t: Table, r: Table, names: seq<string>)
    requires Rectangular(t) && AllPresent(t, names)
  {
    && Rectangular(r) && r.columns == t.columns && |r.rows| == |t.rows|
    && forall n, i :: n in names && 0 <= i < |t.rows| ==>
         r.rows[i][IndexOf(t.columns, n)] == ToNumeric(t.rows[i][IndexOf(t.columns, n)])
         && r.rows[i][IndexOf(t.columns, n)].Number?
  }

  /** After a passing validation every numeric column holds numbers only. */
  lemma ValidatePassNumbers(t: Table)
    requires Rectangular(t) && Validate(t).outcome.Pass?
    ensures AllPresent(t, NumericColumns)
    ensures NumbersCoerced(t, Validate(t).table, NumericColumns)
  {
    ValidatePassStages(t);
    PassNumbersTransfer(t, NumericColumns, Validate(t).table);
  }

  /** The table a passing numeric loop leaves behind holds the coerced
      values of every listed column. */
  lemma PassNumbersTransfer(t: Table, names: seq<string>, r: Table)
    requires Rectangular(t) && AllPresent(t, names) && Distinct(names)
    requires CoerceNumeric(t, names).outcome.Pass? && r == CoerceNumeric(t, names).table
    ensures NumbersCoerced(t, r, names)
  {
    CoerceNumericByName(t, names);
  }

  /** A passing validation keeps the header and the rows' number and order,
      and leaves every non-numeric column, startOfOrder included, as it was. */
  lemma ValidatePassKeeps(t: Table)
    requires Rectangular(t) && Validate(t).outcome.Pass?
    ensures var r := Validate(t).table;
        && Rectangular(r) && r.columns == t.columns && |r.rows| == |t.rows|
        && (forall i, c :: 0 <= i < |t.rows| && 0 <= c < |t.columns| && t.columns[c] !in NumericColumns ==>
              r.rows[i][c] == t.rows[i][c])
  {
    ValidatePassStages(t);
    CoerceNumericUntouched(t, NumericColumns);
  }
}
