/** The re-parse of startOfOrder at line 43 of utils/data_processing.py, as
    written and as intended. As written it receives the column the primary
    format has already converted, so a value in any other format is never
    read again; the intended version hands the uploaded text to the flexible
    parser. */
module DateFallback {
  import opened Wrappers
  import opened Decimal
  import opened Timestamps
  import opened Frames
  import opened DataProcessing
  import opened DataProcessingProperties

  const IsoSample := "2025-01-12 14:12:00"
  const PrimarySample := "1/12/2025 14:12"

  /** The first record of generate_sample_data.py (lines 39, 156 and 186):
      `datetime(2023, 1, 1)` written by `DataFrame.to_csv`. */
  const GeneratedSample := "2023-01-01 00:00:00"

  /** A one-column upload holding a single timestamp text. */
  function SingleDate(s: string): (t: Table)
    ensures Rectangular(t) && t.columns == [StartOfOrder] && |t.rows| == 1
  {
    Table([StartOfOrder], [[Text(s)]])
  }

  lemma IsoSampleClock()
    ensures Pad2(14) + (":" + (Pad2(12) + (":" + Pad2(0)))) == "14:12:00"
  {
    assert DigitChar(0) == '0' && DigitChar(1) == '1' && DigitChar(2) == '2' && DigitChar(4) == '4';
    assert Pad2(14) == "14" && Pad2(12) == "12" && Pad2(0) == "00";
  }

  lemma IsoSampleFields()
    ensures Pad4(2025) == "2025" && Pad2(1) == "01" && Pad2(12) == "12"
  {
    assert DigitChar(0) == '0' && DigitChar(1) == '1' && DigitChar(2) == '2' && DigitChar(5) == '5';
    assert Pad2(20) == "20" && Pad2(25) == "25";
  }

  lemma IsoSampleCalendar()
    ensures Pad4(2025) + ("-" + (Pad2(1) + ("-" + (Pad2(12) + (" " + "14:12:00"))))) == IsoSample
  {
    IsoSampleFields();
    assert "2025" + ("-" + ("01" + ("-" + ("12" + (" " + "14:12:00"))))) == IsoSample;
  }

  lemma IsoSampleText()
    ensures FormatIso(DateTime(2025, 1, 12, 14, 12, 0)) == IsoSample
  {
    IsoSampleClock();
    IsoSampleCalendar();
  }

  lemma IsoSampleParses()
    ensures ParseIso(IsoSample) == Some(DateTime(2025, 1, 12, 14, 12, 0))
    ensures ParsePrimary(IsoSample) == None
  {
    IsoSampleText();
    IsoRoundTrip(DateTime(2025, 1, 12, 14, 12, 0));
    assert IsoSample[2] == '2';
  }

  /** The header of a single-date upload needs no recovery. */
  lemma SingleDateHeader(s: string)
    ensures RecoverHeader(SingleDate(s)) == Success(SingleDate(s))
  {
    assert forall k :: 0 <= k < |StartOfOrder| ==> StartOfOrder[k] != "Unnamed"[0];
    NoFirstCharNoMatch(StartOfOrder, "Unnamed");
    assert SingleDate(s).columns[0] == StartOfOrder;
  }

  /** As written, the ISO-like text the flexible parser would accept is
      rejected: the upload fails with the date error. */
  lemma IsoRejectedAsWritten()
    ensures Process(SingleDate(IsoSample)) == Failure(DateParse(Unparsed))
  {
    var t := SingleDate(IsoSample);
    SingleDateHeader(IsoSample);
    IsoSampleParses();
    ConvertStartOfOrderSpec(t);
    assert !PrimaryParses(t.rows[0][0]);
  }

  /** No text in the ISO-like form is read by the primary format: after two
      digits of the year it finds a digit where it needs '/'. */
  lemma IsoTextNotPrimary(d: DateTime)
    requires ValidDateTime(d)
    ensures ParsePrimary(FormatIso(d)) == None
  {
    var s := FormatIso(d);
    var y := Pad4(d.year);
    assert s[..4] == y;
    assert s[2] == y[2] && IsDigit(y[2]);
  }

  /** Any one ISO-like value, such as a timestamp the sample generator
      writes, makes the conversion as written fail. */
  lemma IsoValueRejected(t: Table, i: nat, d: DateTime)
    requires Rectangular(t) && StartOfOrder in t.columns && i < |t.rows| && ValidDateTime(d)
    requires t.rows[i][IndexOf(t.columns, StartOfOrder)] == Text(FormatIso(d))
    ensures ConvertStartOfOrder(t) == Failure(Unparsed)
  {
    IsoTextNotPrimary(d);
    ConvertStartOfOrderSpec(t);
    assert !PrimaryParses(t.rows[i][IndexOf(t.columns, StartOfOrder)]);
  }

  lemma MidnightClock()
    ensures Pad2(0) + (":" + (Pad2(0) + (":" + Pad2(0)))) == "00:00:00"
  {
    assert DigitChar(0) == '0' && Pad2(0) == "00";
  }

  lemma GeneratedFields()
    ensures Pad4(2023) == "2023" && Pad2(1) == "01"
  {
    assert DigitChar(0) == '0' && DigitChar(1) == '1' && DigitChar(2) == '2' && DigitChar(3) == '3';
    assert Pad2(20) == "20" && Pad2(23) == "23";
  }

  lemma GeneratedCalendar()
    ensures Pad4(2023) + ("-" + (Pad2(1) + ("-" + (Pad2(1) + (" " + "00:00:00"))))) == GeneratedSample
  {
    GeneratedFields();
    assert "2023" + ("-" + ("01" + ("-" + ("01" + (" " + "00:00:00"))))) == GeneratedSample;
  }

  lemma GeneratedSampleText()
    ensures FormatIso(DateTime(2023, 1, 1, 0, 0, 0)) == GeneratedSample
  {
    MidnightClock();
    GeneratedCalendar();
  }

  /** As written, an upload holding the sample generator's first timestamp
      is rejected with the date error. */
  lemma GeneratedSampleRejected()
    ensures Process(SingleDate(GeneratedSample)) == Failure(DateParse(Unparsed))
  {
    var d := DateTime(2023, 1, 1, 0, 0, 0);
    GeneratedSampleText();
    SingleDateHeader(GeneratedSample);
    IsoValueRejected(SingleDate(GeneratedSample), 0, d);
  }

  /** Where the primary format reads every value, both versions agree; they
      differ only on uploads the code as written rejects. */
  lemma IntendedExtendsAsWritten(t: Table)
    requires Rectangular(t) && ConvertStartOfOrder(t).Success?
    ensures ConvertStartOfOrderIntended(t) == ConvertStartOfOrder(t)
  {
    ConvertStartOfOrderSpec(t);
    var j := IndexOf(t.columns, StartOfOrder);
    var t1 := WithColumn(t, j, MapCells(Column(t, j), PrimaryConvert));
    assert !AnyMissing(Column(t1, j));
  }

  /** On a value the primary format reads, the flexible parser gives the
      same timestamp. */
  lemma FlexibleAgreesWithPrimary(c: Cell)
    requires PrimaryParses(c)
    ensures FlexibleConvert(c) == PrimaryConvert(c)
  {
  }

  /** The corrected conversion succeeds exactly when the flexible parser
      reads every uploaded value, and it then stores what that parser read. */
  lemma IntendedSpec(t: Table)
    requires Rectangular(t) && StartOfOrder in t.columns
    ensures var j := IndexOf(t.columns, StartOfOrder);
            var r := ConvertStartOfOrderIntended(t);
            && (r.Success? <==> forall i :: 0 <= i < |t.rows| ==> FlexibleConvert(t.rows[i][j]).Stamp?)
            && (r.Success? ==> r.value == WithColumn(t, j, MapCells(Column(t, j), FlexibleConvert)))
            && (r.Failure? ==> r.error == Unparsed)
  {
    var j := IndexOf(t.columns, StartOfOrder);
    var t1 := WithColumn(t, j, MapCells(Column(t, j), PrimaryConvert));
    var tf := WithColumn(t, j, MapCells(Column(t, j), FlexibleConvert));
    if !AnyMissing(Column(t1, j)) {
      forall i | 0 <= i < |t.rows|
        ensures PrimaryParses(t.rows[i][j]) && FlexibleConvert(t.rows[i][j]) == PrimaryConvert(t.rows[i][j])
      {
        assert Column(t1, j)[i] == PrimaryConvert(t.rows[i][j]);
      }
      assert t1 == tf;
    } else {
      if !AnyMissing(Column(tf, j)) {
        forall i | 0 <= i < |t.rows|
          ensures FlexibleConvert(t.rows[i][j]).Stamp?
        {
          assert Column(tf, j)[i] == FlexibleConvert(t.rows[i][j]);
        }
      } else {
        var i :| 0 <= i < |t.rows| && Column(tf, j)[i].Missing?;
        assert !FlexibleConvert(t.rows[i][j]).Stamp?;
      }
    }
  }

  /** The flexible parser reads every ISO-like text back as its timestamp. */
  lemma FlexibleReadsIso(d: Instant)
    ensures FlexibleConvert(Text(FormatIso(d))) == Stamp(d)
  {
    IsoTextNotPrimary(d);
    IsoRoundTrip(d);
  }

  /** Corrected, a column written entirely in the ISO-like form, as the
      sample generator writes it, converts to the timestamps it encodes. */
  lemma IsoColumnAcceptedIntended(t: Table, ds: seq<Instant>)
    requires Rectangular(t) && StartOfOrder in t.columns && |ds| == |t.rows|
    requires forall i :: 0 <= i < |t.rows| ==> t.rows[i][IndexOf(t.columns, StartOfOrder)] == Text(FormatIso(ds[i]))
    ensures var r := ConvertStartOfOrderIntended(t);
      && r.Success?
      && forall i :: 0 <= i < |t.rows| ==> r.value.rows[i][IndexOf(t.columns, StartOfOrder)] == Stamp(ds[i])
  {
    var j := IndexOf(t.columns, StartOfOrder);
    forall i | 0 <= i < |t.rows| ensures FlexibleConvert(t.rows[i][j]) == Stamp(ds[i]) {
      FlexibleReadsIso(ds[i]);
    }
    IntendedSpec(t);
    var col := MapCells(Column(t, j), FlexibleConvert);
    assert forall i :: 0 <= i < |t.rows| ==> col[i] == Stamp(ds[i]);
  }

  /** When the header needs no recovery, the corrected procedure is the
      corrected conversion with its errors wrapped. */
  lemma ProcessIntendedWithoutRecovery(t: Table)
    requires Rectangular(t) && RecoverHeader(t) == Success(t)
    ensures ConvertStartOfOrderIntended(t).Success? ==>
              ProcessIntended(t) == Success(ConvertStartOfOrderIntended(t).value)
    ensures ConvertStartOfOrderIntended(t).Failure? ==>
              ProcessIntended(t) == Failure(DateParse(ConvertStartOfOrderIntended(t).error))
  {
  }

  /** A single text the flexible parser reads converts to its timestamp. */
  lemma ConvertSingleDate(s: string, d: Instant)
    requires FlexibleConvert(Text(s)) == Stamp(d)
    ensures ConvertStartOfOrderIntended(SingleDate(s)) == Success(Table([StartOfOrder], [[Stamp(d)]]))
  {
    var t := SingleDate(s);
    assert IndexOf(t.columns, StartOfOrder) == 0;
    var tf := WithColumn(t, 0, MapCells(Column(t, 0), FlexibleConvert));
    assert tf.rows[0][0] == Stamp(d);
    assert |tf.rows| == 1 && |tf.rows[0]| == 1;
    assert tf.rows[0] == [Stamp(d)];
    assert tf.rows == [[Stamp(d)]];
    IntendedSpec(t);
  }

  /** Under the corrected procedure, a single-date upload whose text the
      flexible parser reads is stored as that timestamp. */
  lemma SingleDateIntended(s: string, d: Instant)
    requires FlexibleConvert(Text(s)) == Stamp(d)
    ensures ProcessIntended(SingleDate(s)) == Success(Table([StartOfOrder], [[Stamp(d)]]))
  {
    SingleDateHeader(s);
    ConvertSingleDate(s, d);
    ProcessIntendedWithoutRecovery(SingleDate(s));
  }

  /** The corrected conversion stores the ISO-like sample as 12 January 2025,
      14:12, the same instant it stores for "1/12/2025 14:12". */
  lemma IsoAcceptedIntended()
    ensures ProcessIntended(SingleDate(IsoSample)) == Success(Table([StartOfOrder], [[Stamp(DateTime(2025, 1, 12, 14, 12, 0))]]))
    ensures ProcessIntended(SingleDate(PrimarySample)) == ProcessIntended(SingleDate(IsoSample))
  {
    IsoSampleParses();
    SampleDateParses();
    SingleDateIntended(IsoSample, DateTime(2025, 1, 12, 14, 12, 0));
    SingleDateIntended(PrimarySample, DateTime(2025, 1, 12, 14, 12, 0));
  }
}
