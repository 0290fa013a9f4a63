/**
 * `parse_payment_data`: turns the report text into metric rows with two
 * independent rules, POS payments and mobile wallets.  Each `re.search` is an
 * input: the captured groups of its first match, or `None`.  The numbers keep
 * the normalised token `clean_value` converts; the float value, its `.1f`
 * rendering and the computed growth stay abstract in `Cell`.
 */
module Parser {
  import opened Wrappers
  import opened Strings

  /** Groups of the POS-count pattern: 1 growth %, 2 the 2022 count, 3 the 2023 count (millions). */
  datatype PosCountMatch = PosCountMatch(group1: string, group2: string, group3: string)

  /** Groups of the POS-value pattern: 1 the 2023 value, 2 the 2022 value (billions of dirhams). */
  datatype PosValueMatch = PosValueMatch(group1: string, group2: string)

  /**
   * Groups of the mobile-wallet pattern: 1 the 2023 count, 2 the 2022 count,
   * 3 the 2023 value, 4 the 2022 value, 5 the shared growth %.
   */
  datatype MobileMatch = MobileMatch(group1: string, group2: string, group3: string, group4: string, group5: string)

  /** What the three searches over one text return. */
  datatype Matches = Matches(posCount: Option<PosCountMatch>, posValue: Option<PosValueMatch>, mobile: Option<MobileMatch>)

  /** A displayed table cell. */
  datatype Cell =
    | Text(text: string)                             // a literal string (the fallback table)
    | Millions(amount: string)                       // "<amount, 1 decimal> million"
    | MadBillions(amount: string)                    // "MAD <amount, 1 decimal> billion"
    | Growth(percent: string)                        // "+<percent>%"
    | GrowthBetween(current: string, prior: string)  // "+<round((current / prior - 1) * 100, 1)>%"

  /** One row of the report table; an empty category continues the previous one. */
  datatype MetricRow = MetricRow(category: string, metric: string, year2022: Cell, year2023: Cell, growth: Cell)

  const PosCategory := "POS Payments"
  const MobileCategory := "Mobile Payments (M-Wallet)"
  const CountMetric := "Number of Transactions"
  const ValueMetric := "Value of Transactions"

  /** `clean_value` succeeds on the token: `float()` accepts the normalised string. */
  predicate Converts(token: string)
  {
    IsDecimal(CleanValue(token))
  }

  /** Every POS number converts and the 2022 value, the divisor of the growth, is not zero. */
  predicate PosComputable(c: PosCountMatch, v: PosValueMatch)
  {
    && Converts(c.group1) && Converts(c.group2) && Converts(c.group3)
    && Converts(v.group1) && Converts(v.group2)
    && !IsZeroDecimal(CleanValue(v.group2))
  }

  predicate MobileComputable(w: MobileMatch)
  {
    Converts(w.group1) && Converts(w.group2) && Converts(w.group3) && Converts(w.group4) && Converts(w.group5)
  }

  /** The POS rule emits rows: both of its patterns matched and their numbers are usable. */
  predicate PosRuleFires(m: Matches)
  {
    m.posCount.Some? && m.posValue.Some? && PosComputable(m.posCount.value, m.posValue.value)
  }

  predicate MobileRuleFires(m: Matches)
  {
    m.mobile.Some? && MobileComputable(m.mobile.value)
  }

  function PosRows(c: PosCountMatch, v: PosValueMatch): seq<MetricRow>
  {
    var value2023, value2022 := CleanValue(v.group1), CleanValue(v.group2);
    [ MetricRow(PosCategory, CountMetric, Millions(CleanValue(c.group2)), Millions(CleanValue(c.group3)), Growth(CleanValue(c.group1))),
      MetricRow("", ValueMetric, MadBillions(value2022), MadBillions(value2023), GrowthBetween(value2023, value2022)) ]
  }

  function MobileRows(w: MobileMatch): seq<MetricRow>
  {
    var growth := Growth(CleanValue(w.group5));
    [ MetricRow(MobileCategory, CountMetric, Millions(CleanValue(w.group2)), Millions(CleanValue(w.group1)), growth),
      MetricRow("", ValueMetric, MadBillions(CleanValue(w.group4)), MadBillions(CleanValue(w.group3)), growth) ]
  }

  /** The parsed table: the POS pair, if its rule fires, then the mobile pair, if its rule fires. */
  function ParsedRows(m: Matches): seq<MetricRow>
  {
    (if PosRuleFires(m) then PosRows(m.posCount.value, m.posValue.value) else [])
    + (if MobileRuleFires(m) then MobileRows(m.mobile.value) else [])
  }

  /** The corrected parser, appending row by row as the dashboard does. */
  method ParsePaymentData(m: Matches) returns (rows: seq<MetricRow>)
    ensures rows == ParsedRows(m)
  {
    rows := [];
    if m.posCount.Some? && m.posValue.Some? && PosComputable(m.posCount.value, m.posValue.value) {
      var count, value := m.posCount.value, m.posValue.value;
      var value2023, value2022 := CleanValue(value.group1), CleanValue(value.group2);
      var growthValue := GrowthBetween(value2023, value2022);
      rows := rows + [MetricRow(PosCategory, CountMetric, Millions(CleanValue(count.group2)), Millions(CleanValue(count.group3)), Growth(CleanValue(count.group1)))];
      rows := rows + [MetricRow("", ValueMetric, MadBillions(value2022), MadBillions(value2023), growthValue)];
      assert rows == PosRows(count, value);
    }
    ghost var pos := rows;
    if m.mobile.Some? && MobileComputable(m.mobile.value) {
      var w := m.mobile.value;
      var growth := Growth(CleanValue(w.group5));
      rows := rows + [MetricRow(MobileCategory, CountMetric, Millions(CleanValue(w.group2)), Millions(CleanValue(w.group1)), growth)];
      rows := rows + [MetricRow("", ValueMetric, MadBillions(CleanValue(w.group4)), MadBillions(CleanValue(w.group3)), growth)];
      assert rows == pos + MobileRows(w);
    } else {
      assert rows == pos + [];
    }
  }

  /**
   * Rule gating and row assembly: 0, 2 or 4 rows; the POS pair (when its two
   * patterns match) before the mobile pair (when its pattern matches); the
   * first row of each pair carries the category and the second has ""; the
   * POS count row takes 2022 from group 2, 2023 from group 3 and its growth
   * from group 1, the POS value row takes 2022 from group 2 and 2023 from
   * group 1 and computes its growth from them; both mobile rows share one
   * growth; the mobile count row takes 2022 from group 2 and 2023 from group 1.
   */
  lemma {:induction false} ParsedRowsShape(m: Matches)
    ensures var rows := ParsedRows(m);
      && |rows| == (if PosRuleFires(m) then 2 else 0) + (if MobileRuleFires(m) then 2 else 0)
      && (PosRuleFires(m) ==>
            var c, v := m.posCount.value, m.posValue.value;
            && rows[0].category == PosCategory && rows[0].metric == CountMetric
            && rows[1].category == "" && rows[1].metric == ValueMetric
            && rows[0].year2022 == Millions(CleanValue(c.group2))
            && rows[0].year2023 == Millions(CleanValue(c.group3))
            && rows[0].growth == Growth(CleanValue(c.group1))
            && rows[1].year2022 == MadBillions(CleanValue(v.group2))
            && rows[1].year2023 == MadBillions(CleanValue(v.group1))
            && rows[1].growth == GrowthBetween(CleanValue(v.group1), CleanValue(v.group2)))
      && (MobileRuleFires(m) ==>
            var w, k := m.mobile.value, |rows| - 2;
            && rows[k].category == MobileCategory && rows[k].metric == CountMetric
            && rows[k + 1].category == "" && rows[k + 1].metric == ValueMetric
            && rows[k].growth == rows[k + 1].growth == Growth(CleanValue(w.group5))
            && rows[k].year2022 == Millions(CleanValue(w.group2))
            && rows[k].year2023 == Millions(CleanValue(w.group1))
            && rows[k + 1].year2022 == MadBillions(CleanValue(w.group4))
            && rows[k + 1].year2023 == MadBillions(CleanValue(w.group3)))
  {
    var pos := if PosRuleFires(m) then PosRows(m.posCount.value, m.posValue.value) else [];
    var mob := if MobileRuleFires(m) then MobileRows(m.mobile.value) else [];
    var rows := pos + mob;
    assert ParsedRows(m) == rows;
    if PosRuleFires(m) {
      assert rows[0] == pos[0] && rows[1] == pos[1];
    }
    if MobileRuleFires(m) {
      var k := |rows| - 2;
      assert rows[k] == mob[0] && rows[k + 1] == mob[1];
    }
  }

  /** Every number a cell holds is a token `float()` accepts. */
  predicate CellConverts(c: Cell)
  {
    match c
    case Text(_) => true
    case Millions(a) => IsDecimal(a)
    case MadBillions(a) => IsDecimal(a)
    case Growth(p) => IsDecimal(p)
    case GrowthBetween(cur, prior) => IsDecimal(cur) && IsDecimal(prior) && !IsZeroDecimal(prior)
  }

  predicate RowConverts(r: MetricRow)
  {
    CellConverts(r.year2022) && CellConverts(r.year2023) && CellConverts(r.growth)
  }

  /**
   * Every number in a parsed row is a normalised token that `float()` accepts,
   * and every computed growth divides by a non-zero value.
   */
  lemma {:induction false} ParsedRowsConvert(m: Matches)
    ensures forall r :: r in ParsedRows(m) ==> RowConverts(r)
  {
    var pos := if PosRuleFires(m) then PosRows(m.posCount.value, m.posValue.value) else [];
    var mob := if MobileRuleFires(m) then MobileRows(m.mobile.value) else [];
    assert ParsedRows(m) == pos + mob;
    if PosRuleFires(m) {
      PosRowsConvert(m.posCount.value, m.posValue.value);
    }
    if MobileRuleFires(m) {
      MobileRowsConvert(m.mobile.value);
    }
  }

  lemma {:induction false} PosRowsConvert(c: PosCountMatch, v: PosValueMatch)
    requires PosComputable(c, v)
    ensures forall r :: r in PosRows(c, v) ==> RowConverts(r)
  {
    var rows := PosRows(c, v);
    assert RowConverts(rows[0]);
    assert RowConverts(rows[1]);
  }

  lemma {:induction false} MobileRowsConvert(w: MobileMatch)
    requires MobileComputable(w)
    ensures forall r :: r in MobileRows(w) ==> RowConverts(r)
  {
    var rows := MobileRows(w);
    assert RowConverts(rows[0]);
    assert RowConverts(rows[1]);
  }

  /** The outcome of the parser as written, which does not catch the errors `float()` and `/` raise. */
  datatype ParseOutcome = Parsed(rows: seq<MetricRow>) | Raised

  /**
   * The parser as written: a rule whose patterns match always builds its rows,
   * so an unconvertible token (ValueError) or a zero 2022 POS value
   * (ZeroDivisionError) raises out of the whole acquisition.
   */
  function ParseAsWritten(m: Matches): ParseOutcome
  {
    var posMatched := m.posCount.Some? && m.posValue.Some?;
    if posMatched && !PosComputable(m.posCount.value, m.posValue.value) then Raised
    else if m.mobile.Some? && !MobileComputable(m.mobile.value) then Raised
    else Parsed((if posMatched then PosRows(m.posCount.value, m.posValue.value) else [])
                + (if m.mobile.Some? then MobileRows(m.mobile.value) else []))
  }

  /** When the parser as written does not raise, it yields exactly the rows of the corrected parser. */
  lemma AsWrittenAgreesWhenNoError(m: Matches)
    ensures ParseAsWritten(m).Parsed? ==> ParseAsWritten(m).rows == ParsedRows(m)
    ensures ParseAsWritten(m).Raised? <==>
      (m.posCount.Some? && m.posValue.Some? && !PosComputable(m.posCount.value, m.posValue.value))
      || (m.mobile.Some? && !MobileComputable(m.mobile.value))
  {
  }

  /**
   * A report stating a 2022 POS value of 0 makes the parser as written divide
   * by zero, while the corrected parser drops the POS rule and keeps the rest.
   */
  lemma {:induction false} ZeroPriorValueRaises(count: PosCountMatch, value2023: string)
    ensures var m := Matches(Some(count), Some(PosValueMatch(value2023, "0")), None);
      ParseAsWritten(m) == Raised && ParsedRows(m) == []
  {
    assert CleanValue("0") == "0";
    assert IsDigit("0"[0]);
    assert IsZeroDecimal("0");
  }

  /** A lone comma captured by `[\d,]+` becomes ".", which `float()` rejects. */
  lemma {:induction false} LoneCommaRaises(w: MobileMatch)
    requires w.group1 == ","
    ensures ParseAsWritten(Matches(None, None, Some(w))) == Raised
    ensures ParsedRows(Matches(None, None, Some(w))) == []
  {
    assert CleanValue(",") == ".";
    assert !IsDigit("."[0]);
  }
}
