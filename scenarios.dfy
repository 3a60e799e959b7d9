/** Worked cases of the script's behaviour, stated on concrete inputs. */
module Scenarios {
  import opened Outcomes
  import opened Digits
  import opened Dates
  import opened Complaints
  import opened Report
  import opened Pipeline

  /** A concrete YYYY-MM-DD text, given the values of its three fields. */
  lemma IsoValue(s: string, y: string, m: string, d: string, year: int, month: int, day: int)
    requires s == y + "-" + m + "-" + d && |y| == 4 && |m| == 2 && |d| == 2
    requires AllDigits(y) && AllDigits(m) && AllDigits(d)
    requires FromDigits(y) == year && FromDigits(m) == month && FromDigits(d) == day
    ensures ParseDate(s) == if Valid(Date(year, month, day)) then Success(Date(year, month, day)) else Failure(BadDate(s))
  {
    assert s[..4] == y && s[5..7] == m && s[8..] == d;
    ParseIso(s);
  }

  lemma TwoDigitText(s: string, value: int)
    requires |s| == 2 && IsDigit(s[0]) && IsDigit(s[1]) && 10 * DigitValue(s[0]) + DigitValue(s[1]) == value
    ensures AllDigits(s) && FromDigits(s) == value
  {
    TwoDigitValue(s);
  }

  lemma Year2023()
    ensures AllDigits("2023") && FromDigits("2023") == 2023
  {
    FourDigitValue("2023");
  }

  /** A month past December is rejected. */
  lemma MonthThirteenRejected()
    ensures ParseDate("2023-13-01") == Failure(BadDate("2023-13-01"))
  {
    Year2023();
    TwoDigitText("13", 13);
    TwoDigitText("01", 1);
    IsoValue("2023-13-01", "2023", "13", "01", 2023, 13, 1);
  }

  /** A day the month does not have is rejected. */
  lemma FebruaryThirtiethRejected()
    ensures ParseDate("2023-02-30") == Failure(BadDate("2023-02-30"))
  {
    Year2023();
    TwoDigitText("02", 2);
    TwoDigitText("30", 30);
    IsoValue("2023-02-30", "2023", "02", "30", 2023, 2, 30);
  }

  /** 29 February exists only in leap years. */
  lemma LeapDayIn2023Rejected()
    ensures ParseDate("2023-02-29") == Failure(BadDate("2023-02-29"))
  {
    Year2023();
    TwoDigitText("02", 2);
    TwoDigitText("29", 29);
    IsoValue("2023-02-29", "2023", "02", "29", 2023, 2, 29);
  }

  lemma LeapDayIn2024Accepted()
    ensures ParseDate("2024-02-29") == Success(Date(2024, 2, 29))
  {
    FourDigitValue("2024");
    TwoDigitText("02", 2);
    TwoDigitText("29", 29);
    IsoValue("2024-02-29", "2024", "02", "29", 2024, 2, 29);
  }

  lemma Year2023Text()
    ensures ToDigits(2023, 4) == "2023"
  {
    Year2023();
    ToFromDigits("2023");
  }

  lemma OneDigitSpelling()
    ensures Spelling(Date(2023, 1, 5), false, OneDigit) == "2023-1-5"
  {
    Year2023Text();
    assert ToDigits(1, 1) == "1" && ToDigits(5, 1) == "5";
  }

  lemma SpacePaddedSpelling()
    ensures Spelling(Date(2023, 1, 5), true, SpacePadded) == "2023-01- 5"
  {
    Year2023Text();
    assert ToDigits(1, 2) == "01" && ToDigits(5, 1) == "5";
  }

  /** strptime also takes a one-digit month and a one-digit day ... */
  lemma OneDigitFieldsAccepted()
    ensures ParseDate("2023-1-5") == Success(Date(2023, 1, 5))
  {
    OneDigitSpelling();
    ParseSpelling(Date(2023, 1, 5), false, OneDigit);
  }

  /** ... and a day padded with a space. */
  lemma SpacePaddedDayAccepted()
    ensures ParseDate("2023-01- 5") == Success(Date(2023, 1, 5))
  {
    SpacePaddedSpelling();
    ParseSpelling(Date(2023, 1, 5), true, SpacePadded);
  }

  // Three rows, two in January: the February row is not counted.

  const Jan1 := Date(2023, 1, 1)
  const Jan31 := Date(2023, 1, 31)
  const Queens := Key("derelict vehicles", "Queens")
  const Bronx := Key("derelict vehicles", "Bronx")
  const Row0: Row := map[CreationDate := "2023-01-05", Borough := "Queens", ComplaintType := "derelict vehicles"]
  const Row1: Row := map[CreationDate := "2023-01-10", Borough := "Bronx", ComplaintType := "derelict vehicles"]
  const Row2: Row := map[CreationDate := "2023-02-01", Borough := "Queens", ComplaintType := "derelict vehicles"]

  lemma FifthParses()
    ensures ParseDate("2023-01-05") == Success(Date(2023, 1, 5))
  {
    Year2023();
    TwoDigitText("01", 1);
    TwoDigitText("05", 5);
    IsoValue("2023-01-05", "2023", "01", "05", 2023, 1, 5);
  }

  lemma TenthParses()
    ensures ParseDate("2023-01-10") == Success(Date(2023, 1, 10))
  {
    Year2023();
    TwoDigitText("01", 1);
    TwoDigitText("10", 10);
    IsoValue("2023-01-10", "2023", "01", "10", 2023, 1, 10);
  }

  lemma FebruaryFirstParses()
    ensures ParseDate("2023-02-01") == Success(Date(2023, 2, 1))
  {
    Year2023();
    TwoDigitText("02", 2);
    TwoDigitText("01", 1);
    IsoValue("2023-02-01", "2023", "02", "01", 2023, 2, 1);
  }

  /** A row with all three fields and a date that parses. */
  lemma ClassifyDated(row: Row, d: Date, start: Date, end: Date)
    requires HasFields(row) && ParseDate(row[CreationDate]) == Success(d)
    ensures Classify(row, start, end) ==
      if InRange(d, start, end) then Success(Some(Key(row[ComplaintType], row[Borough]))) else Success(None)
  {
  }

  lemma RowFields(row: Row, date: string, borough: string)
    requires row == map[CreationDate := date, Borough := borough, ComplaintType := "derelict vehicles"]
    ensures HasFields(row) && row[CreationDate] == date && row[Borough] == borough && row[ComplaintType] == "derelict vehicles"
  {
    assert |CreationDate| != |Borough| && |CreationDate| != |ComplaintType| && |Borough| != |ComplaintType|;
  }

  lemma ClassifyRow0()
    ensures Classify(Row0, Jan1, Jan31) == Success(Some(Queens))
  {
    RowFields(Row0, "2023-01-05", "Queens");
    FifthParses();
    ClassifyDated(Row0, Date(2023, 1, 5), Jan1, Jan31);
  }

  lemma ClassifyRow1()
    ensures Classify(Row1, Jan1, Jan31) == Success(Some(Bronx))
  {
    RowFields(Row1, "2023-01-10", "Bronx");
    TenthParses();
    ClassifyDated(Row1, Date(2023, 1, 10), Jan1, Jan31);
  }

  lemma ClassifyRow2()
    ensures Classify(Row2, Jan1, Jan31) == Success(None)
  {
    RowFields(Row2, "2023-02-01", "Queens");
    FebruaryFirstParses();
    ClassifyDated(Row2, Date(2023, 2, 1), Jan1, Jan31);
  }

  lemma QueensIsNotBronx()
    ensures Queens != Bronx
  {
    assert Queens.borough[0] != Bronx.borough[0];
  }

  /** What the loop body decides for each of the three rows. */
  lemma JanuaryVerdicts()
    ensures Verdicts([Row0, Row1, Row2], Jan1, Jan31) == [Success(Some(Queens)), Success(Some(Bronx)), Success(None)]
  {
    var rows := [Row0, Row1, Row2];
    ClassifyRow0();
    ClassifyRow1();
    ClassifyRow2();
    VerdictAt(rows, Jan1, Jan31, 0);
    VerdictAt(rows, Jan1, Jan31, 1);
    VerdictAt(rows, Jan1, Jan31, 2);
  }

  const AfterQueens := Counter(map[Queens := 1], [Queens])
  const AfterBronx := Counter(map[Queens := 1, Bronx := 1], [Queens, Bronx])

  lemma FirstIncrement()
    ensures Record(Empty, Queens) == AfterQueens
  {
    RecordFields(Empty, Queens);
  }

  lemma SecondIncrement()
    ensures Record(AfterQueens, Bronx) == AfterBronx
  {
    QueensIsNotBronx();
    RecordFields(AfterQueens, Bronx);
  }

  lemma FoldLast()
    ensures Fold(AfterBronx, [Success(None)]) == Success(AfterBronx)
  {
    var vs: seq<Verdict> := [Success(None)];
    assert vs[1..] == [];
  }

  lemma FoldSecond()
    ensures Fold(AfterQueens, [Success(Some(Bronx)), Success(None)]) == Success(AfterBronx)
  {
    var vs: seq<Verdict> := [Success(Some(Bronx)), Success(None)];
    SecondIncrement();
    FoldLast();
    assert vs[1..] == [Success(None)];
  }

  /** The counter after the three rows: one Queens and one Bronx complaint. */
  lemma JanuaryCounter()
    ensures Tallied([Row0, Row1, Row2], Jan1, Jan31) == Success(AfterBronx)
  {
    var vs: seq<Verdict> := [Success(Some(Queens)), Success(Some(Bronx)), Success(None)];
    JanuaryVerdicts();
    FirstIncrement();
    FoldSecond();
    assert vs[1..] == [Success(Some(Bronx)), Success(None)];
  }

  lemma CountedLast()
    ensures Counted([Success(None)]) == []
  {
    var vs: seq<Verdict> := [Success(None)];
    assert vs[1..] == [];
  }

  lemma CountedTail()
    ensures Counted([Success(Some(Bronx)), Success(None)]) == [Bronx]
  {
    var vs: seq<Verdict> := [Success(Some(Bronx)), Success(None)];
    CountedLast();
    assert vs[1..] == [Success(None)];
  }

  lemma JanuaryAdmitted()
    ensures AdmittedKeys([Row0, Row1, Row2], Jan1, Jan31) == [Queens, Bronx]
  {
    var vs: seq<Verdict> := [Success(Some(Queens)), Success(Some(Bronx)), Success(None)];
    JanuaryVerdicts();
    CountedTail();
    assert vs[1..] == [Success(Some(Bronx)), Success(None)];
    assert Counted(vs) == [Queens] + [Bronx];
  }

  lemma JanuaryKeys()
    ensures FirstOccurrences([Queens, Bronx]) == [Queens, Bronx]
    ensures multiset([Queens, Bronx])[Queens] == 1 && multiset([Queens, Bronx])[Bronx] == 1
  {
    QueensIsNotBronx();
    assert [Queens, Bronx][..1] == [Queens] && [Queens][..0] == [];
    assert FirstOccurrences([Queens]) == [Queens];
  }

  lemma JanuaryLines()
    ensures Line(Queens, 1) == "derelict vehicles, Queens, 1"
    ensures Line(Bronx, 1) == "derelict vehicles, Bronx, 1"
  {
    assert Decimal(1) == "1";
  }

  /** What the script prints for the three rows and January 2023. */
  lemma JanuaryReport()
    ensures Summarises(
      ["complaint type, borough, count", "derelict vehicles, Queens, 1", "derelict vehicles, Bronx, 1"],
      [Row0, Row1, Row2], Jan1, Jan31)
  {
    JanuaryAdmitted();
    JanuaryKeys();
    JanuaryLines();
  }
}
