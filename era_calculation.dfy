/** The conversion engine: validation of a Gregorian year and its conversion
    to a Japanese era name and era year by a first-match scan of the era table. */
module EraCalculation {
  import opened EraData
  import opened Decimal

  /** The supported horizon, inclusive on both ends. */
  const MinYear: int := 1950
  const MaxYear: int := 2025

  const NotIntegerMessage: string := "整数を入力してください"
  const TooEarlyMessage: string := "年は1950年以降を入力してください"
  const TooLateMessage: string := "年は2025年以前を入力してください"
  const NoEraMessage: string := "該当する年号が見つかりません"

  /** The suffix every rendered era year ends with. */
  const YearSuffix: string := "年"

  /** The validator's verdict: valid, or invalid with a message for the user. */
  datatype ValidationResult = Valid | Invalid(error: string)

  /** The converter's answer. A failure carries only its message. */
  datatype ConversionResult =
    | Success(eraName: string, eraYear: int, fullText: string)
    | Failure(error: string)

  /** Whether a number is a whole number. */
  predicate IsInteger(year: real) {
    year == year.Floor as real
  }

  /** Integrality first, then the lower bound, then the upper bound. */
  function ValidateYear(year: real): (r: ValidationResult)
    ensures r.Valid? <==> IsInteger(year) && MinYear as real <= year <= MaxYear as real
    ensures r.Invalid? ==> r.error in {NotIntegerMessage, TooEarlyMessage, TooLateMessage}
  {
    if !IsInteger(year) then Invalid(NotIntegerMessage)
    else if year < MinYear as real then Invalid(TooEarlyMessage)
    else if year > MaxYear as real then Invalid(TooLateMessage)
    else Valid
  }

  /** Entry `i` is the first entry of `t` whose interval holds `year`. */
  predicate FirstCovering(t: seq<Era>, year: int, i: int) {
    0 <= i < |t| && Covers(t[i], year) && forall j :: 0 <= j < i ==> !Covers(t[j], year)
  }

  /** The position of the first era that holds `year`, scanning in table order. */
  function FindEra(t: seq<Era>, year: int): (r: Option<nat>)
    ensures r.Some? ==> FirstCovering(t, year, r.value)
    ensures r.None? ==> forall j :: 0 <= j < |t| ==> !Covers(t[j], year)
    decreases |t|
  {
    if t == [] then None
    else if Covers(t[0], year) then Some(0)
    else match FindEra(t[1..], year)
      case None => None
      case Some(i) => Some(i + 1)
  }

  /** Validates, then converts by the first era that holds the year. */
  function ConvertWesternToEra(year: real): (r: ConversionResult)
    ensures ValidateYear(year).Invalid? ==> r == Failure(ValidateYear(year).error)
    ensures ValidateYear(year).Valid? && (forall j :: 0 <= j < |EraTable| ==> !Covers(EraTable[j], year.Floor)) ==>
      r == Failure(NoEraMessage)
    ensures r.Success? ==>
      && ValidateYear(year).Valid?
      && r.eraYear >= 1
      && r.fullText == r.eraName + NatToDecimal(r.eraYear as nat) + YearSuffix
    ensures r.Success? ==>
      exists i :: FirstCovering(EraTable, year.Floor, i)
        && r.eraName == EraTable[i].name
        && year.Floor == EraTable[i].startYear + r.eraYear - 1
  {
    match ValidateYear(year)
    case Invalid(message) => Failure(message)
    case Valid =>
      var y := year.Floor;
      match FindEra(EraTable, y)
      case None => Failure(NoEraMessage)
      case Some(i) =>
        var era := EraTable[i];
        var eraYear := y - era.startYear + 1;
        Success(era.name, eraYear, era.name + NatToDecimal(eraYear) + YearSuffix)
  }

  /** Which message each invalid input gets: integrality is checked before the
      range, so a fraction below the horizon is reported as not an integer. */
  lemma ValidationMessages(year: real)
    ensures !IsInteger(year) ==> ValidateYear(year) == Invalid(NotIntegerMessage)
    ensures IsInteger(year) && year < MinYear as real ==> ValidateYear(year) == Invalid(TooEarlyMessage)
    ensures IsInteger(year) && year > MaxYear as real ==> ValidateYear(year) == Invalid(TooLateMessage)
    ensures NotIntegerMessage != TooEarlyMessage && TooEarlyMessage != TooLateMessage
      && NotIntegerMessage != TooLateMessage
  {
  }

  /** Conversion succeeds exactly on the years the validator accepts: with this
      table the "no matching era" failure cannot happen. */
  lemma ConvertSucceedsExactlyOnValidYears(year: real)
    ensures ConvertWesternToEra(year).Success? <==> ValidateYear(year).Valid?
  {
    if ValidateYear(year).Valid? {
      EraTableCoversFrom1926(year.Floor);
    }
  }

  /** In a well-formed table the first era holding a year is never a later era at
      its own start year: that year was already claimed by the era before it. */
  lemma FirstMatchSkipsSharedStartYear(t: seq<Era>, year: int, i: int)
    requires WellFormed(t)
    requires FirstCovering(t, year, i) && i > 0
    ensures year > t[i].startYear
  {
    assert t[i - 1].endYear.Some?;
    if year == t[i].startYear {
      assert Covers(t[i - 1], year);
      assert false;
    }
  }

  /** 平成1年 and 令和1年 are never produced: only the first era can yield era year 1. */
  lemma LaterErasNeverYearOne(year: real)
    ensures var r := ConvertWesternToEra(year);
      r.Success? && r.eraName != EraTable[0].name ==> r.eraYear >= 2
  {
    var r := ConvertWesternToEra(year);
    if r.Success? && r.eraName != EraTable[0].name {
      var i :| FirstCovering(EraTable, year.Floor, i)
        && r.eraName == EraTable[i].name
        && year.Floor == EraTable[i].startYear + r.eraYear - 1;
      EraTableShape();
      FirstMatchSkipsSharedStartYear(EraTable, year.Floor, i);
    }
  }

  /** The full text reads back into its parts: the era name, the era year's digits, and the suffix. */
  lemma FullTextReadsBack(year: real)
    ensures var r := ConvertWesternToEra(year);
      r.Success? ==>
        && |r.fullText| > |r.eraName|
        && r.fullText[..|r.eraName|] == r.eraName
        && r.fullText[|r.fullText| - 1] == '年'
        && AllDigits(r.fullText[|r.eraName|..|r.fullText| - 1])
        && DecimalValue(r.fullText[|r.eraName|..|r.fullText| - 1]) == r.eraYear
  {
    var r := ConvertWesternToEra(year);
    if r.Success? {
      var digits := NatToDecimal(r.eraYear as nat);
      assert r.fullText == r.eraName + digits + YearSuffix;
      assert r.fullText[|r.eraName|..|r.fullText| - 1] == digits;
      DecimalRoundTrip(r.eraYear as nat);
    }
  }

  /** Years of 昭和 inside the horizon, including 1989, which 昭和 shares with 平成. */
  lemma ShowaExamples()
    ensures ConvertWesternToEra(1950.0) == Success("昭和", 25, "昭和25年")
    ensures ConvertWesternToEra(1989.0) == Success("昭和", 64, "昭和64年")
  {
  }

  /** Years of 平成, including 2019, which 平成 shares with 令和. */
  lemma HeiseiExamples()
    ensures ConvertWesternToEra(1990.0) == Success("平成", 2, "平成2年")
    ensures ConvertWesternToEra(2019.0) == Success("平成", 31, "平成31年")
  {
  }

  /** Years of 令和 up to the end of the horizon. */
  lemma ReiwaExamples()
    ensures ConvertWesternToEra(2020.0) == Success("令和", 2, "令和2年")
    ensures ConvertWesternToEra(2025.0) == Success("令和", 7, "令和7年")
  {
  }

  /** The three kinds of invalid input, including a year the table covers but the horizon excludes. */
  lemma RejectionExamples()
    ensures ConvertWesternToEra(1926.0) == Failure(TooEarlyMessage)
    ensures ConvertWesternToEra(1949.5) == Failure(NotIntegerMessage)
    ensures ConvertWesternToEra(2026.0) == Failure(TooLateMessage)
  {
    assert (1926.0).Floor == 1926;
    assert (2026.0).Floor == 2026;
    assert (1949.5).Floor == 1949;
  }
}
