/** The era table: the ordered, read-only list of Japanese eras that the
    converter scans, and the properties of its ordering and coverage. */
module EraData {

  /** An optional value; an era whose end year is `None` is still ongoing. */
  datatype Option<T> = None | Some(value: T)

  /** One era: its display name, its first Gregorian year, its last Gregorian
      year (inclusive) or `None` when it is open-ended, and a description. */
  datatype Era = Era(name: string, startYear: int, endYear: Option<int>, description: string)

  /** The table in the order the converter scans it. */
  const EraTable: seq<Era> := [
    Era("昭和", 1926, Some(1989), "昭和天皇の時代"),
    Era("平成", 1989, Some(2019), "平成天皇の時代"),
    Era("令和", 2019, None, "現在の年号")
  ]

  /** Whether `year` lies in the era's inclusive interval (an open era has no upper bound). */
  predicate Covers(era: Era, year: int) {
    year >= era.startYear && (era.endYear.None? || year <= era.endYear.value)
  }

  /** Start years strictly increase along the table. */
  predicate StartsAscending(t: seq<Era>) {
    forall i, j :: 0 <= i < j < |t| ==> t[i].startYear < t[j].startYear
  }

  /** Only the last era is open-ended. */
  predicate OnlyLastOpen(t: seq<Era>) {
    |t| > 0 && t[|t| - 1].endYear.None? &&
    forall i :: 0 <= i < |t| - 1 ==> t[i].endYear.Some?
  }

  /** Every closed era ends no earlier than it starts. */
  predicate ClosedNonEmpty(t: seq<Era>) {
    forall i :: 0 <= i < |t| && t[i].endYear.Some? ==> t[i].startYear <= t[i].endYear.value
  }

  /** Each closed era ends in the year the next era starts, so neighbours share one year. */
  predicate ContiguousSharingBoundary(t: seq<Era>) {
    forall i :: 0 <= i < |t| - 1 && t[i].endYear.Some? ==> t[i].endYear.value == t[i + 1].startYear
  }

  /** The shape every extension of the table is meant to keep. */
  predicate WellFormed(t: seq<Era>) {
    OnlyLastOpen(t) && ClosedNonEmpty(t) && ContiguousSharingBoundary(t) && StartsAscending(t)
  }

  /** The table holds exactly 昭和, 平成 and 令和, in that order, with these bounds,
      and it has the well-formed shape. */
  lemma EraTableShape()
    ensures |EraTable| == 3
    ensures EraTable[0].name == "昭和" && EraTable[1].name == "平成" && EraTable[2].name == "令和"
    ensures EraTable[0].startYear == 1926 && EraTable[1].startYear == 1989 && EraTable[2].startYear == 2019
    ensures EraTable[0].endYear == Some(1989) && EraTable[1].endYear == Some(2019)
    ensures WellFormed(EraTable)
  {
  }

  /** A well-formed table leaves no gap: every year from the first start year on
      lies in some era. */
  lemma {:induction false} CoverageWithoutGap(t: seq<Era>, year: int)
    requires WellFormed(t)
    requires year >= t[0].startYear
    ensures exists i :: 0 <= i < |t| && Covers(t[i], year)
  {
    if Covers(t[0], year) {
    } else {
      // t[0] is closed (otherwise it would cover the year), and the year lies past its end,
      // which is where t[1] starts.
      assert |t| > 1;
      assert year >= t[1].startYear;
      WellFormedSuffix(t);
      CoverageWithoutGap(t[1..], year);
      var i :| 0 <= i < |t| - 1 && Covers(t[1..][i], year);
      assert Covers(t[i + 1], year);
    }
  }

  /** Dropping the first era of a well-formed table of two or more eras leaves a well-formed table. */
  lemma WellFormedSuffix(t: seq<Era>)
    requires WellFormed(t) && |t| > 1
    ensures WellFormed(t[1..])
  {
  }

  /** With the actual table, every year from 1926 on belongs to some era. */
  lemma EraTableCoversFrom1926(year: int)
    requires year >= 1926
    ensures exists i :: 0 <= i < |EraTable| && Covers(EraTable[i], year)
  {
    EraTableShape();
    CoverageWithoutGap(EraTable, year);
  }
}
