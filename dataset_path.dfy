/** The year selector and the dataset path derived from the selected year. */
module DatasetPath {
  import opened JsText

  const Prefix := "/data/DropRate"
  const Suffix := ".json"

  /** The slider's inclusive range and the component's initial state. */
  const MinYear := 2015
  const MaxYear := 2022
  const InitialYear := 2022
  const InitialPath := "/data/DropRate21_22.json"

  /** JavaScript's `%` on integers: the remainder truncates toward zero, so it
      takes the sign of the dividend (Dafny's `%` is Euclidean). */
  function JsRem100(a: int): (r: int)
    ensures a >= 0 ==> 0 <= r < 100
    ensures a < 0 ==> -100 < r <= 0
    ensures (a - r) % 100 == 0
  {
    if a >= 0 then a % 100 else -((-a) % 100)
  }

  /** Dataset file for a year: the two-digit years of the academic year
      that ends in `year`, e.g. 2022 gives "/data/DropRate21_22.json". */
  function PathFor(year: int): string
  {
    Prefix + (IntToString(JsRem100(year) - 1) + After(JsRem100(year)))
  }

  /** The part of the path after the first two-digit year. */
  function After(yy: int): string
  {
    "_" + IntToString(yy) + Suffix
  }

  /** A string with no '_' followed by a '_' is a unique prefix. */
  lemma SplitAtUnderscore(s1: string, x1: string, s2: string, x2: string)
    requires forall k :: 0 <= k < |s1| ==> s1[k] != '_'
    requires forall k :: 0 <= k < |s2| ==> s2[k] != '_'
    requires |x1| > 0 && x1[0] == '_' && |x2| > 0 && x2[0] == '_'
    requires s1 + x1 == s2 + x2
    ensures s1 == s2
  {
    assert s1 == (s1 + x1)[..|s1|];
    assert s2 == (s2 + x2)[..|s2|];
  }

  /** Two years name the same dataset exactly when their last two digits
      (as JavaScript computes them) agree. */
  lemma PathsEqualIff(y1: int, y2: int)
    ensures PathFor(y1) == PathFor(y2) <==> JsRem100(y1) == JsRem100(y2)
  {
    var a1, a2 := JsRem100(y1), JsRem100(y2);
    if PathFor(y1) == PathFor(y2) {
      var s1, s2 := IntToString(a1 - 1), IntToString(a2 - 1);
      var x1, x2 := After(a1), After(a2);
      assert s1 + x1 == PathFor(y1)[|Prefix|..];
      assert s2 + x2 == PathFor(y2)[|Prefix|..];
      SplitAtUnderscore(s1, x1, s2, x2);
      IntToStringInjective(a1 - 1, a2 - 1);
    }
  }

  /** Every move of the slider selects a different dataset. */
  lemma SliderPathsDistinct(y1: int, y2: int)
    requires MinYear <= y1 <= MaxYear && MinYear <= y2 <= MaxYear
    requires y1 != y2
    ensures PathFor(y1) != PathFor(y2)
  {
    assert JsRem100(y1) == y1 - 2000;
    assert JsRem100(y2) == y2 - 2000;
    PathsEqualIff(y1, y2);
  }

  /** The hard-coded initial path is the one derived from the initial year. */
  lemma InitialPathAgrees()
    ensures PathFor(InitialYear) == InitialPath
  {
  }

  /** The component's `selectedYear` and `filePath` state. */
  class YearControl {
    var selectedYear: int
    var filePath: string

    ghost predicate Valid()
      reads this
    {
      filePath == PathFor(selectedYear)
    }

    constructor ()
      ensures selectedYear == InitialYear && filePath == InitialPath
      ensures Valid()
    {
      selectedYear := InitialYear;
      filePath := InitialPath;
      InitialPathAgrees();
    }

    /** The slider's change handler. */
    method HandleYearChange(year: int)
      modifies this
      ensures selectedYear == year && filePath == PathFor(year)
      ensures Valid()
    {
      selectedYear := year;
      filePath := PathFor(year);
    }
  }
}
