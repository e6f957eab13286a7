/** `src/pages/WaterQuality.tsx`: the report cards of the water-quality page.
    `yearOf` stands for `new Date(date).getFullYear()`, which depends on the
    host's time zone; `None` is the NaN it gives for a date it cannot parse. */
module WaterQuality {
  import opened Wrappers
  import opened Seqs
  import opened Strings
  import opened Configs
  import StableSort

  function IsReport(): DocumentItem -> bool {
    (d: DocumentItem) => d.category == Reports
  }

  /** The `reports` memo: the documents of category "Reports". */
  function ReportsOf(documents: Option<seq<DocumentItem>>): (r: seq<DocumentItem>)
    ensures documents.None? ==> r == []
    ensures forall i :: 0 <= i < |r| ==> r[i].category == Reports
  {
    if documents.Some? then Filter(documents.value, IsReport()) else []
  }

  /** Exactly the reports, in their order. */
  lemma ReportsAreTheReports(documents: seq<DocumentItem>)
    ensures forall d :: d in ReportsOf(Some(documents)) <==> d in documents && d.category == Reports
    ensures IsSubsequence(ReportsOf(Some(documents)), documents)
  {
    FilterContents(documents, IsReport());
    FilterIsSubsequence(documents, IsReport());
  }

  /** Every report's date gives a year. */
  predicate AllDated(reports: seq<DocumentItem>, yearOf: string -> Option<int>) {
    forall i :: 0 <= i < |reports| ==> yearOf(reports[i].date).Some?
  }

  /** `Math.max(...years)` for a non-empty list: NaN (`None`) as soon as one
      year is NaN, else the largest. */
  function MathMax(years: seq<Option<int>>): (m: Option<int>)
    requires |years| > 0
    ensures m.None? <==> exists i :: 0 <= i < |years| && years[i].None?
    ensures m.Some? ==> (forall i :: 0 <= i < |years| ==> years[i].Some? && years[i].value <= m.value) &&
                        (exists i :: 0 <= i < |years| && years[i] == m)
  {
    if |years| == 1 then years[0]
    else
      var rest := MathMax(years[1..]);
      assert forall i :: 1 <= i < |years| ==> years[i] == years[1..][i - 1];
      if years[0].None? || rest.None? then None
      else if years[0].value >= rest.value then years[0]
      else rest
  }

  /** `reports.map(r => new Date(r.date).getFullYear())`. */
  function Years(reports: seq<DocumentItem>, yearOf: string -> Option<int>): (ys: seq<Option<int>>)
    ensures |ys| == |reports|
    ensures forall i :: 0 <= i < |reports| ==> ys[i] == yearOf(reports[i].date)
  {
    seq(|reports|, i requires 0 <= i < |reports| => yearOf(reports[i].date))
  }

  /** The values `latestYear` can take: `undefined`, NaN, or a year. */
  datatype Latest = NoReports | NaNYear | LatestIs(year: int)

  /** The `latestYear` memo: `undefined` without reports, NaN when some date
      gives no year, else the largest year. */
  function LatestYear(reports: seq<DocumentItem>, yearOf: string -> Option<int>): (y: Latest)
    ensures y.NoReports? <==> |reports| == 0
    ensures y.NaNYear? <==> |reports| > 0 && !AllDated(reports, yearOf)
    ensures y.LatestIs? ==> (forall r :: r in reports ==> yearOf(r.date).Some? && yearOf(r.date).value <= y.year) &&
                            (exists r :: r in reports && yearOf(r.date) == Some(y.year))
  {
    if |reports| == 0 then NoReports
    else
      var ys := Years(reports, yearOf);
      var m := MathMax(ys);
      if m.None? then NaNYear
      else
        assert forall r :: r in reports ==> yearOf(r.date).Some? && yearOf(r.date).value <= m.value by {
          forall r | r in reports ensures yearOf(r.date).Some? && yearOf(r.date).value <= m.value {
            var i :| 0 <= i < |reports| && reports[i] == r;
            assert ys[i] == yearOf(r.date);
          }
        }
        var i :| 0 <= i < |ys| && ys[i] == m;
        assert reports[i] in reports;
        LatestIs(m.value)
  }

  /** What `{latestYear && <p>…</p>}` renders: nothing for `undefined`, the
      falsy number itself as text for NaN and 0, else the "Latest CCR" line. */
  datatype HeaderView = NoHeader | StrayText(text: string) | LatestLine(year: int)

  function Header(latest: Latest): (h: HeaderView)
    ensures h.LatestLine? <==> latest.LatestIs? && latest.year != 0
    ensures h.LatestLine? ==> h.year == latest.year
    ensures h == NoHeader <==> latest.NoReports?
    ensures latest.NaNYear? ==> h == StrayText("NaN")
  {
    match latest
    case NoReports => NoHeader
    case NaNYear => StrayText("NaN")
    case LatestIs(y) => if y == 0 then StrayText("0") else LatestLine(y)
  }

  /** `(a, b) => yearB - yearA`: latest year first. A NaN difference is
      taken by `sort` as a tie. */
  function ByYearDesc(yearOf: string -> Option<int>): (DocumentItem, DocumentItem) -> int {
    (a: DocumentItem, b: DocumentItem) =>
      var ya, yb := yearOf(a.date), yearOf(b.date);
      if ya.None? || yb.None? then 0 else yb.value - ya.value
  }

  /** The same comparator for years that are all known. */
  function ByKnownYearDesc(year: string -> int): (DocumentItem, DocumentItem) -> int {
    (a: DocumentItem, b: DocumentItem) => year(b.date) - year(a.date)
  }

  /** With known years the comparator is a valid sort order. */
  lemma ByKnownYearDescConsistent(year: string -> int)
    ensures StableSort.Consistent(ByKnownYearDesc(year))
  {
  }

  /** A NaN year ties with every report, so with one undated and two dated
      reports of different years the comparator is not consistent, and the
      order `sort` produces is left to the implementation. */
  lemma NaNYearBreaksConsistency(yearOf: string -> Option<int>, a: DocumentItem, b: DocumentItem, n: DocumentItem)
    requires yearOf(a.date) == Some(2020) && yearOf(b.date) == Some(2024) && yearOf(n.date).None?
    ensures !StableSort.Consistent(ByYearDesc(yearOf))
  {
    var cmp := ByYearDesc(yearOf);
    assert cmp(a, n) <= 0 && cmp(n, b) <= 0 && cmp(a, b) > 0;
  }

  function KnownYear(yearOf: string -> Option<int>): string -> int {
    (d: string) => yearOf(d).GetOr(0)
  }

  /** When every report is dated, sorting by the page's comparator is sorting
      by the known years. */
  lemma DatedSortIsKnownSort(reports: seq<DocumentItem>, yearOf: string -> Option<int>)
    requires AllDated(reports, yearOf)
    ensures StableSort.SortSpec(reports, ByYearDesc(yearOf)) ==
            StableSort.SortSpec(reports, ByKnownYearDesc(KnownYear(yearOf)))
  {
    forall x, y | x in reports && y in reports
      ensures ByYearDesc(yearOf)(x, y) == ByKnownYearDesc(KnownYear(yearOf))(x, y)
    {
      var i :| 0 <= i < |reports| && reports[i] == x;
      var j :| 0 <= j < |reports| && reports[j] == y;
    }
    StableSort.SortSpecAgrees(reports, ByYearDesc(yearOf), ByKnownYearDesc(KnownYear(yearOf)));
  }

  function Min(a: int, b: int): int {
    if a < b then a else b
  }

  /** The cards shown: the sorted reports, at most three. */
  function TopCards(reports: seq<DocumentItem>, yearOf: string -> Option<int>): (c: seq<DocumentItem>)
    ensures |c| == Min(3, |reports|)
  {
    StableSort.SortSpec(reports, ByYearDesc(yearOf))[..Min(3, |reports|)]
  }

  /** A permutation has the same members. */
  lemma PermutedMembers(s: seq<DocumentItem>, t: seq<DocumentItem>)
    requires multiset(s) == multiset(t)
    ensures forall x :: x in s <==> x in t
  {
    forall x ensures x in s <==> x in t {
      assert x in s <==> x in multiset(s);
      assert x in t <==> x in multiset(t);
    }
  }

  /** Sorted by known years and a permutation of the reports. */
  lemma KnownSortShape(reports: seq<DocumentItem>, yearOf: string -> Option<int>)
    requires AllDated(reports, yearOf)
    ensures var sorted := StableSort.SortSpec(reports, ByYearDesc(yearOf));
      (forall x :: x in sorted <==> x in reports) &&
      StableSort.SortedBy(sorted, ByKnownYearDesc(KnownYear(yearOf)))
  {
    var known := ByKnownYearDesc(KnownYear(yearOf));
    DatedSortIsKnownSort(reports, yearOf);
    ByKnownYearDescConsistent(KnownYear(yearOf));
    StableSort.SortSpecSorted(reports, known);
    StableSort.SortSpecPermutes(reports, known);
    PermutedMembers(StableSort.SortSpec(reports, known), reports);
  }

  /** At most three cards, each one of the reports; when every report is
      dated, latest year first. */
  lemma TopCardsShape(reports: seq<DocumentItem>, yearOf: string -> Option<int>)
    ensures var c := TopCards(reports, yearOf);
      |c| <= 3 &&
      (forall i :: 0 <= i < |c| ==> c[i] in reports) &&
      (AllDated(reports, yearOf) ==>
        forall i, j :: 0 <= i < j < |c| ==> yearOf(c[i].date).value >= yearOf(c[j].date).value)
  {
    var sorted := StableSort.SortSpec(reports, ByYearDesc(yearOf));
    StableSort.SortSpecPermutes(reports, ByYearDesc(yearOf));
    PermutedMembers(sorted, reports);
    var c := TopCards(reports, yearOf);
    forall i | 0 <= i < |c| ensures c[i] in reports {
      assert c[i] == sorted[i];
    }
    if AllDated(reports, yearOf) {
      KnownSortShape(reports, yearOf);
      forall i, j | 0 <= i < j < |c| ensures yearOf(c[i].date).value >= yearOf(c[j].date).value {
        assert c[i] == sorted[i] && c[j] == sorted[j];
        assert ByKnownYearDesc(KnownYear(yearOf))(sorted[i], sorted[j]) <= 0;
        var a :| 0 <= a < |reports| && reports[a] == sorted[i];
        var b :| 0 <= b < |reports| && reports[b] == sorted[j];
      }
    }
  }

  /** In a sequence sorted latest year first, nothing has a later year than the head. */
  lemma SortedHeadIsLatest(s: seq<DocumentItem>, year: string -> int)
    requires |s| > 0 && StableSort.SortedBy(s, ByKnownYearDesc(year))
    ensures forall k :: 0 <= k < |s| ==> year(s[k].date) <= year(s[0].date)
  {
    forall k | 0 < k < |s| ensures year(s[k].date) <= year(s[0].date) {
      assert ByKnownYearDesc(year)(s[0], s[k]) <= 0;
    }
  }

  /** A year every report is at most, reached by one of them, is the latest year. */
  lemma LatestYearIsTheMaximum(reports: seq<DocumentItem>, yearOf: string -> Option<int>, d: DocumentItem)
    requires d in reports && AllDated(reports, yearOf)
    requires forall r :: r in reports ==> yearOf(r.date).value <= yearOf(d.date).value
    ensures LatestYear(reports, yearOf) == LatestIs(yearOf(d.date).value)
  {
    var latest := LatestYear(reports, yearOf);
    var r :| r in reports && yearOf(r.date) == Some(latest.year);
    var i :| 0 <= i < |reports| && reports[i] == d;
    assert yearOf(r.date).value <= yearOf(d.date).value;
  }

  /** With reports all dated, the first card carries the latest year and the
      header shows it (unless it is year 0); with an undated report the
      header prints "NaN" instead. */
  lemma FirstCardIsLatest(reports: seq<DocumentItem>, yearOf: string -> Option<int>)
    requires |reports| > 0
    ensures AllDated(reports, yearOf) ==>
      yearOf(TopCards(reports, yearOf)[0].date).Some? &&
      LatestYear(reports, yearOf) == LatestIs(yearOf(TopCards(reports, yearOf)[0].date).value)
    ensures !AllDated(reports, yearOf) ==>
      LatestYear(reports, yearOf) == NaNYear && Header(LatestYear(reports, yearOf)) == StrayText("NaN")
  {
    if AllDated(reports, yearOf) {
      var sorted := StableSort.SortSpec(reports, ByYearDesc(yearOf));
      var year := KnownYear(yearOf);
      KnownSortShape(reports, yearOf);
      SortedHeadIsLatest(sorted, year);
      assert sorted[0] in sorted;
      var h :| 0 <= h < |reports| && reports[h] == sorted[0];
      assert forall r :: r in reports ==> yearOf(r.date).value <= yearOf(sorted[0].date).value by {
        forall r | r in reports ensures yearOf(r.date).value <= yearOf(sorted[0].date).value {
          var k :| 0 <= k < |sorted| && sorted[k] == r;
          var m :| 0 <= m < |reports| && reports[m] == r;
          assert year(sorted[k].date) <= year(sorted[0].date);
        }
      }
      LatestYearIsTheMaximum(reports, yearOf, sorted[0]);
      assert TopCards(reports, yearOf)[0] == sorted[0];
    }
  }

  /** The report list section: sorts the memoised array in place (as
      `reports.sort(...)` does) and shows the first three, unless loading or
      failed. */
  method ShownCards(reports: array<DocumentItem>, yearOf: string -> Option<int>, loading: bool, failed: bool)
    returns (cards: seq<DocumentItem>)
    modifies reports
    ensures (loading || failed) ==> cards == [] && reports[..] == old(reports[..])
    ensures !loading && !failed ==>
      reports[..] == StableSort.SortSpec(old(reports[..]), ByYearDesc(yearOf)) &&
      cards == TopCards(old(reports[..]), yearOf)
  {
    if loading || failed {
      return [];
    }
    StableSort.SortInPlace(reports, ByYearDesc(yearOf));
    cards := reports[..Min(3, reports.Length)];
  }

  /** The status items shown in the list beside the cards. */
  function StatusItems(loading: bool, failed: bool): (s: seq<string>)
    ensures "Loading reports…" in s <==> loading
    ensures "Failed to load reports." in s <==> failed
  {
    (if loading then ["Loading reports…"] else []) + (if failed then ["Failed to load reports."] else [])
  }

  /** A card's heading, `{year} CCR`: "NaN CCR" for an undated report. */
  function CardHeading(r: DocumentItem, yearOf: string -> Option<int>): (h: string)
    ensures yearOf(r.date).None? ==> h == "NaN CCR"
    ensures yearOf(r.date).Some? ==> h == IntToString(yearOf(r.date).value) + " CCR"
  {
    (if yearOf(r.date).Some? then IntToString(yearOf(r.date).value) else "NaN") + " CCR"
  }
}
