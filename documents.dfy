/** `src/pages/Documents.tsx`: the documents list filtered by category and
    by a title search, newest first. The list is the built-in `DOCUMENTS`
    array of `src/data/documents.ts`. */
module Documents {
  import opened Wrappers
  import opened Seqs
  import opened Strings
  import opened Configs
  import StableSort

  /** `DOCUMENTS`. */
  const AllDocuments: seq<DocumentItem> := [
    DocumentItem("d1", "Board Minutes — May 2025", "/docs/minutes-2025-05.pdf", "2025-05-15", Minutes),
    DocumentItem("d2", "Annual Water Quality Report 2024", "/docs/awqr-2024.pdf", "2025-03-01", Reports),
    DocumentItem("d3", "New Service Application", "/docs/new-service-app.pdf", "2024-11-01", Forms)]

  /** The options of the category select, after "All". */
  const CategoryOptions: seq<Category> := [Minutes, Reports, Forms, Notices, Other]

  function InCategory(c: Category): DocumentItem -> bool {
    (d: DocumentItem) => d.category == c
  }

  function TitleMatches(term: string): DocumentItem -> bool {
    (d: DocumentItem) => Contains(Lower(d.title), term)
  }

  /** `(a, b) => b.date.localeCompare(a.date)`: newest date first. */
  function ByDateDesc(a: DocumentItem, b: DocumentItem): int {
    Compare(b.date, a.date)
  }

  lemma ByDateDescConsistent()
    ensures StableSort.Consistent(ByDateDesc)
  {
    forall x: DocumentItem, y: DocumentItem ensures ByDateDesc(x, y) <= 0 || ByDateDesc(y, x) <= 0 {
      CompareAntisymmetric(x.date, y.date);
    }
    forall x: DocumentItem, y: DocumentItem, z: DocumentItem | ByDateDesc(x, y) <= 0 && ByDateDesc(y, z) <= 0
      ensures ByDateDesc(x, z) <= 0
    {
      CompareTransitive(z.date, y.date, x.date);
    }
  }

  /** The items that pass both filters, in list order. `cat == None` is "All". */
  function Matching(docs: seq<DocumentItem>, q: string, cat: Option<Category>): seq<DocumentItem> {
    var term := Lower(Trim(q));
    var byCat := if cat.Some? then Filter(docs, InCategory(cat.value)) else docs;
    if term != "" then Filter(byCat, TitleMatches(term)) else byCat
  }

  /** The copy `list` after the two filters of the memo. */
  method FilteredList(docs: seq<DocumentItem>, q: string, cat: Option<Category>) returns (list: seq<DocumentItem>)
    ensures list == Matching(docs, q, cat)
  {
    var term := Lower(Trim(q));
    list := docs;
    if cat.Some? {
      list := Filter(list, InCategory(cat.value));
    }
    if term != "" {
      list := Filter(list, TitleMatches(term));
    }
  }

  /** The `items` memo: copy, filter, filter, sort. */
  method Items(docs: seq<DocumentItem>, q: string, cat: Option<Category>) returns (items: seq<DocumentItem>)
    ensures items == StableSort.SortSpec(Matching(docs, q, cat), ByDateDesc)
  {
    var list := FilteredList(docs, q, cat);
    var a := new DocumentItem[|list|](i requires 0 <= i < |list| => list[i]);
    assert a[..] == list;
    StableSort.SortInPlace(a, ByDateDesc);
    items := a[..];
  }

  /** The result holds each matching item as often as the list does. */
  lemma ItemsArePermutation(docs: seq<DocumentItem>, q: string, cat: Option<Category>)
    ensures multiset(StableSort.SortSpec(Matching(docs, q, cat), ByDateDesc)) == multiset(Matching(docs, q, cat))
  {
    StableSort.SortSpecPermutes(Matching(docs, q, cat), ByDateDesc);
  }

  /** Newest first: every item's date sorts no earlier than the next ones'. */
  lemma ItemsNewestFirst(docs: seq<DocumentItem>, q: string, cat: Option<Category>)
    ensures var r := StableSort.SortSpec(Matching(docs, q, cat), ByDateDesc);
      forall i, j :: 0 <= i < j < |r| ==> Compare(r[j].date, r[i].date) <= 0
  {
    ByDateDescConsistent();
    StableSort.SortSpecSorted(Matching(docs, q, cat), ByDateDesc);
  }

  /** What passes: the chosen category, unless "All", and, for a non-blank
      query, a lower-cased title containing the trimmed, lower-cased query. */
  lemma MatchingContents(docs: seq<DocumentItem>, q: string, cat: Option<Category>)
    ensures forall d :: d in Matching(docs, q, cat) <==>
      d in docs && (cat.Some? ==> d.category == cat.value) &&
      (Lower(Trim(q)) != "" ==> Contains(Lower(d.title), Lower(Trim(q))))
  {
    var term := Lower(Trim(q));
    if cat.Some? {
      FilterContents(docs, InCategory(cat.value));
    }
    var byCat := if cat.Some? then Filter(docs, InCategory(cat.value)) else docs;
    if term != "" {
      FilterContents(byCat, TitleMatches(term));
    }
  }

  /** The matching items keep their list order. */
  lemma MatchingIsSubsequence(docs: seq<DocumentItem>, q: string, cat: Option<Category>)
    ensures IsSubsequence(Matching(docs, q, cat), docs)
  {
    var term := Lower(Trim(q));
    if cat.Some? && term != "" {
      FilterFilter(docs, InCategory(cat.value), TitleMatches(term));
      FilterIsSubsequence(docs, And(InCategory(cat.value), TitleMatches(term)));
    } else if cat.Some? {
      FilterIsSubsequence(docs, InCategory(cat.value));
    } else if term != "" {
      FilterIsSubsequence(docs, TitleMatches(term));
    } else {
      SubsequenceReflexive(docs);
    }
  }

  /** A blank query filters nothing: with "All", every document is listed. */
  lemma BlankQueryAllCategories(docs: seq<DocumentItem>, q: string)
    requires AllWhitespace(q)
    ensures Matching(docs, q, None) == docs
  {
    TrimEmptyIffBlank(q);
  }

  /** "No documents found." is shown exactly when nothing matches. */
  function EmptyMessage(items: seq<DocumentItem>): (m: Option<string>)
    ensures m.Some? <==> |items| == 0
  {
    if |items| == 0 then Some("No documents found.") else None
  }
}
