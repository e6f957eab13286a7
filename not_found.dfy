/** `src/pages/NotFound.tsx`: the 404 page's quick links, narrowed by a
    search box. */
module NotFound {
  import opened Seqs
  import opened Strings

  datatype QuickLink = QuickLink(title: string, to: string)

  /** `POPULAR_LINKS`, in declared order. */
  const PopularLinks: seq<QuickLink> := [
    QuickLink("Home", "/"),
    QuickLink("Alerts", "/alerts"),
    QuickLink("Water Quality", "/water-quality"),
    QuickLink("Rates", "/rates"),
    QuickLink("Documents", "/documents"),
    QuickLink("Contact", "/contact"),
    QuickLink("Governance", "/governance"),
    QuickLink("Policies", "/policies"),
    QuickLink("Newsletters", "/newsletters"),
    QuickLink("Conservation", "/conservation"),
    QuickLink("Links", "/links"),
    QuickLink("Gallery", "/gallery")
  ]

  /** `query.trim().toLowerCase()`. */
  function Normalized(query: string): (q: string)
    ensures q == "" <==> AllWhitespace(query)
  {
    TrimEmptyIffBlank(query);
    Lower(Trim(query))
  }

  /** `(l) => l.title.toLowerCase().includes(q)`. */
  function TitleHas(q: string): QuickLink -> bool {
    (l: QuickLink) => Contains(Lower(l.title), q)
  }

  /** The `filtered` memo over a list of links: every link for a blank
      query, else the links whose lower-cased title contains the normalised
      query. */
  function Narrow(links: seq<QuickLink>, query: string): (r: seq<QuickLink>)
    ensures |r| <= |links|
  {
    var q := Normalized(query);
    if q == "" then links else Filter(links, TitleHas(q))
  }

  /** The page's list: `POPULAR_LINKS` narrowed by the query. */
  function Filtered(query: string): (r: seq<QuickLink>)
    ensures |r| <= 12
  {
    Narrow(PopularLinks, query)
  }

  /** A blank query shows all twelve links in order. */
  lemma BlankQueryShowsAll(query: string)
    requires AllWhitespace(query)
    ensures Filtered(query) == PopularLinks && |Filtered(query)| == 12
  {
  }

  /** The result keeps the declared order. */
  lemma NarrowIsSubsequence(links: seq<QuickLink>, query: string)
    ensures IsSubsequence(Narrow(links, query), links)
  {
    if Normalized(query) == "" {
      SubsequenceReflexive(links);
    } else {
      FilterIsSubsequence(links, TitleHas(Normalized(query)));
    }
  }

  /** A link is shown exactly when its lower-cased title contains the
      normalised query (always, for a blank one). */
  lemma NarrowContents(links: seq<QuickLink>, query: string)
    ensures forall l :: l in Narrow(links, query) <==>
      l in links && Contains(Lower(l.title), Normalized(query))
  {
    var q := Normalized(query);
    FilterContents(links, TitleHas(q));
    if q == "" {
      forall l | l in links ensures Contains(Lower(l.title), q) {
        assert OccursAt(Lower(l.title), q, 0);
      }
    }
  }

  /** Whitespace around the query and the case of its letters do not change
      the result. */
  lemma QueryInsensitive(w1: string, query: string, w2: string)
    requires AllWhitespace(w1) && AllWhitespace(w2)
    ensures Narrow(PopularLinks, w1 + query + w2) == Narrow(PopularLinks, query)
    ensures Narrow(PopularLinks, Lower(query)) == Narrow(PopularLinks, query)
  {
    TrimSurroundingSpace(w1, query, w2);
    TrimLowerCommute(query);
    LowerIdempotent(Trim(query));
    assert Normalized(Lower(query)) == Normalized(query);
  }

  /** The "No matches" paragraph. */
  function NoMatchesMessage(query: string): (m: string)
    ensures m != "" <==> |Filtered(query)| == 0
  {
    if |Filtered(query)| == 0 then "No matches. Try a different search term." else ""
  }

  /** "No matches" never shows for a blank query. */
  lemma BlankQueryHasMatches(query: string)
    requires AllWhitespace(query)
    ensures NoMatchesMessage(query) == ""
  {
    BlankQueryShowsAll(query);
  }
}
