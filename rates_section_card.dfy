/** `src/components/rates/RatesSectionCard.tsx`: one section of the rates
    page. An optional fee filter decides whether the card appears at all; the
    card then lists the section's unfiltered fees and subsections, and a
    footer with the section's policies and links. */
module RatesSectionCard {
  import opened Wrappers
  import opened Seqs
  import opened Configs

  /** `list ?? []`. */
  function OrEmpty<T>(o: Option<seq<T>>): (r: seq<T>)
    ensures o.Some? ==> r == o.value
    ensures o.None? ==> r == []
  {
    o.GetOr([])
  }

  /** `(f) => (filterFee ? filterFee(f) : true)`. */
  function Keep(filterFee: Option<RateFee -> bool>): RateFee -> bool {
    (f: RateFee) => if filterFee.Some? then filterFee.value(f) else true
  }

  /** The `fees` constant: the section's fees that pass the filter. */
  function FilteredFees(section: RatesSection, filterFee: Option<RateFee -> bool>): seq<RateFee> {
    Filter(OrEmpty(section.fees), Keep(filterFee))
  }

  /** The `subsections` constant: each subsection with its fees filtered. */
  function FilteredSubsections(section: RatesSection, filterFee: Option<RateFee -> bool>): (r: seq<Subsection>)
    ensures |r| == |OrEmpty(section.subsections)|
  {
    var subs := OrEmpty(section.subsections);
    seq(|subs|, i requires 0 <= i < |subs| => subs[i].(fees := Filter(subs[i].fees, Keep(filterFee))))
  }

  /** `hasAny`: some filtered list is non-empty. */
  predicate HasAny(section: RatesSection, filterFee: Option<RateFee -> bool>) {
    var subs := FilteredSubsections(section, filterFee);
    |FilteredFees(section, filterFee)| > 0 ||
    exists i :: 0 <= i < |subs| && |subs[i].fees| > 0
  }

  /** Without a filter every list is kept whole. */
  lemma NoFilterKeepsEverything(section: RatesSection)
    ensures FilteredFees(section, None) == OrEmpty(section.fees)
    ensures FilteredSubsections(section, None) == OrEmpty(section.subsections)
  {
    FilterAllPass(OrEmpty(section.fees), Keep(None));
    var subs := OrEmpty(section.subsections);
    forall i | 0 <= i < |subs|
      ensures FilteredSubsections(section, None)[i] == subs[i]
    {
      FilterAllPass(subs[i].fees, Keep(None));
    }
  }

  /** The filtered lists keep the order of what they keep, and the
      subsections keep their key, title and subtitle. */
  lemma FilteredListsAreSubsequences(section: RatesSection, filterFee: Option<RateFee -> bool>)
    ensures IsSubsequence(FilteredFees(section, filterFee), OrEmpty(section.fees))
    ensures var subs, r := OrEmpty(section.subsections), FilteredSubsections(section, filterFee);
      forall i :: 0 <= i < |subs| ==>
        r[i].key == subs[i].key && r[i].title == subs[i].title &&
        r[i].subtitle == subs[i].subtitle && IsSubsequence(r[i].fees, subs[i].fees)
  {
    FilterIsSubsequence(OrEmpty(section.fees), Keep(filterFee));
    var subs := OrEmpty(section.subsections);
    forall i | 0 <= i < |subs|
      ensures IsSubsequence(FilteredSubsections(section, filterFee)[i].fees, subs[i].fees)
    {
      FilterIsSubsequence(subs[i].fees, Keep(filterFee));
    }
  }

  /** A fee of the section, at its top level or in a subsection. */
  predicate InSection(section: RatesSection, f: RateFee) {
    var subs := OrEmpty(section.subsections);
    f in OrEmpty(section.fees) || exists i :: 0 <= i < |subs| && f in subs[i].fees
  }

  /** The card shows exactly when some fee of the section passes the filter. */
  lemma HasAnyIffSomeFeePasses(section: RatesSection, filterFee: Option<RateFee -> bool>)
    ensures HasAny(section, filterFee) <==>
            exists f :: InSection(section, f) && Keep(filterFee)(f)
  {
    var subs := OrEmpty(section.subsections);
    var r := FilteredSubsections(section, filterFee);
    FilterContents(OrEmpty(section.fees), Keep(filterFee));
    forall i | 0 <= i < |subs| ensures forall f :: f in r[i].fees <==> f in subs[i].fees && Keep(filterFee)(f) {
      FilterContents(subs[i].fees, Keep(filterFee));
    }
    if HasAny(section, filterFee) {
      if |FilteredFees(section, filterFee)| > 0 {
        var f := FilteredFees(section, filterFee)[0];
        assert InSection(section, f);
      } else {
        var i :| 0 <= i < |r| && |r[i].fees| > 0;
        var f := r[i].fees[0];
        assert InSection(section, f);
      }
    } else {
      forall f | InSection(section, f) ensures !Keep(filterFee)(f) {
        if f !in OrEmpty(section.fees) {
          var i :| 0 <= i < |subs| && f in subs[i].fees;
          assert |r[i].fees| == 0;
        }
      }
    }
  }

  /** A subtitle is rendered only when it is a non-empty string
      (`subtitle && <p>…</p>`). */
  function Shown(subtitle: Option<string>): (r: Option<string>)
    ensures r.Some? <==> subtitle.Some? && subtitle.value != ""
    ensures r.Some? ==> r == subtitle
  {
    if subtitle.Some? && subtitle.value != "" then subtitle else None
  }

  /** `xs?.length` as a JavaScript value: `undefined` or a number. */
  datatype LengthValue = Undefined | Length(n: nat)

  function OptionalLength<T>(o: Option<seq<T>>): (v: LengthValue)
    ensures v.Undefined? <==> o.None?
    ensures o.Some? ==> v == Length(|o.value|)
  {
    if o.Some? then Length(|o.value|) else Undefined
  }

  predicate Truthy(v: LengthValue) {
    v.Length? && v.n != 0
  }

  /** JavaScript `a || b`: `a` when truthy, `b` otherwise. */
  function JsOr(a: LengthValue, b: LengthValue): (v: LengthValue)
    ensures Truthy(v) <==> Truthy(a) || Truthy(b)
  {
    if Truthy(a) then a else b
  }

  /** The footer of the card: nothing, a bare text node, or the block with the
      policies list (when non-empty) and the links (when non-empty). */
  datatype Footer = NoFooter | Text(text: string) | PolicyBlock(policies: seq<string>, links: seq<RateLink>)

  /** The footer the code renders: `cond && <div>…</div>` shows the block for
      a truthy `cond`, and React prints a falsy number `0` as text. */
  function FooterAsWritten(section: RatesSection): Footer {
    var cond := JsOr(OptionalLength(section.policies), OptionalLength(section.links));
    if Truthy(cond) then PolicyBlock(OrEmpty(section.policies), OrEmpty(section.links))
    else if cond == Length(0) then Text("0")
    else NoFooter
  }

  /** A section whose `links` is an empty list, with no policies, prints a
      stray "0" where the footer would be. */
  lemma StrayZeroFooter(key: string, title: string, fees: seq<RateFee>)
    ensures FooterAsWritten(RatesSection(key, title, None, Some(fees), None, None, Some([]))) == Text("0")
    ensures FooterAsWritten(RatesSection(key, title, None, Some(fees), None, Some([]), Some([]))) == Text("0")
  {
  }

  /** The evidently intended footer: the block when there are policies or
      links, and nothing otherwise. */
  function FooterBlock(section: RatesSection): (r: Footer)
    ensures !r.Text?
    ensures r.PolicyBlock? <==> |OrEmpty(section.policies)| > 0 || |OrEmpty(section.links)| > 0
    ensures r.PolicyBlock? ==> r.policies == OrEmpty(section.policies) && r.links == OrEmpty(section.links)
  {
    var cond := JsOr(OptionalLength(section.policies), OptionalLength(section.links));
    if Truthy(cond) then PolicyBlock(OrEmpty(section.policies), OrEmpty(section.links))
    else NoFooter
  }

  /** The two footers differ only where the code prints "0". */
  lemma FooterAgreesElsewhere(section: RatesSection)
    ensures FooterAsWritten(section) != FooterBlock(section) <==> FooterAsWritten(section) == Text("0")
    ensures FooterAsWritten(section) == Text("0") <==>
            section.links == Some([]) && |OrEmpty(section.policies)| == 0
  {
  }

  /** One rendered subsection: heading, subtitle, and its unfiltered fees
      (empty when the list is not rendered). */
  datatype SubsectionBlock = SubsectionBlock(key: string, title: string, subtitle: Option<string>, fees: seq<RateFee>)

  /** A rendered card. */
  datatype Card = Card(
    title: string,
    subtitle: Option<string>,
    fees: seq<RateFee>,
    subsections: seq<SubsectionBlock>,
    footer: Footer)

  function RenderSubsection(ss: Subsection): SubsectionBlock {
    SubsectionBlock(ss.key, ss.title, Shown(ss.subtitle), ss.fees)
  }

  /** The component: no card unless `hasAny`; otherwise the card built from
      the unfiltered lists. */
  function SectionCard(section: RatesSection, filterFee: Option<RateFee -> bool>): (c: Option<Card>)
    ensures c.None? <==> !HasAny(section, filterFee)
    ensures c.Some? ==> c.value.title == section.title && c.value.subtitle == Shown(section.subtitle)
    ensures c.Some? ==> c.value.fees == OrEmpty(section.fees)
    ensures c.Some? ==> var subs := OrEmpty(section.subsections);
      |c.value.subsections| == |subs| &&
      forall i :: 0 <= i < |subs| ==>
        c.value.subsections[i].key == subs[i].key && c.value.subsections[i].title == subs[i].title &&
        c.value.subsections[i].subtitle == Shown(subs[i].subtitle) && c.value.subsections[i].fees == subs[i].fees
    ensures c.Some? ==> c.value.footer == FooterBlock(section)
  {
    if !HasAny(section, filterFee) then None
    else
      var subs := OrEmpty(section.subsections);
      Some(Card(section.title, Shown(section.subtitle), OrEmpty(section.fees),
                seq(|subs|, i requires 0 <= i < |subs| => RenderSubsection(subs[i])),
                FooterBlock(section)))
  }

  /** The filter decides only whether the card appears: any two filters that
      both let something through render the same card. */
  lemma FilterOnlyDecidesVisibility(section: RatesSection, f1: Option<RateFee -> bool>, f2: Option<RateFee -> bool>)
    requires HasAny(section, f1) && HasAny(section, f2)
    ensures SectionCard(section, f1) == SectionCard(section, f2)
  {
  }

  /** Without a filter, a card is shown exactly when the section has a fee. */
  lemma UnfilteredCardShown(section: RatesSection)
    ensures SectionCard(section, None).Some? <==> exists f :: InSection(section, f)
  {
    HasAnyIffSomeFeePasses(section, None);
  }
}
