/** `src/components/contact/ContactMap.tsx`: the address lines, the search
    text and the three map links built from the site's contact address.
    `encodeURIComponent` is a parameter. */
module ContactMap {
  import opened Wrappers
  import opened Strings
  import opened Configs

  /** A part that survives `.filter(Boolean)`: present and non-empty. */
  predicate Present(part: Option<string>) {
    part.Some? && part.value != ""
  }

  /** `[...parts].filter(Boolean)`: the present parts' values, in order. */
  function Compact(parts: seq<Option<string>>): (r: seq<string>)
    ensures |r| <= |parts|
    ensures forall i :: 0 <= i < |r| ==> r[i] != ""
  {
    if |parts| == 0 then []
    else if Present(parts[0]) then [parts[0].value] + Compact(parts[1..])
    else Compact(parts[1..])
  }

  /** `filter(Boolean)` keeps exactly the present parts. */
  lemma {:induction false} CompactContents(parts: seq<Option<string>>)
    ensures forall s :: s in Compact(parts) <==> Some(s) in parts && s != ""
    ensures |Compact(parts)| == 0 <==> forall i :: 0 <= i < |parts| ==> !Present(parts[i])
  {
    if |parts| > 0 {
      CompactContents(parts[1..]);
      assert parts == [parts[0]] + parts[1..];
      assert forall i :: 1 <= i < |parts| ==> parts[i] == parts[1..][i - 1];
    }
  }

  /** A missing address, before the site config has loaded, has no parts. */
  function AddressOf(data: Option<SiteConfig>): Address {
    if data.Some? then data.value.contact.address else Address(None, None, None, None, None, None)
  }

  /** `line1`. */
  function Line1(a: Address): (s: string)
    ensures Present(a.street) ==> s == a.street.value
    ensures !Present(a.street) ==> s == ""
  {
    Join(Compact([a.street]), " · ")
  }

  function CityStateZip(a: Address): string {
    Join(Compact([a.city, a.state, a.zip]), ", ")
  }

  /** `line2`: city, state and zip joined with ", ", else the PO box, else "". */
  function Line2(a: Address): string {
    var csz := CityStateZip(a);
    if csz != "" then csz else if Present(a.poBox) then a.poBox.value else ""
  }

  /** The PO box is used exactly when city, state and zip are all missing. */
  lemma Line2Fallback(a: Address)
    ensures (Present(a.city) || Present(a.state) || Present(a.zip)) ==> Line2(a) == CityStateZip(a) != ""
    ensures !(Present(a.city) || Present(a.state) || Present(a.zip)) ==>
            Line2(a) == (if Present(a.poBox) then a.poBox.value else "")
  {
    var parts := [a.city, a.state, a.zip];
    CompactContents(parts);
    JoinEmpty(Compact(parts), ", ");
    assert parts[0] == a.city && parts[1] == a.state && parts[2] == a.zip;
  }

  /** `query`: building, street, city, state and zip, space-separated. */
  function Query(a: Address): string {
    Join(Compact([a.buildingName, a.street, a.city, a.state, a.zip]), " ")
  }

  /** The query is empty exactly when none of its five parts is present. */
  lemma QueryEmpty(a: Address)
    ensures Query(a) == "" <==>
      !(Present(a.buildingName) || Present(a.street) || Present(a.city) || Present(a.state) || Present(a.zip))
  {
    var parts := [a.buildingName, a.street, a.city, a.state, a.zip];
    CompactContents(parts);
    JoinEmpty(Compact(parts), " ");
    assert parts[0] == a.buildingName && parts[1] == a.street && parts[2] == a.city;
    assert parts[3] == a.state && parts[4] == a.zip;
  }

  /** `query || line1 || line2 || ""`. */
  function SearchText(a: Address): string {
    var q, l1, l2 := Query(a), Line1(a), Line2(a);
    if q != "" then q else if l1 != "" then l1 else l2
  }

  /** The `line1` fallback never decides: a street makes the query non-empty.
      The search text is therefore the query, or else the PO box (city, state
      and zip being missing too), or nothing. */
  lemma SearchTextCases(a: Address)
    ensures Line1(a) != "" ==> Query(a) != ""
    ensures SearchText(a) == (if Query(a) != "" then Query(a) else Line2(a))
    ensures Query(a) == "" ==> SearchText(a) == (if Present(a.poBox) then a.poBox.value else "")
    ensures SearchText(a) == "" <==>
      !(Present(a.buildingName) || Present(a.street) || Present(a.city) ||
        Present(a.state) || Present(a.zip) || Present(a.poBox))
  {
    QueryEmpty(a);
    Line2Fallback(a);
  }

  datatype MapLinks = MapLinks(googleEmbed: string, googleLink: string, appleLink: string)

  /** The three map URLs, each carrying the same encoded search text. */
  function Links(a: Address, encode: string -> string): (r: MapLinks)
    ensures r.googleEmbed == "https://www.google.com/maps?q=" + encode(SearchText(a)) + "&output=embed"
    ensures r.googleLink == "https://www.google.com/maps/search/?api=1&query=" + encode(SearchText(a))
    ensures r.appleLink == "https://maps.apple.com/?q=" + encode(SearchText(a))
  {
    var encoded := encode(SearchText(a));
    MapLinks("https://www.google.com/maps?q=" + encoded + "&output=embed",
             "https://www.google.com/maps/search/?api=1&query=" + encoded,
             "https://maps.apple.com/?q=" + encoded)
  }

  /** The address caption: `{line1 || "Address"} {line2 ? `— ${line2}` : ""}`. */
  function Caption(a: Address): string {
    var l1, l2 := Line1(a), Line2(a);
    (if l1 != "" then l1 else "Address") + " " + (if l2 != "" then "— " + l2 else "")
  }

  /** "Address" stands in for a missing street; the dash and second line
      appear only with a second line. */
  lemma CaptionCases(a: Address)
    ensures !Present(a.street) ==> "Address " <= Caption(a)
    ensures Present(a.street) ==> a.street.value + " " <= Caption(a)
    ensures Line2(a) == "" ==> Caption(a) == (if Present(a.street) then a.street.value else "Address") + " "
    ensures Line2(a) != "" ==> Caption(a) == (if Present(a.street) then a.street.value else "Address") + " — " + Line2(a)
  {
    var head := if Present(a.street) then a.street.value else "Address";
    assert Caption(a) == head + " " + (if Line2(a) != "" then "— " + Line2(a) else "");
    if Line2(a) != "" {
      assert head + " " + ("— " + Line2(a)) == head + " — " + Line2(a);
    } else {
      assert head + " " + "" == head + " ";
    }
  }
}
