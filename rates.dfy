/** `src/pages/Rates.tsx`: the footnote numbering built while the rates page
    is rendered, the note marks and the notes list that use it, and the text
    of a fee amount. */
module Rates {
  import opened Wrappers
  import opened Strings
  import opened Configs

  // ---- the order in which note keys are met ---------------------------------

  /** The key a fee contributes: only a present, non-empty `noteKey` counts. */
  function NoteKeyOf(f: RateFee): (r: seq<string>)
    ensures |r| <= 1
    ensures |r| == 1 <==> f.noteKey.Some? && f.noteKey.value != ""
    ensures |r| == 1 ==> r[0] == f.noteKey.value
  {
    if f.noteKey.Some? && f.noteKey.value != "" then [f.noteKey.value] else []
  }

  /** The keys of a fee list, in list order. */
  function FeeNoteKeys(fees: seq<RateFee>): seq<string> {
    if |fees| == 0 then [] else FeeNoteKeys(fees[..|fees| - 1]) + NoteKeyOf(fees[|fees| - 1])
  }

  /** One more fee adds its own key after those of the fees before it. */
  lemma FeeNoteKeysStep(fees: seq<RateFee>, j: nat)
    requires j < |fees|
    ensures FeeNoteKeys(fees[..j + 1]) == FeeNoteKeys(fees[..j]) + NoteKeyOf(fees[j])
  {
    assert fees[..j + 1][..j] == fees[..j];
  }

  /** The keys of the subsections' fees, subsection by subsection. */
  function SubsectionNoteKeys(subs: seq<Subsection>): seq<string> {
    if |subs| == 0 then [] else SubsectionNoteKeys(subs[..|subs| - 1]) + FeeNoteKeys(subs[|subs| - 1].fees)
  }

  lemma SubsectionNoteKeysStep(subs: seq<Subsection>, j: nat)
    requires j < |subs|
    ensures SubsectionNoteKeys(subs[..j + 1]) == SubsectionNoteKeys(subs[..j]) + FeeNoteKeys(subs[j].fees)
  {
    assert subs[..j + 1][..j] == subs[..j];
  }

  /** Within a section, the top-level fees come before the subsections' fees. */
  function SectionNoteKeys(s: RatesSection): seq<string> {
    FeeNoteKeys(s.fees.GetOr([])) + SubsectionNoteKeys(s.subsections.GetOr([]))
  }

  /** All keys met on the page, section by section, repeats included. */
  function EncounterKeys(sections: seq<RatesSection>): seq<string> {
    if |sections| == 0 then []
    else EncounterKeys(sections[..|sections| - 1]) + SectionNoteKeys(sections[|sections| - 1])
  }

  lemma EncounterKeysStep(sections: seq<RatesSection>, i: nat)
    requires i < |sections|
    ensures EncounterKeys(sections[..i + 1]) == EncounterKeys(sections[..i]) + SectionNoteKeys(sections[i])
  {
    assert sections[..i + 1][..i] == sections[..i];
  }

  function PageNoteKeys(data: Option<RatesConfig>): seq<string> {
    if data.Some? then EncounterKeys(data.value.sections) else []
  }

  // ---- first-occurrence order -----------------------------------------------

  /** Extends `seen` with the elements of `s` not met before, in order. */
  function AddNew(seen: seq<string>, s: seq<string>): seq<string> {
    if |s| == 0 then seen
    else
      var d := AddNew(seen, s[..|s| - 1]);
      if s[|s| - 1] in d then d else d + [s[|s| - 1]]
  }

  /** The distinct elements of `s` in the order they first occur. */
  function FirstOccurrences(s: seq<string>): seq<string> {
    AddNew([], s)
  }

  predicate Distinct(s: seq<string>) {
    forall i, j :: 0 <= i < j < |s| ==> s[i] != s[j]
  }

  /** What `AddNew` appends: exactly the new elements, each once, and `seen` stays in front. */
  lemma {:induction false} AddNewContents(seen: seq<string>, s: seq<string>)
    requires Distinct(seen)
    ensures Distinct(AddNew(seen, s))
    ensures seen <= AddNew(seen, s)
    ensures forall x :: x in AddNew(seen, s) <==> x in seen || x in s
  {
    if |s| > 0 {
      AddNewContents(seen, s[..|s| - 1]);
      assert s == s[..|s| - 1] + [s[|s| - 1]];
    }
  }

  /** Adding in two batches is adding all at once: the numbering of the page
      can be built section by section. */
  lemma {:induction false} AddNewAppend(seen: seq<string>, a: seq<string>, b: seq<string>)
    ensures AddNew(AddNew(seen, a), b) == AddNew(seen, a + b)
  {
    if |b| == 0 {
      assert a + b == a;
    } else {
      AddNewAppend(seen, a, b[..|b| - 1]);
      assert (a + b)[..|a + b| - 1] == a + b[..|b| - 1];
      assert (a + b)[|a + b| - 1] == b[|b| - 1];
    }
  }

  /** An element keeps the position it got when first met: later input never
      renumbers earlier keys. */
  lemma FirstOccurrencesPrefix(a: seq<string>, b: seq<string>)
    ensures FirstOccurrences(a) <= FirstOccurrences(a + b)
  {
    AddNewAppend([], a, b);
    AddNewContents([], a);
    AddNewContents(FirstOccurrences(a), b);
  }

  /** A key met for the first time after the keys of `a` gets the next
      position after theirs. */
  lemma FirstOccurrenceOrder(a: seq<string>, x: string, b: seq<string>)
    requires x !in a
    ensures FirstOccurrences(a) + [x] <= FirstOccurrences(a + [x] + b)
  {
    AddNewContents([], a);
    assert (a + [x])[..|a|] == a;
    assert FirstOccurrences(a + [x]) == FirstOccurrences(a) + [x];
    FirstOccurrencesPrefix(a + [x], b);
  }

  // ---- the table: a Map from key to number, and the counter ------------------

  /** `order` numbers the distinct keys `keys` 1, 2, … in that order. */
  ghost predicate IndexTable(order: map<string, nat>, keys: seq<string>) {
    Distinct(keys) && |order| == |keys| &&
    (forall k :: k in order <==> k in keys) &&
    (forall i :: 0 <= i < |keys| ==> order[keys[i]] == i + 1)
  }

  /** The numbers used are exactly 1..count, each for one key only. */
  lemma NumberingIsOneToCount(order: map<string, nat>, keys: seq<string>)
    requires IndexTable(order, keys)
    ensures forall k :: k in order ==> 1 <= order[k] <= |order|
    ensures forall k1, k2 :: k1 in order && k2 in order && order[k1] == order[k2] ==> k1 == k2
    ensures forall m: nat :: m in order.Values <==> 1 <= m <= |order|
  {
    forall k | k in order ensures 1 <= order[k] <= |order| {
      var i :| 0 <= i < |keys| && keys[i] == k;
    }
    forall k1, k2 | k1 in order && k2 in order && order[k1] == order[k2] ensures k1 == k2 {
      var i :| 0 <= i < |keys| && keys[i] == k1;
      var j :| 0 <= j < |keys| && keys[j] == k2;
    }
    forall m: nat | m in order.Values ensures 1 <= m <= |order| {
      var k :| k in order && order[k] == m;
    }
    forall m: nat | 1 <= m <= |order| ensures m in order.Values {
      assert keys[m - 1] in order && order[keys[m - 1]] == m;
    }
  }

  /** The `order` Map, its insertion order and the counter `n` of the memo. */
  class NoteIndex {
    var order: map<string, nat>
    var keys: seq<string>
    var n: nat

    ghost predicate Valid()
      reads this
    {
      n == |keys| + 1 && IndexTable(order, keys)
    }

    constructor ()
      ensures Valid() && keys == []
    {
      order := map[];
      keys := [];
      n := 1;
    }

    /** `consider(f)`: number a new, non-empty key with the next number. */
    method Consider(f: RateFee)
      requires Valid()
      modifies this
      ensures Valid()
      ensures keys == AddNew(old(keys), NoteKeyOf(f))
      ensures forall k :: k in old(order) ==> k in order && order[k] == old(order)[k]
    {
      if |NoteKeyOf(f)| == 1 {
        assert NoteKeyOf(f)[..0] == [];
      }
      if f.noteKey.Some? && f.noteKey.value != "" && f.noteKey.value !in order {
        var k := f.noteKey.value;
        order := order[k := n];
        keys := keys + [k];
        n := n + 1;
      }
    }

    /** `fees.forEach(consider)`. */
    method ConsiderAll(fees: seq<RateFee>)
      requires Valid()
      modifies this
      ensures Valid()
      ensures keys == AddNew(old(keys), FeeNoteKeys(fees))
    {
      var j := 0;
      while j < |fees|
        invariant 0 <= j <= |fees|
        invariant Valid()
        invariant keys == AddNew(old(keys), FeeNoteKeys(fees[..j]))
      {
        Consider(fees[j]);
        FeeNoteKeysStep(fees, j);
        AddNewAppend(old(keys), FeeNoteKeys(fees[..j]), NoteKeyOf(fees[j]));
        j := j + 1;
      }
      assert fees[..j] == fees;
    }

    /** `s.subsections?.forEach((ss) => ss.fees?.forEach(consider))`. */
    method ConsiderSubsections(subs: seq<Subsection>)
      requires Valid()
      modifies this
      ensures Valid()
      ensures keys == AddNew(old(keys), SubsectionNoteKeys(subs))
    {
      var j := 0;
      while j < |subs|
        invariant 0 <= j <= |subs|
        invariant Valid()
        invariant keys == AddNew(old(keys), SubsectionNoteKeys(subs[..j]))
      {
        ConsiderAll(subs[j].fees);
        SubsectionNoteKeysStep(subs, j);
        AddNewAppend(old(keys), SubsectionNoteKeys(subs[..j]), FeeNoteKeys(subs[j].fees));
        j := j + 1;
      }
      assert subs[..j] == subs;
    }

    /** The body of the section loop: top-level fees, then the subsections. */
    method ConsiderSection(s: RatesSection)
      requires Valid()
      modifies this
      ensures Valid()
      ensures keys == AddNew(old(keys), SectionNoteKeys(s))
    {
      ConsiderAll(s.fees.GetOr([]));
      ConsiderSubsections(s.subsections.GetOr([]));
      AddNewAppend(old(keys), FeeNoteKeys(s.fees.GetOr([])), SubsectionNoteKeys(s.subsections.GetOr([])));
    }
  }

  /** The `noteOrder`/`count` memo: keys numbered 1..count in the order they
      are first met on the page. */
  method BuildNoteOrder(data: Option<RatesConfig>) returns (index: NoteIndex, count: nat)
    ensures index.Valid()
    ensures index.keys == FirstOccurrences(PageNoteKeys(data))
    ensures count == |index.order| == |index.keys|
  {
    index := new NoteIndex();
    if data.Some? {
      var sections := data.value.sections;
      var i := 0;
      while i < |sections|
        invariant 0 <= i <= |sections|
        invariant index.Valid()
        invariant index.keys == FirstOccurrences(EncounterKeys(sections[..i]))
        modifies index
      {
        index.ConsiderSection(sections[i]);
        AddNewAppend([], EncounterKeys(sections[..i]), SectionNoteKeys(sections[i]));
        EncounterKeysStep(sections, i);
        i := i + 1;
      }
      assert sections[..i] == sections;
    }
    count := |index.order|;
  }

  /** Every numbered key is a non-empty `noteKey` of some fee on the page, and
      every such key is numbered. */
  lemma NumberedKeysAreNoteKeys(data: Option<RatesConfig>, order: map<string, nat>, keys: seq<string>)
    requires IndexTable(order, keys) && keys == FirstOccurrences(PageNoteKeys(data))
    ensures forall k :: k in order <==> k in PageNoteKeys(data)
    ensures data.None? ==> |order| == 0
  {
    AddNewContents([], PageNoteKeys(data));
  }

  /** The keys a fee list contributes are its present, non-empty note keys. */
  lemma {:induction false} FeeNoteKeysMembers(fees: seq<RateFee>)
    ensures forall k :: k in FeeNoteKeys(fees) <==>
      exists i :: 0 <= i < |fees| && fees[i].noteKey == Some(k) && k != ""
  {
    if |fees| > 0 {
      FeeNoteKeysMembers(fees[..|fees| - 1]);
      var last := fees[|fees| - 1];
      forall k | k in FeeNoteKeys(fees) ensures exists i :: 0 <= i < |fees| && fees[i].noteKey == Some(k) && k != "" {
        if k in FeeNoteKeys(fees[..|fees| - 1]) {
          var i :| 0 <= i < |fees| - 1 && fees[..|fees| - 1][i].noteKey == Some(k) && k != "";
          assert fees[i] == fees[..|fees| - 1][i];
        } else {
          assert fees[|fees| - 1].noteKey == Some(k);
        }
      }
      forall k | exists i :: 0 <= i < |fees| && fees[i].noteKey == Some(k) && k != "" ensures k in FeeNoteKeys(fees) {
        var i :| 0 <= i < |fees| && fees[i].noteKey == Some(k) && k != "";
        if i < |fees| - 1 {
          assert fees[..|fees| - 1][i] == fees[i];
        }
      }
    }
  }

  // ---- rendering -------------------------------------------------------------

  /** The superscript link rendered after a fee label. */
  datatype NoteMark = NoteMark(href: string, ariaLabel: string)

  /** `renderNoteMark(key)`: a mark only for a present, non-empty, numbered key. */
  function RenderNoteMark(key: Option<string>, order: map<string, nat>): (m: Option<NoteMark>)
    ensures m.Some? <==> key.Some? && key.value != "" && key.value in order
    ensures m.Some? ==> m.value.href == "#note-" + NatToString(order[key.value]) &&
                        m.value.ariaLabel == "See note " + NatToString(order[key.value])
  {
    if key.Some? && key.value != "" && key.value in order then
      var num := NatToString(order[key.value]);
      Some(NoteMark("#note-" + num, "See note " + num))
    else None
  }

  /** Different notes never share a link target. */
  lemma NoteMarksDistinct(order: map<string, nat>, keys: seq<string>, k1: string, k2: string)
    requires IndexTable(order, keys) && k1 != k2 && k1 != "" && k2 != ""
    requires k1 in order && k2 in order
    ensures RenderNoteMark(Some(k1), order).value.href != RenderNoteMark(Some(k2), order).value.href
  {
    NumberingIsOneToCount(order, keys);
    var s1, s2 := NatToString(order[k1]), NatToString(order[k2]);
    if "#note-" + s1 == "#note-" + s2 {
      assert s1 == ("#note-" + s1)[6..] == ("#note-" + s2)[6..] == s2;
      NatToStringRoundTrip(order[k1]);
      NatToStringRoundTrip(order[k2]);
    }
  }

  /** The unit suffix ` (per hour)`: the enum name with `_` shown as a space. */
  function UnitSuffix(u: Option<FeeUnit>): (s: string)
    ensures u.None? <==> s == ""
    ensures u.Some? ==> s == " (" + ReplaceChar(u.value.Name(), '_', ' ') + ")" && '_' !in s
  {
    if u.Some? then " (" + ReplaceChar(u.value.Name(), '_', ' ') + ")" else ""
  }

  /** `formatAmount(f)`. Currency formatting is locale behaviour, passed in as `usd`. */
  function FormatAmount(f: RateFee, usd: real -> string): (s: string)
    ensures f.amountUSD.Some? ==> s == usd(f.amountUSD.value) + UnitSuffix(f.unit)
    ensures f.amountUSD.None? ==> s == f.amountText.GetOr("") + UnitSuffix(f.unit)
  {
    if f.amountUSD.Some? then usd(f.amountUSD.value) + UnitSuffix(f.unit)
    else f.amountText.GetOr("") + UnitSuffix(f.unit)
  }

  /** One paragraph of the notes aside: `note-N` and the note text, if any. */
  datatype NoteLine = NoteLine(key: string, id: string, text: Option<string>)

  /** The notes aside, listed in numbering order, shown only when count > 0. */
  function NotesAside(order: map<string, nat>, keys: seq<string>, notes: map<string, string>): (r: Option<seq<NoteLine>>)
    requires IndexTable(order, keys)
    ensures r.Some? <==> |order| > 0
    ensures r.Some? ==> |r.value| == |order|
    ensures r.Some? ==> forall i :: 0 <= i < |r.value| ==>
      r.value[i].key == keys[i] && r.value[i].id == "note-" + NatToString(i + 1) &&
      (r.value[i].text.Some? <==> keys[i] in notes)
  {
    if |order| == 0 then None
    else
      Some(seq(|keys|, i requires 0 <= i < |keys| =>
        NoteLine(keys[i], "note-" + NatToString(order[keys[i]]),
                 if keys[i] in notes then Some(notes[keys[i]]) else None)))
  }

  /** Each note paragraph's id is the id its marks link to. */
  lemma NoteLinksResolve(order: map<string, nat>, keys: seq<string>, notes: map<string, string>, i: nat)
    requires IndexTable(order, keys) && i < |keys| && keys[i] != ""
    ensures NotesAside(order, keys, notes).Some?
    ensures RenderNoteMark(Some(keys[i]), order).value.href == "#" + NotesAside(order, keys, notes).value[i].id
  {
  }

  /** The notes chip label of the header. */
  function NotesChipLabel(count: nat): (s: string)
    ensures count == 1 ==> s == "Jump to notes, 1 item"
    ensures count > 1 ==> s == "Jump to notes, " + NatToString(count) + " items"
  {
    "Jump to notes, " + NatToString(count) + " item" + (if count > 1 then "s" else "")
  }
}
