/** `src/components/rates/RatesFilterBar.tsx`: the filter controls of the
    rates page. The bar holds no state of its own: each control computes the
    next filter value from the current one and hands it to `onChange`, so
    every handler is a function from filter to filter. */
module RatesFilterBar {
  import opened Wrappers

  /** `RatesFilter`. A `number | null` field that may also be absent is an
      `Option<Option<real>>`: `None` is absent, `Some(None)` is `null`. */
  datatype RatesFilter = RatesFilter(
    q: string,
    min: Option<Option<real>>,
    max: Option<Option<real>>,
    sectionKey: Option<string>,
    hasNote: Option<bool>)

  /** The keys of `RatesFilter`. */
  datatype Field = Q | Min | Max | SectionKey | HasNote

  /** A value of one of the fields. */
  datatype FieldValue =
    | Text(text: string)
    | Amount(amount: Option<Option<real>>)
    | Key(key: Option<string>)
    | Flag(flag: Option<bool>)

  /** The value has the type `RatesFilter[k]`. */
  predicate Fits(k: Field, x: FieldValue) {
    match k
    case Q => x.Text?
    case Min => x.Amount?
    case Max => x.Amount?
    case SectionKey => x.Key?
    case HasNote => x.Flag?
  }

  /** `value[k]`. */
  function Get(value: RatesFilter, k: Field): (x: FieldValue)
    ensures Fits(k, x)
  {
    match k
    case Q => Text(value.q)
    case Min => Amount(value.min)
    case Max => Amount(value.max)
    case SectionKey => Key(value.sectionKey)
    case HasNote => Flag(value.hasNote)
  }

  /** A filter value is determined by its fields. */
  lemma FieldsDetermineFilter(a: RatesFilter, b: RatesFilter)
    requires forall k :: Get(a, k) == Get(b, k)
    ensures a == b
  {
    assert Get(a, Q) == Get(b, Q) && Get(a, Min) == Get(b, Min) && Get(a, Max) == Get(b, Max);
    assert Get(a, SectionKey) == Get(b, SectionKey) && Get(a, HasNote) == Get(b, HasNote);
  }

  /** `set(k, v)`: `{ ...value, [k]: v }`. Field `k` takes the new value and
      every other field keeps its own. */
  function Set(value: RatesFilter, k: Field, x: FieldValue): (r: RatesFilter)
    requires Fits(k, x)
    ensures Get(r, k) == x
    ensures forall j :: j != k ==> Get(r, j) == Get(value, j)
  {
    match k
    case Q => value.(q := x.text)
    case Min => value.(min := x.amount)
    case Max => value.(max := x.amount)
    case SectionKey => value.(sectionKey := x.key)
    case HasNote => value.(hasNote := x.flag)
  }

  /** Setting a field to the value it already has changes nothing, and a
      second `set` of the same field overrides the first. */
  lemma SetLaws(value: RatesFilter, k: Field, x: FieldValue, y: FieldValue)
    requires Fits(k, x) && Fits(k, y)
    ensures Set(value, k, Get(value, k)) == value
    ensures Set(Set(value, k, x), k, y) == Set(value, k, y)
  {
    FieldsDetermineFilter(Set(value, k, Get(value, k)), value);
    FieldsDetermineFilter(Set(Set(value, k, x), k, y), Set(value, k, y));
  }

  /** The search box. */
  function OnSearchInput(value: RatesFilter, text: string): (r: RatesFilter)
    ensures r.q == text
    ensures r == value.(q := text)
  {
    Set(value, Q, Text(text))
  }

  /** An amount box: an empty entry becomes `null`, any other entry its
      `Number(...)`, which is a parameter here. */
  function AmountEntry(text: string, toNumber: string -> real): (a: Option<Option<real>>)
    ensures a.Some?
    ensures a.value.None? <==> text == ""
    ensures text != "" ==> a.value.value == toNumber(text)
  {
    if text != "" then Some(Some(toNumber(text))) else Some(None)
  }

  function OnMinInput(value: RatesFilter, text: string, toNumber: string -> real): (r: RatesFilter)
    ensures r.min == AmountEntry(text, toNumber)
    ensures r == value.(min := AmountEntry(text, toNumber))
  {
    Set(value, Min, Amount(AmountEntry(text, toNumber)))
  }

  function OnMaxInput(value: RatesFilter, text: string, toNumber: string -> real): (r: RatesFilter)
    ensures r.max == AmountEntry(text, toNumber)
    ensures r == value.(max := AmountEntry(text, toNumber))
  {
    Set(value, Max, Amount(AmountEntry(text, toNumber)))
  }

  /** What an amount box shows: `value.min ?? ""`, the empty box for an
      absent or `null` amount. */
  function AmountShown(a: Option<Option<real>>): (shown: Option<real>)
    ensures shown.None? <==> a.None? || a.value.None?
  {
    if a.Some? && a.value.Some? then a.value else None
  }

  /** An entry shows again as the box it came from: an empty box stays empty. */
  lemma AmountEntryShown(text: string, toNumber: string -> real)
    ensures AmountShown(AmountEntry(text, toNumber)).None? <==> text == ""
  {
  }

  /** The section select: the empty option becomes "all" (`|| "all"`). */
  function OnSectionSelect(value: RatesFilter, selected: string): (r: RatesFilter)
    ensures r.sectionKey.Some?
    ensures selected == "" ==> r.sectionKey == Some("all")
    ensures selected != "" ==> r.sectionKey == Some(selected)
    ensures r == value.(sectionKey := r.sectionKey)
  {
    Set(value, SectionKey, Key(Some(if selected != "" then selected else "all")))
  }

  /** The option the select shows: an absent key shows "all" (`?? "all"`). */
  function SectionShown(value: RatesFilter): (s: string)
    ensures value.sectionKey.None? ==> s == "all"
    ensures value.sectionKey.Some? ==> s == value.sectionKey.value
  {
    value.sectionKey.GetOr("all")
  }

  /** After a selection the select shows a non-empty key: never a blank
      option. */
  lemma SelectionShowsNonEmpty(value: RatesFilter, selected: string)
    ensures SectionShown(OnSectionSelect(value, selected)) != ""
    ensures selected != "" ==> SectionShown(OnSectionSelect(value, selected)) == selected
  {
  }

  /** JavaScript truthiness of an optional flag. */
  predicate On(flag: Option<bool>) {
    flag == Some(true)
  }

  /** The notes toggle: `!value.hasNote`. */
  function Toggle(value: RatesFilter): (r: RatesFilter)
    ensures r.hasNote == Some(!On(value.hasNote))
    ensures r == value.(hasNote := r.hasNote)
  {
    Set(value, HasNote, Flag(Some(!On(value.hasNote))))
  }

  /** Absent or false turns on, true turns off; toggling twice leaves the
      flag's truthiness, and every other field, as it was. */
  lemma ToggleCases(value: RatesFilter)
    ensures value.hasNote != Some(true) ==> Toggle(value).hasNote == Some(true)
    ensures value.hasNote == Some(true) ==> Toggle(value).hasNote == Some(false)
    ensures On(Toggle(Toggle(value)).hasNote) == On(value.hasNote)
    ensures Toggle(Toggle(value)).hasNote.Some?
    ensures Toggle(Toggle(value)) == value.(hasNote := Some(On(value.hasNote)))
  {
  }

  /** `aria-pressed`. */
  function Pressed(value: RatesFilter): (s: string)
    ensures s == "true" <==> On(value.hasNote)
    ensures s == "true" || s == "false"
  {
    if On(value.hasNote) then "true" else "false"
  }

  /** The Reset button. */
  const ResetFilter := RatesFilter("", Some(None), Some(None), Some("all"), Some(false))

  function Reset(value: RatesFilter): (r: RatesFilter)
    ensures r.q == "" && r.min == Some(None) && r.max == Some(None)
    ensures r.sectionKey == Some("all") && r.hasNote == Some(false)
  {
    ResetFilter
  }

  /** Reset ignores the current value, shows empty boxes and "all", and
      leaves the toggle off. */
  lemma ResetShape(a: RatesFilter, b: RatesFilter)
    ensures Reset(a) == Reset(b)
    ensures Reset(Reset(a)) == Reset(a)
    ensures AmountShown(Reset(a).min).None? && AmountShown(Reset(a).max).None?
    ensures SectionShown(Reset(a)) == "all" && Pressed(Reset(a)) == "false"
  {
  }
}
