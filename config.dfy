/** The configuration shapes the pages read from the JSON files under `public/`
    (`rates.json`, `alerts.json`, `documents.json`, `site.json`, `pictures.json`),
    as declared by their schemas. Only the declared shapes are modelled;
    parsing, defaults and format checks are not. Optional fields are `Option`s,
    a `nullable().optional()` field is an `Option<Option<…>>` only where the
    code tells `null` from absence. */
module Configs {
  import opened Wrappers

  // ---- rates.json ----------------------------------------------------------

  /** The `unit` enum of a fee. */
  datatype FeeUnit = PerHour | PerPage | PerDocument | PerEduPerQuarter {
    /** The enum value as written in the JSON. */
    function Name(): string {
      match this
      case PerHour => "per_hour"
      case PerPage => "per_page"
      case PerDocument => "per_document"
      case PerEduPerQuarter => "per_EDU_per_quarter"
    }
  }

  /** One fee line (`label` is `feeLabel` here, `label` being reserved in Dafny).
      `amountUSD` is a JSON number, kept as a real. */
  datatype RateFee = RateFee(
    feeLabel: string,
    amountUSD: Option<real>,
    amountText: Option<string>,
    unit: Option<FeeUnit>,
    details: Option<string>,
    noteKey: Option<string>)

  datatype Subsection = Subsection(key: string, title: string, subtitle: Option<string>, fees: seq<RateFee>)

  datatype RateLink = RateLink(linkLabel: string, href: string)

  /** A section: `fees` defaults to `[]` in the schema, but the card treats an
      absent list as empty too, so both are kept optional here. */
  datatype RatesSection = RatesSection(
    key: string,
    title: string,
    subtitle: Option<string>,
    fees: Option<seq<RateFee>>,
    subsections: Option<seq<Subsection>>,
    policies: Option<seq<string>>,
    links: Option<seq<RateLink>>)

  datatype RatesConfig = RatesConfig(
    title: string,
    effectiveDate: string,
    sections: seq<RatesSection>,
    notes: map<string, string>)

  // ---- alerts.json ---------------------------------------------------------

  datatype Severity = Emergency | Notice

  /** What `new Date(text).getTime()` yields: a millisecond count, or NaN. */
  datatype Instant = Millis(ms: int) | InvalidDate

  /** A date string together with the instant the host parses it to. */
  datatype DateString = DateString(text: string, parsed: Instant)

  /** One alert. `effectiveTo` and `link` may be `null` or absent; `None`
      stands for both, since every use tests them for truthiness. */
  datatype Alert = Alert(
    description: string,
    effectiveFrom: DateString,
    effectiveTo: Option<DateString>,
    id: string,
    lastUpdated: Option<string>,
    link: Option<string>,
    severity: Severity,
    tags: Option<seq<string>>,
    title: string)

  // ---- documents.json ------------------------------------------------------

  datatype Category = Forms | Minutes | Notices | Other | Reports

  datatype DocumentItem = DocumentItem(id: string, title: string, url: string, date: string, category: Category)

  // ---- site.json: meta ------------------------------------------------------

  datatype TwitterCard = Summary | SummaryLargeImage

  datatype MetaDefaults = MetaDefaults(
    siteName: string,
    titleTemplate: string,
    description: string,
    locale: string,
    twitterCard: TwitterCard,
    ogImage: Option<string>,
    twitterSite: Option<string>,
    baseUrl: Option<string>)

  datatype RouteMeta = RouteMeta(title: string, description: string, ogImage: Option<string>, noindex: Option<bool>)

  datatype MetaConfig = MetaConfig(defaults: MetaDefaults, routes: map<string, RouteMeta>)

  // ---- site.json: contact ---------------------------------------------------

  datatype Address = Address(
    buildingName: Option<string>,
    street: Option<string>,
    city: Option<string>,
    state: Option<string>,
    zip: Option<string>,
    poBox: Option<string>)

  datatype Contact = Contact(email: Option<string>, phone: string, paOneCallUrl: string, address: Address)

  /** The part of `site.json` the modelled pages read. */
  datatype SiteConfig = SiteConfig(contact: Contact, siteTitle: string)

  // ---- pictures.json --------------------------------------------------------

  datatype Picture = Picture(
    src: string,
    alt: string,
    title: Option<string>,
    caption: Option<string>,
    width: Option<int>,
    height: Option<int>)

  datatype PicturesConfig = PicturesConfig(items: seq<Picture>)
}
