/** `src/pages/ErrorPage.tsx`: the page shown when a route throws. It picks a
    status, a status text and a message from the thrown value, hands a 404 to
    the not-found page, and otherwise shows contact links and a prepared
    error-report e-mail. `encodeURIComponent` and `location` are parameters. */
module ErrorPage {
  import opened Wrappers
  import opened Strings
  import opened Configs
  import Phone

  /** What the page can tell about the thrown value. `response` is present
      when the value is a non-null object with `status` and `statusText`
      (`isRouteErrorResponseType`); `dataMessage` is its `data?.message`;
      `errorMessage` is present when the value is an `Error`, with its
      `message`. */
  datatype Thrown = Thrown(
    response: Option<StatusLine>,
    dataMessage: Option<string>,
    errorMessage: Option<string>)

  datatype StatusLine = StatusLine(status: int, statusText: string)

  const DefaultMessage := "Something went wrong while loading this page."

  /** `status` and `statusText`: the response's own, or 500 "Internal Error". */
  function StatusOf(err: Thrown): (s: StatusLine)
    ensures err.response.None? ==> s == StatusLine(500, "Internal Error")
    ensures err.response.Some? ==> s == err.response.value
  {
    err.response.GetOr(StatusLine(500, "Internal Error"))
  }

  predicate Truthy(o: Option<string>) {
    o.Some? && o.value != ""
  }

  /** `(isResp && err.data?.message) || (err instanceof Error ? err.message : undefined) || default`. */
  function MessageOf(err: Thrown): (m: string)
    ensures m != ""
  {
    if err.response.Some? && Truthy(err.dataMessage) then err.dataMessage.value
    else if Truthy(err.errorMessage) then err.errorMessage.value
    else DefaultMessage
  }

  /** The message is the response's data message if non-empty, else the
      error's message if non-empty, else the default text: an empty string
      falls through to the next choice. */
  lemma MessageChoice(err: Thrown)
    ensures err.response.Some? && Truthy(err.dataMessage) ==> MessageOf(err) == err.dataMessage.value
    ensures !(err.response.Some? && Truthy(err.dataMessage)) && Truthy(err.errorMessage) ==>
            MessageOf(err) == err.errorMessage.value
    ensures !(err.response.Some? && Truthy(err.dataMessage)) && !Truthy(err.errorMessage) ==>
            MessageOf(err) == DefaultMessage
    ensures err.response.None? ==> MessageOf(err) == MessageOf(err.(dataMessage := None))
  {
  }

  /** `site?.contact?.phone ?? "610-000-0000"`: only a missing config falls
      back; an empty phone stays empty. */
  function PhoneOf(site: Option<SiteConfig>): (p: string)
    ensures site.Some? ==> p == site.value.contact.phone
    ensures site.None? ==> p == "610-000-0000"
  {
    if site.Some? then site.value.contact.phone else "610-000-0000"
  }

  /** `site?.contact?.email ?? "info@example.org"`. */
  function EmailOf(site: Option<SiteConfig>): (e: string)
    ensures site.Some? && site.value.contact.email.Some? ==> e == site.value.contact.email.value
    ensures site.None? || site.value.contact.email.None? ==> e == "info@example.org"
  {
    if site.Some? && site.value.contact.email.Some? then site.value.contact.email.value else "info@example.org"
  }

  /** An empty configured phone or e-mail is kept as it is, because `??`
      only replaces a missing value. */
  lemma EmptyContactKept(site: SiteConfig)
    requires site.contact.phone == "" && site.contact.email == Some("")
    ensures PhoneOf(Some(site)) == "" && EmailOf(Some(site)) == ""
  {
  }

  /** The location parts the report quotes. */
  datatype Location = Location(origin: string, pathname: string, search: string, hash: string)

  /** The five lines of the report, before joining. */
  function ReportLines(loc: Location, s: StatusLine, message: string): (r: seq<string>)
    ensures |r| == 5
    ensures r[0] == "HBWA website error report" && |r[1]| == 32
    ensures forall i :: 0 <= i < |r[1]| ==> r[1][i] == '-'
    ensures r[2] == "URL: " + loc.origin + loc.pathname + loc.search + loc.hash
    ensures r[3] == "Status: " + IntToString(s.status) + " " + s.statusText
    ensures r[4] == "Message: " + message
  {
    ["HBWA website error report",
     "--------------------------------",
     "URL: " + loc.origin + loc.pathname + loc.search + loc.hash,
     "Status: " + IntToString(s.status) + " " + s.statusText,
     "Message: " + message]
  }

  /** The e-mail body before encoding: the lines joined with "\n". */
  function ReportBody(loc: Location, s: StatusLine, message: string): string {
    Join(ReportLines(loc, s, message), "\n")
  }

  lemma NoNewline(a: string, b: string)
    requires '\n' !in a && '\n' !in b
    ensures '\n' !in a + b
  {
  }

  /** When no quoted part holds a line break, the body splits back into
      exactly its five lines. */
  lemma ReportBodySplits(loc: Location, s: StatusLine, message: string)
    requires '\n' !in loc.origin + loc.pathname + loc.search + loc.hash
    requires '\n' !in s.statusText && '\n' !in message
    ensures Split(ReportBody(loc, s, message), '\n') == ReportLines(loc, s, message)
  {
    var r := ReportLines(loc, s, message);
    assert '\n' !in IntToString(s.status);
    assert '\n' !in r[3] by {
      NoNewline("Status: " + IntToString(s.status) + " ", s.statusText);
    }
    assert '\n' !in r[2] by {
      NoNewline("URL: ", loc.origin + loc.pathname + loc.search + loc.hash);
      assert r[2] == "URL: " + (loc.origin + loc.pathname + loc.search + loc.hash);
    }
    assert '\n' !in r[4] by {
      NoNewline("Message: ", message);
    }
    forall i | 0 <= i < 5 ensures '\n' !in r[i] {
      if i == 0 || i == 1 {
        assert forall k :: 0 <= k < |r[i]| ==> r[i][k] != '\n';
      }
    }
    SplitJoin(r, '\n');
  }

  /** What the page renders. */
  datatype View =
    | NotFoundPage
    | ErrorView(
        status: StatusLine,
        message: string,
        phone: string,
        telHref: string,
        mailto: string)

  /** The component. */
  function Page(err: Thrown, site: Option<SiteConfig>, loc: Location, encode: string -> string): (v: View)
    ensures v.NotFoundPage? <==> StatusOf(err).status == 404
    ensures v.ErrorView? ==>
      v.status == StatusOf(err) && v.message == MessageOf(err) &&
      v.phone == PhoneOf(site) && v.telHref == Phone.TelHref(PhoneOf(site)) &&
      v.mailto == "mailto:" + EmailOf(site) + "?subject=HBWA%20Website%20Error&body=" +
                  encode(ReportBody(loc, StatusOf(err), MessageOf(err)))
  {
    var s := StatusOf(err);
    if s.status == 404 then NotFoundPage
    else
      var phone := PhoneOf(site);
      var body := encode(Join(ReportLines(loc, s, MessageOf(err)), "\n"));
      ErrorView(s, MessageOf(err), phone, Phone.TelHref(phone),
                "mailto:" + EmailOf(site) + "?subject=HBWA%20Website%20Error&body=" + body)
  }

  /** A thrown value that is not a route response is reported as a 500, so
      it is never handed to the not-found page. */
  lemma NonResponseIsServerError(err: Thrown, site: Option<SiteConfig>, loc: Location, encode: string -> string)
    requires err.response.None?
    ensures Page(err, site, loc, encode).ErrorView?
    ensures Page(err, site, loc, encode).status == StatusLine(500, "Internal Error")
  {
  }
}
