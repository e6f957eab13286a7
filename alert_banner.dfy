/** `src/components/GlobalAlertBanner.tsx`: the site-wide banner for the
    active alerts. It picks a mode and a primary alert, summarises the
    chosen alerts in a signature string, and remembers a dismissal in
    session storage for as long as that signature stays the same. */
module AlertBanner {
  import opened Wrappers
  import opened Seqs
  import opened Strings
  import opened Configs
  import Alerts

  /** The banner's own copy of `isActive`. */
  predicate IsActive(a: Alert, ref: int) {
    var start := Alerts.Parse(Some(a.effectiveFrom));
    var end := Alerts.Parse(a.effectiveTo);
    if start.None? then false
    else if start.value.Millis? && start.value.ms > ref then false
    else if end.Some? && end.value.Millis? && end.value.ms < ref then false
    else true
  }

  /** The copy agrees with the alerts page on every alert and every time. */
  lemma IsActiveAgrees(a: Alert, ref: int)
    ensures IsActive(a, ref) == Alerts.IsActive(a, ref)
  {
  }

  function ActiveAt(ref: int): Alert -> bool {
    (a: Alert) => IsActive(a, ref)
  }

  datatype Mode = EmergencyMode | NoticeMode {
    function Name(): string {
      match this
      case EmergencyMode => "emergency"
      case NoticeMode => "notice"
    }
  }

  /** The `{ mode, signature, primary }` memo. */
  datatype Selection = Selection(mode: Option<Mode>, signature: string, primary: Option<Alert>)

  /** `${a.id}:${a.lastUpdated ?? ""}`. */
  function Entry(a: Alert): string {
    a.id + ":" + a.lastUpdated.GetOr("")
  }

  function Entries(chosen: seq<Alert>): (r: seq<string>)
    ensures |r| == |chosen|
    ensures forall i :: 0 <= i < |chosen| ==> r[i] == Entry(chosen[i])
  {
    seq(|chosen|, i requires 0 <= i < |chosen| => Entry(chosen[i]))
  }

  /** `${mode}::` followed by the entries joined with `|`. */
  function Signature(m: Mode, chosen: seq<Alert>): string {
    m.Name() + "::" + Join(Entries(chosen), "|")
  }

  /** The chosen list: the active emergencies if any, else the active notices. */
  function Select(alerts: Option<seq<Alert>>, ref: int): Selection {
    if alerts.None? then Selection(None, "", None)
    else
      var active := Filter(alerts.value, ActiveAt(ref));
      var emergencies := Filter(active, Alerts.HasSeverity(Emergency));
      var notices := Filter(active, Alerts.HasSeverity(Notice));
      var chosen := if |emergencies| > 0 then emergencies else notices;
      var mode := if |emergencies| > 0 then Some(EmergencyMode)
                  else if |notices| > 0 then Some(NoticeMode) else None;
      Selection(
        mode,
        if mode.Some? then Signature(mode.value, chosen) else "",
        if |chosen| > 0 then Some(chosen[0]) else None)
  }

  predicate ActiveEmergency(ref: int, a: Alert) {
    IsActive(a, ref) && a.severity == Emergency
  }

  /** Any active emergency puts the banner in emergency mode, and the primary
      alert is the first active emergency of the list. */
  lemma EmergencyTakesPriority(alerts: seq<Alert>, ref: int, k: nat)
    requires k < |alerts| && ActiveEmergency(ref, alerts[k])
    ensures Select(Some(alerts), ref).mode == Some(EmergencyMode)
    ensures exists i :: 0 <= i < |alerts| && Select(Some(alerts), ref).primary == Some(alerts[i]) &&
                        ActiveEmergency(ref, alerts[i]) &&
                        forall j :: 0 <= j < i ==> !ActiveEmergency(ref, alerts[j])
  {
    var both := And(ActiveAt(ref), Alerts.HasSeverity(Emergency));
    FilterFilter(alerts, ActiveAt(ref), Alerts.HasSeverity(Emergency));
    FilterEmpty(alerts, both);
    assert both(alerts[k]);
    FilterFirst(alerts, both);
  }

  /** Without an active emergency, an active notice puts the banner in notice
      mode: the chosen list is the active notices in list order, the
      signature summarises them, and the primary is the first of them. */
  lemma NoticeModePrimary(alerts: seq<Alert>, ref: int, k: nat)
    requires k < |alerts| && IsActive(alerts[k], ref) && alerts[k].severity == Notice
    requires forall i :: 0 <= i < |alerts| ==> !ActiveEmergency(ref, alerts[i])
    ensures var notices := Filter(alerts, And(ActiveAt(ref), Alerts.HasSeverity(Notice)));
      |notices| > 0 &&
      Select(Some(alerts), ref) == Selection(Some(NoticeMode), Signature(NoticeMode, notices), Some(notices[0]))
    ensures exists i :: 0 <= i < |alerts| && Select(Some(alerts), ref).primary == Some(alerts[i]) &&
                        IsActive(alerts[i], ref) && alerts[i].severity == Notice &&
                        forall j :: 0 <= j < i ==> !(IsActive(alerts[j], ref) && alerts[j].severity == Notice)
  {
    var e := And(ActiveAt(ref), Alerts.HasSeverity(Emergency));
    var n := And(ActiveAt(ref), Alerts.HasSeverity(Notice));
    FilterFilter(alerts, ActiveAt(ref), Alerts.HasSeverity(Emergency));
    FilterFilter(alerts, ActiveAt(ref), Alerts.HasSeverity(Notice));
    FilterEmpty(alerts, e);
    FilterEmpty(alerts, n);
    assert n(alerts[k]);
    FilterFirst(alerts, n);
  }

  /** Notice mode means no active emergency and at least one active notice;
      no active alert at all means no mode, no primary and an empty signature. */
  lemma ModeCases(alerts: seq<Alert>, ref: int)
    ensures Select(Some(alerts), ref).mode == Some(NoticeMode) <==>
      (forall i :: 0 <= i < |alerts| ==> !ActiveEmergency(ref, alerts[i])) &&
      (exists i :: 0 <= i < |alerts| && IsActive(alerts[i], ref) && alerts[i].severity == Notice)
    ensures (forall i :: 0 <= i < |alerts| ==> !IsActive(alerts[i], ref)) ==>
      Select(Some(alerts), ref) == Selection(None, "", None)
  {
    var e := And(ActiveAt(ref), Alerts.HasSeverity(Emergency));
    var n := And(ActiveAt(ref), Alerts.HasSeverity(Notice));
    FilterFilter(alerts, ActiveAt(ref), Alerts.HasSeverity(Emergency));
    FilterFilter(alerts, ActiveAt(ref), Alerts.HasSeverity(Notice));
    FilterEmpty(alerts, e);
    FilterEmpty(alerts, n);
    if forall i :: 0 <= i < |alerts| ==> !IsActive(alerts[i], ref) {
      FilterEmpty(alerts, ActiveAt(ref));
    }
  }

  /** A mode comes with a primary alert and a non-empty signature. */
  lemma ModeHasPrimary(alerts: Option<seq<Alert>>, ref: int)
    ensures Select(alerts, ref).mode.Some? <==> Select(alerts, ref).primary.Some?
    ensures Select(alerts, ref).mode.Some? <==> Select(alerts, ref).signature != ""
  {
  }

  /** Prefix of a signature. */
  lemma SignatureHead(m: Mode, chosen: seq<Alert>)
    ensures Signature(m, chosen)[..|m.Name()| + 2] == m.Name() + "::"
    ensures Signature(m, chosen)[|m.Name()| + 2..] == Join(Entries(chosen), "|")
  {
  }

  /** The signature determines the mode, and, for ids without `:` or `|` and
      lastUpdated values without `|`, every id and lastUpdated of the chosen
      list, in order: a changed list gives a changed signature. */
  lemma SignatureInjective(m1: Mode, c1: seq<Alert>, m2: Mode, c2: seq<Alert>)
    requires |c1| > 0 && |c2| > 0
    requires forall a :: a in c1 || a in c2 ==> ':' !in a.id && '|' !in a.id && '|' !in a.lastUpdated.GetOr("")
    requires Signature(m1, c1) == Signature(m2, c2)
    ensures m1 == m2 && |c1| == |c2|
    ensures forall i :: 0 <= i < |c1| ==> c1[i].id == c2[i].id && c1[i].lastUpdated.GetOr("") == c2[i].lastUpdated.GetOr("")
  {
    SignatureHead(m1, c1);
    SignatureHead(m2, c2);
    assert Signature(m1, c1)[0] == m1.Name()[0];
    assert Signature(m2, c2)[0] == m2.Name()[0];
    var e1, e2 := Entries(c1), Entries(c2);
    forall i | 0 <= i < |e1| ensures '|' !in e1[i] {
      assert c1[i] in c1;
    }
    forall i | 0 <= i < |e2| ensures '|' !in e2[i] {
      assert c2[i] in c2;
    }
    SplitJoin(e1, '|');
    SplitJoin(e2, '|');
    assert m1 == m2;
    assert Join(e1, "|") == Join(e2, "|");
    assert e1 == e2;
    forall i | 0 <= i < |c1| ensures c1[i].id == c2[i].id && c1[i].lastUpdated.GetOr("") == c2[i].lastUpdated.GetOr("") {
      assert c1[i] in c1 && c2[i] in c2;
      assert Entry(c1[i]) == e1[i] == e2[i] == Entry(c2[i]);
      EntryInjective(c1[i], c2[i]);
    }
  }

  /** One entry determines its id and lastUpdated when the id has no `:`. */
  lemma EntryInjective(a: Alert, b: Alert)
    requires ':' !in a.id && ':' !in b.id && Entry(a) == Entry(b)
    ensures a.id == b.id && a.lastUpdated.GetOr("") == b.lastUpdated.GetOr("")
  {
    var la, lb := a.lastUpdated.GetOr(""), b.lastUpdated.GetOr("");
    SplitAtFirst(a.id, ':', la);
    SplitAtFirst(b.id, ':', lb);
    assert Entry(a) == a.id + [':'] + la && Entry(b) == b.id + [':'] + lb;
    assert Split(Entry(a), ':')[0] == a.id;
    assert Split(Entry(b), ':')[0] == b.id;
    assert Entry(a)[|a.id| + 1..] == la;
    assert Entry(b)[|b.id| + 1..] == lb;
  }

  // ---- dismissal ------------------------------------------------------------

  const StorageKey := "hbwa.alertBanner.dismissed"

  /** JavaScript truthiness of a `string | null`. */
  predicate Truthy(s: Option<string>) {
    s.Some? && s.value != ""
  }

  /** The value of `dismissedSig` after the reconcile effect. */
  function Reconciled(signature: string, dismissed: Option<string>): (r: Option<string>)
    ensures r == dismissed || r == None
    ensures r == None && dismissed.Some? ==> signature != "" && dismissed.value != signature
  {
    if signature != "" && Truthy(dismissed) && dismissed.value != signature then None else dismissed
  }

  /** Running the effect again changes nothing: it settles in one step. */
  lemma ReconcileIdempotent(signature: string, dismissed: Option<string>)
    ensures Reconciled(signature, Reconciled(signature, dismissed)) == Reconciled(signature, dismissed)
  {
  }

  /** The value of `dismissedSig` after `dismiss`. */
  function Dismissed(signature: string, dismissed: Option<string>): (r: Option<string>)
    ensures signature == "" ==> r == dismissed
    ensures signature != "" ==> r == Some(signature)
  {
    if signature == "" then dismissed else Some(signature)
  }

  /** `if (isLoading || error) return null; if (!mode || !primary) return null;
      if (dismissedSig === signature) return null;` */
  predicate Visible(isLoading: bool, error: Option<string>, sel: Selection, dismissed: Option<string>) {
    !isLoading && !Truthy(error) && sel.mode.Some? && sel.primary.Some? && dismissed != Some(sel.signature)
  }

  /** Dismissing hides the banner, and the reconcile effect keeps it hidden
      while the signature stays the same. */
  lemma DismissHides(isLoading: bool, error: Option<string>, sel: Selection, dismissed: Option<string>)
    requires sel.signature != ""
    ensures !Visible(isLoading, error, sel, Reconciled(sel.signature, Dismissed(sel.signature, dismissed)))
  {
  }

  /** A new set of alerts, with a different signature, clears the dismissal
      and shows the banner again. */
  lemma NewSignatureShowsAgain(sel: Selection, old_sig: string, dismissed: Option<string>)
    requires old_sig != "" && sel.signature != old_sig && sel.mode.Some? && sel.primary.Some? && sel.signature != ""
    ensures Reconciled(sel.signature, Dismissed(old_sig, dismissed)) == None
    ensures Visible(false, None, sel, Reconciled(sel.signature, Dismissed(old_sig, dismissed)))
  {
  }

  /** The banner heading for each mode. */
  function Label(m: Mode): (s: string)
    ensures m == EmergencyMode <==> s == "Active Emergency Notice"
  {
    if m == EmergencyMode then "Active Emergency Notice" else "Active Non-Emergency Notice"
  }

  /** The component's state: `dismissedSig` and the session-storage slot.
      `storageAvailable` is false where `sessionStorage` throws, in which
      case every storage access is skipped as the `try`/`catch` does. */
  class Banner {
    var dismissedSig: Option<string>
    var session: map<string, string>
    const storageAvailable: bool

    constructor (session0: map<string, string>, storageAvailable: bool)
      ensures dismissedSig == None && session == session0 && this.storageAvailable == storageAvailable
    {
      dismissedSig := None;
      session := session0;
      this.storageAvailable := storageAvailable;
    }

    /** The mount effect: read the saved dismissal. */
    method Load()
      modifies this
      ensures storageAvailable ==> dismissedSig == (if StorageKey in session then Some(session[StorageKey]) else None)
      ensures !storageAvailable ==> dismissedSig == old(dismissedSig)
      ensures session == old(session)
    {
      if storageAvailable {
        dismissedSig := if StorageKey in session then Some(session[StorageKey]) else None;
      }
    }

    /** The reconcile effect: forget a dismissal of a different, non-empty signature. */
    method Reconcile(signature: string)
      modifies this
      ensures dismissedSig == Reconciled(signature, old(dismissedSig))
      ensures dismissedSig == old(dismissedSig) ==> session == old(session)
      ensures dismissedSig != old(dismissedSig) ==>
        session == (if storageAvailable then old(session) - {StorageKey} else old(session))
    {
      if signature != "" && Truthy(dismissedSig) && dismissedSig.value != signature {
        if storageAvailable {
          session := session - {StorageKey};
        }
        dismissedSig := None;
      }
    }

    /** `dismiss()`: remember the current signature. */
    method Dismiss(signature: string)
      modifies this
      ensures dismissedSig == Dismissed(signature, old(dismissedSig))
      ensures signature == "" ==> session == old(session)
      ensures signature != "" ==>
        session == (if storageAvailable then old(session)[StorageKey := signature] else old(session))
    {
      if signature == "" {
        return;
      }
      if storageAvailable {
        session := session[StorageKey := signature];
      }
      dismissedSig := Some(signature);
    }
  }

  /** A dismissal survives a reload of the page, when storage works: after
      `Dismiss` and a fresh `Load` from the same storage, the banner stays hidden. */
  method DismissThenReload(signature: string, session0: map<string, string>) returns (b: Banner)
    requires signature != ""
    ensures b.dismissedSig == Some(signature)
  {
    var first := new Banner(session0, true);
    first.Dismiss(signature);
    b := new Banner(first.session, true);
    b.Load();
    b.Reconcile(signature);
  }
}
