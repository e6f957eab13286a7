/** The `tel:` link builder shared by the error page and the emergency
    contact box: `phone.replace(/[^\d+]/g, "")` keeps ASCII digits and `+`. */
module Phone {
  import opened Seqs

  /** What the regular expression spares: `\d` (ASCII digits, no `u` flag) or `+`. */
  predicate Dialable(c: char) {
    '0' <= c <= '9' || c == '+'
  }

  /** The phone number with every other character removed. */
  function Sanitize(phone: string): (r: string)
    ensures |r| <= |phone|
    ensures forall i :: 0 <= i < |r| ==> Dialable(r[i])
  {
    Filter(phone, Dialable)
  }

  /** Exactly the dialable characters are kept, each as often as it occurs
      and in the original order. */
  lemma SanitizeKeeps(phone: string)
    ensures forall c :: c in Sanitize(phone) <==> c in phone && Dialable(c)
    ensures forall c :: Dialable(c) ==> multiset(Sanitize(phone))[c] == multiset(phone)[c]
    ensures IsSubsequence(Sanitize(phone), phone)
  {
    FilterContents(phone, Dialable);
    FilterIsSubsequence(phone, Dialable);
    forall c | Dialable(c) ensures multiset(Sanitize(phone))[c] == multiset(phone)[c] {
      FilterCount(phone, Dialable, c);
    }
  }

  /** A sanitised number is left as it is; a number already made of digits
      and `+` needs no sanitising. */
  lemma SanitizeIdempotent(phone: string)
    ensures Sanitize(Sanitize(phone)) == Sanitize(phone)
    ensures (forall i :: 0 <= i < |phone| ==> Dialable(phone[i])) ==> Sanitize(phone) == phone
  {
    FilterIdempotent(phone, Dialable);
    if forall i :: 0 <= i < |phone| ==> Dialable(phone[i]) {
      FilterAllPass(phone, Dialable);
    }
  }

  /** `tel:${…}`. */
  function TelHref(phone: string): (href: string)
    ensures |href| >= 4 && href[..4] == "tel:" && href[4..] == Sanitize(phone)
  {
    "tel:" + Sanitize(phone)
  }

  /** Two numbers that differ only in punctuation dial the same `tel:` link. */
  lemma PunctuationIgnored(a: string, b: string, sep: char)
    requires !Dialable(sep)
    ensures TelHref(a + [sep] + b) == TelHref(a + b)
  {
    FilterAppend(a + [sep], b, Dialable);
    FilterAppend(a, [sep], Dialable);
    FilterAppend(a, b, Dialable);
    assert Filter([sep], Dialable) == [];
  }
}
