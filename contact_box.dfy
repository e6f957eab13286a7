/** `src/components/alert/ContactBox.tsx`: the emergency contact box. */
module ContactBox {
  import opened Wrappers
  import opened Configs
  import Phone

  const FallbackPhone := "(610) 273-7830"

  /** `data?.contact.phone || "(610) 273-7830"`: a missing site config or an
      empty phone number gives the office number. */
  function PhoneShown(data: Option<SiteConfig>): (phone: string)
    ensures phone != ""
    ensures data.Some? && data.value.contact.phone != "" ==> phone == data.value.contact.phone
    ensures data.None? || data.value.contact.phone == "" ==> phone == FallbackPhone
  {
    if data.Some? && data.value.contact.phone != "" then data.value.contact.phone else FallbackPhone
  }

  /** The link and its label. */
  datatype CallLink = CallLink(href: string, ariaLabel: string, text: string)

  function Box(data: Option<SiteConfig>): (link: CallLink)
    ensures link.href == Phone.TelHref(PhoneShown(data))
    ensures link.ariaLabel == "Call " + link.text && link.text == PhoneShown(data)
  {
    var phone := PhoneShown(data);
    CallLink(Phone.TelHref(phone), "Call " + phone, phone)
  }
}
