/** The contact page's logic (`src/pages/Contacts.tsx`): loading the contact
    row, the fallback values computed for empty fields, the digits-only
    WhatsApp link, and the two contact cards, which show a field only when
    the stored value is non-empty. */
module Contacts {
  import opened Js
  import opened Text

  /** The contact row: both fields may be `null`. */
  datatype ContactInfo = ContactInfo(whatsappNumber: Nullable<string>, email: Nullable<string>)

  datatype PageState = PageState(info: ContactInfo, loading: bool, error: Nullable<string>)

  const InitialPage: PageState := PageState(ContactInfo(Null, Null), true, Null)

  const NotConfiguredMessage: string := "Supabase is not configured. Contact information cannot be loaded."
  const FetchFallbackMessage: string := "Failed to load contact information"

  /** The code the database service reports when `.single()` finds no row. */
  const NoRowsCode: string := "PGRST116"

  const DefaultWhatsApp: string := "+1234567890"
  const DefaultEmail: string := "contact@templevista.com"

  datatype FetchError = FetchError(code: Nullable<string>, message: Nullable<string>)

  /** The answer to the contact query: a row or none, and an error or none. */
  datatype ContactAnswer = ContactAnswer(data: Nullable<ContactInfo>, error: Nullable<FetchError>)

  /** `fetchContactInfo()`: without configuration, report it and stop;
      otherwise an error other than "no rows" is reported (its message, or
      the fallback text) and the row is ignored, while a row is shown when
      there is one. Loading is over on every path. */
  function FetchContactInfo(configured: bool, st: PageState, answer: ContactAnswer): (r: PageState)
    ensures !r.loading
    ensures !configured ==> r == st.(loading := false, error := Some(NotConfiguredMessage))
    ensures configured && answer.error.Some? && answer.error.value.code != Some(NoRowsCode) ==>
      r.info == st.info && r.error == Some(Or(answer.error.value.message, FetchFallbackMessage))
    ensures configured && (answer.error.Null? || answer.error.value.code == Some(NoRowsCode)) ==>
      r.error == st.error && (answer.data.Some? ==> r.info == answer.data.value)
        && (answer.data.Null? ==> r.info == st.info)
  {
    if !configured then
      st.(error := Some(NotConfiguredMessage), loading := false)
    else if answer.error.Some? && answer.error.value.code != Some(NoRowsCode) then
      st.(error := Some(Or(answer.error.value.message, FetchFallbackMessage)), loading := false)
    else if answer.data.Some? then
      st.(info := answer.data.value, loading := false)
    else
      st.(loading := false)
  }

  /** Without configuration no query is made: the outcome does not depend on
      any answer. */
  lemma UnconfiguredIgnoresAnswer(st: PageState, a1: ContactAnswer, a2: ContactAnswer)
    ensures FetchContactInfo(false, st, a1) == FetchContactInfo(false, st, a2)
    ensures FetchContactInfo(false, st, a1).info == st.info
  {
  }

  /** From the initial page, the fetch reports an error exactly when the
      backend is not configured or answers with an error other than "no
      rows"; loading is over either way. */
  lemma FetchErrorExactly(configured: bool, answer: ContactAnswer)
    ensures var r := FetchContactInfo(configured, InitialPage, answer);
      r.error.Some? <==>
        !configured || (answer.error.Some? && answer.error.value.code != Some(NoRowsCode))
  {
  }

  /** A "no rows" answer from the initial page leaves no error and the empty
      contact info, so both cards say their field is not available. */
  lemma NoRowsIsNotAnError(message: Nullable<string>)
    ensures var r := FetchContactInfo(true, InitialPage, ContactAnswer(Null, Some(FetchError(Some(NoRowsCode), message))));
      r.error == Null && r.info == InitialPage.info && !r.loading
      && WhatsAppCard(r.info) == NotAvailable && EmailCard(r.info) == NotAvailable
  {
  }

  /** The value of `whatsappNumber`: the stored number, or the default when
      it is `null` or empty. */
  function WhatsAppNumber(info: ContactInfo): (n: string)
    ensures Truthy(info.whatsappNumber) ==> n == info.whatsappNumber.value
    ensures !Truthy(info.whatsappNumber) ==> n == DefaultWhatsApp
  {
    Or(info.whatsappNumber, DefaultWhatsApp)
  }

  /** The value of `emailAddress`: the stored address, or the default when
      it is `null` or empty. */
  function EmailAddress(info: ContactInfo): (e: string)
    ensures Truthy(info.email) ==> e == info.email.value
    ensures !Truthy(info.email) ==> e == DefaultEmail
  {
    Or(info.email, DefaultEmail)
  }

  /** `number.replace(/[^0-9]/g, "")`: the digits of `s`, in order. */
  function DigitsOnly(s: string): (r: string)
    ensures AllDigits(r)
    ensures |r| <= |s|
    ensures AllDigits(s) ==> r == s
  {
    if |s| == 0 then ""
    else if IsDigit(s[0]) then [s[0]] + DigitsOnly(s[1..])
    else DigitsOnly(s[1..])
  }

  /** Stripping distributes over concatenation; together with its value on
      single characters (the character if a digit, nothing otherwise) this
      pins the function down: exactly the digits survive, in their order. */
  lemma {:induction false} DigitsOnlyAppend(a: string, b: string)
    ensures DigitsOnly(a + b) == DigitsOnly(a) + DigitsOnly(b)
    decreases |a|
  {
    if |a| > 0 {
      assert (a + b)[0] == a[0];
      assert (a + b)[1..] == a[1..] + b;
      DigitsOnlyAppend(a[1..], b);
    } else {
      assert a + b == b;
    }
  }

  lemma DigitsOnlySingle(c: char)
    ensures DigitsOnly([c]) == if IsDigit(c) then [c] else []
  {
  }

  /** Stripping twice is stripping once. */
  lemma DigitsOnlyIdempotent(s: string)
    ensures DigitsOnly(DigitsOnly(s)) == DigitsOnly(s)
  {
  }

  /** Every digit keeps its number of occurrences; nothing else survives. */
  lemma {:induction false} DigitsOnlyCounts(s: string)
    ensures forall c :: IsDigit(c) ==> multiset(DigitsOnly(s))[c] == multiset(s)[c]
    ensures forall c :: !IsDigit(c) ==> multiset(DigitsOnly(s))[c] == 0
    decreases |s|
  {
    if |s| > 0 {
      DigitsOnlyCounts(s[1..]);
      assert s == [s[0]] + s[1..];
    }
  }

  /** The WhatsApp link of the page: the chat host followed by only the
      digits of `whatsappNumber`. */
  function WhatsAppLink(info: ContactInfo): (link: string)
    ensures link == "https://wa.me/" + DigitsOnly(WhatsAppNumber(info))
    ensures |link| >= |"https://wa.me/"| && link[..|"https://wa.me/"|] == "https://wa.me/"
    ensures AllDigits(link[|"https://wa.me/"|..])
  {
    var digits := DigitsOnly(WhatsAppNumber(info));
    assert ("https://wa.me/" + digits)[|"https://wa.me/"|..] == digits;
    "https://wa.me/" + digits
  }

  /** What a contact card shows: the value with its link, or the
      "not available" note. */
  datatype Card = Shown(text: string, link: string) | NotAvailable

  /** The WhatsApp card: the number and its chat link when the stored
      number is non-empty, the note otherwise. */
  function WhatsAppCard(info: ContactInfo): (c: Card)
    ensures c.Shown? <==> Truthy(info.whatsappNumber)
    ensures c.Shown? ==> c == Shown(WhatsAppNumber(info), WhatsAppLink(info))
  {
    if Truthy(info.whatsappNumber) then Shown(WhatsAppNumber(info), WhatsAppLink(info)) else NotAvailable
  }

  /** The email card: the address and its `mailto:` link when the stored
      address is non-empty, the note otherwise. */
  function EmailCard(info: ContactInfo): (c: Card)
    ensures c.Shown? <==> Truthy(info.email)
    ensures c.Shown? ==> c == Shown(EmailAddress(info), "mailto:" + EmailAddress(info))
  {
    if Truthy(info.email) then Shown(EmailAddress(info), "mailto:" + EmailAddress(info)) else NotAvailable
  }

  /** The default number and address never reach the page: whenever a card
      shows a value, it is the stored one, and the WhatsApp link carries the
      stored number's digits. The fallbacks only matter where the cards
      hide them. */
  lemma DefaultsNeverShown(info: ContactInfo)
    ensures WhatsAppCard(info).Shown? ==>
      && WhatsAppCard(info).text == info.whatsappNumber.value
      && WhatsAppCard(info).link == "https://wa.me/" + DigitsOnly(info.whatsappNumber.value)
    ensures EmailCard(info).Shown? ==>
      EmailCard(info) == Shown(info.email.value, "mailto:" + info.email.value)
  {
  }
}
