/** Deep links built from the office's contact fields: the WhatsApp chat link
    `waLink` and the `tel:` link of the display phone. */
module Links {
  import opened Text
  import opened UriComponent

  const ChatBase := "https://wa.me/"
  const QueryKey := "?text="
  const TelScheme := "tel:"

  /** `text || ''`: a missing message counts as the empty one. */
  function TextOrEmpty(text: Option<string>): string {
    match text
    case Some(t) => t
    case None => ""
  }

  /** `waLink(waNumber, text)`: the digits of the contact id after the chat
      base, and the encoded message as a `text` query parameter only when the
      encoding is non-empty. */
  function WaLink(waNumber: string, text: Option<string>): (r: string)
    ensures |ChatBase| <= |r| && r[..|ChatBase|] == ChatBase
  {
    var base := ChatBase + Keep(waNumber, IsDigit);
    var msg := EncodeComponent(TextOrEmpty(text));
    if msg != [] then base + QueryKey + msg else base
  }

  /** What a chat link addresses: the contact digits and, if any, the
      pre-filled message. */
  datatype ChatTarget = ChatTarget(contact: string, message: Option<string>)

  /** Reads a chat link back: the path up to the first `?`, then a `text`
      parameter that must percent-decode. */
  function ParseWaLink(url: string): Option<ChatTarget> {
    if |url| < |ChatBase| || url[..|ChatBase|] != ChatBase then None
    else
      var rest := url[|ChatBase|..];
      if '?' !in rest then Some(ChatTarget(rest, None))
      else
        var q := FirstIndex(rest, '?');
        var query := rest[q..];
        if |query| < |QueryKey| || query[..|QueryKey|] != QueryKey then None
        else match DecodeComponent(query[|QueryKey|..])
          case None => None
          case Some(m) => Some(ChatTarget(rest[..q], Some(m)))
  }

  lemma DigitsHaveNoQuestionMark(d: string)
    requires forall i :: 0 <= i < |d| ==> IsDigit(d[i])
    ensures '?' !in d
  {
  }

  /** A chat link carries a query exactly when the message is non-empty, and
      a missing message behaves as the empty one. */
  lemma WaLinkQuery(waNumber: string, text: Option<string>)
    ensures '?' in WaLink(waNumber, text) <==> TextOrEmpty(text) != ""
    ensures WaLink(waNumber, None) == WaLink(waNumber, Some(""))
    ensures TextOrEmpty(text) == "" ==> WaLink(waNumber, text) == ChatBase + Keep(waNumber, IsDigit)
  {
  }

  /** A link without a query reads back as its digits and no message. */
  lemma ParsePlainLink(digits: string)
    requires AllDigits(digits)
    ensures ParseWaLink(ChatBase + digits) == Some(ChatTarget(digits, None))
  {
  }

  /** A link with a query reads back as its digits and the decoded query. */
  lemma ParseQueryLink(digits: string, msg: string)
    requires AllDigits(digits)
    ensures ParseWaLink(ChatBase + digits + QueryKey + msg)
      == match DecodeComponent(msg)
         case None => None
         case Some(m) => Some(ChatTarget(digits, Some(m)))
  {
    DigitsHaveNoQuestionMark(digits);
    var url := ChatBase + digits + QueryKey + msg;
    var rest := digits + QueryKey + msg;
    assert url == ChatBase + rest;
    assert url[..|ChatBase|] == ChatBase;
    assert url[|ChatBase|..] == rest;
    assert rest[|digits|] == '?';
    var q := FirstIndex(rest, '?');
    assert q == |digits| by {
      assert forall j :: 0 <= j < |digits| ==> rest[j] == digits[j];
    }
    assert rest[..q] == digits;
    assert rest[q..] == QueryKey + msg;
    assert (QueryKey + msg)[|QueryKey|..] == msg;
  }

  /** Reading a chat link back gives the in-order digits of the contact id
      (everything else dropped) and the message, which is absent exactly when
      it was missing or empty. */
  lemma WaLinkRoundTrip(waNumber: string, text: Option<string>)
    ensures ParseWaLink(WaLink(waNumber, text))
      == Some(ChatTarget(Keep(waNumber, IsDigit),
                         if TextOrEmpty(text) == "" then None else Some(TextOrEmpty(text))))
  {
    var digits := Keep(waNumber, IsDigit);
    var t := TextOrEmpty(text);
    if t != "" {
      ParseQueryLink(digits, EncodeComponent(t));
      DecodeEncode(t);
    } else {
      ParsePlainLink(digits);
    }
  }

  function NotWhitespace(c: char): bool {
    !IsJsWhitespace(c)
  }

  /** `'tel:' + phone.replace(/\s/g, '')`. */
  function TelLink(phone: string): (r: string)
    ensures |TelScheme| <= |r| && r[..|TelScheme|] == TelScheme
    ensures forall i :: |TelScheme| <= i < |r| ==> !IsJsWhitespace(r[i])
  {
    TelScheme + Keep(phone, NotWhitespace)
  }

  /** The number in a `tel:` link keeps every other character of the display
      phone in order; stripping is idempotent, and a phone without whitespace
      is used as it is. */
  lemma TelLinkStrip(phone: string, c: char)
    ensures var number := TelLink(phone)[|TelScheme|..];
      && number == Keep(phone, NotWhitespace)
      && (c in number <==> c in phone && !IsJsWhitespace(c))
      && TelLink(number) == TelLink(phone)
    ensures (forall i :: 0 <= i < |phone| ==> !IsJsWhitespace(phone[i])) ==> TelLink(phone) == TelScheme + phone
  {
    var number := Keep(phone, NotWhitespace);
    assert TelLink(phone)[|TelScheme|..] == number;
    KeepMembers(phone, NotWhitespace, c);
    KeepIdempotent(phone, NotWhitespace);
    if forall i :: 0 <= i < |phone| ==> !IsJsWhitespace(phone[i]) {
      KeepAccepted(phone, NotWhitespace);
    }
  }
}
