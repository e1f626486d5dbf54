/** `propCard(p, type, office)`: the fields a property card computes from its
    listing, modelled as a record rather than as the markup they are
    interpolated into. */
module Card {
  import opened Text
  import opened Decimal
  import opened Currency
  import opened UriComponent
  import opened Links
  import opened Icons
  import opened Listing

  const PerMonth := "/mes"
  const SaleBadge := "Venta"
  const RentBadge := "Arriendo"
  /** The em dash shown for a missing count. */
  const Placeholder := "\U{2014}"
  const NoHighlight := "Consultar detalles"
  const SaleIntro := "Hola, me interesa la propiedad "
  const RentIntro := "Hola, quiero consultar por arriendo "
  const SaleClose := ". ¿Me compartes más info?"
  const RentClose := ". ¿Disponibilidad y requisitos?"

  /** One detail badge: the icon key, its glyph and the text after it. */
  datatype Badge = Badge(key: string, glyph: string, text: string)

  /** The computed content of one card. */
  datatype Card = Card(
    modeBadge: string,
    image: string,
    title: string,
    location: string,
    locationGlyph: string,
    price: string,
    badges: seq<Badge>,
    highlight: string,
    chatLink: string,
    copyId: string)

  /** `type === 'sale'`: every other mode string is a rental. */
  predicate IsSale(mode: string) {
    mode == "sale"
  }

  /** The price line: the sale price for sales, the monthly price with a
      `/mes` suffix otherwise. */
  function PriceLabel(p: Property, mode: string): (r: string)
    ensures 2 <= |r| && r[0] == '$'
    ensures EndsWith(r, PerMonth) <==> !IsSale(mode)
  {
    if IsSale(mode) then
      FormatClpNotPerMonth(p.priceClp);
      FormatClp(p.priceClp)
    else
      var f := FormatClp(p.priceClpMonth);
      assert (f + PerMonth)[|f|..] == PerMonth;
      f + PerMonth
  }

  /** The outreach message: an opening that depends on the mode, then the
      listing's id, title and location. */
  function Message(p: Property, mode: string): (r: string)
    ensures IsInfix(p.id, r) && IsInfix(p.title, r) && IsInfix(p.location, r)
  {
    var intro := if IsSale(mode) then SaleIntro else RentIntro;
    var close := if IsSale(mode) then SaleClose else RentClose;
    SlotsMentioned(intro, p.id, p.title, p.location, close);
    intro + p.id + " (" + p.title + ") en " + p.location + close
  }

  /** `${v ?? '—'}`. */
  function CountOrPlaceholder(v: Option<int>): string {
    match v
    case Some(n) => IntToDecimal(n)
    case None => Placeholder
  }

  /** The four detail badges; a missing `details` object reads as one with
      no fields. */
  function DetailBadges(details: Option<Details>): (bs: seq<Badge>)
    ensures |bs| == 4
  {
    var d := details.OrElse(NoDetails);
    [ Badge("bed", Icon("bed"), CountOrPlaceholder(d.dorms) + "D"),
      Badge("bath", Icon("bath"), CountOrPlaceholder(d.baths) + "B"),
      Badge("area", Icon("area"), CountOrPlaceholder(d.areaM2) + " m\U{B2}"),
      Badge("park", Icon("park"), IntToDecimal(d.parking.OrElse(0)) + " est.") ]
  }

  /** The teaser: the first highlight when there is a list whose first entry
      is a non-empty string, the generic prompt otherwise. */
  function Highlight(highlights: Option<seq<string>>): (r: string)
    ensures r != ""
  {
    if highlights.Some? && |highlights.value| > 0 && highlights.value[0] != "" then highlights.value[0]
    else NoHighlight
  }

  /** The card of one listing. The mode badge, the price line and the chat
      link follow the mode; the id, title and location are carried over. */
  function PropCard(p: Property, mode: string, office: Office): (c: Card)
    ensures c.modeBadge == (if IsSale(mode) then SaleBadge else RentBadge)
    ensures EndsWith(c.price, PerMonth) <==> !IsSale(mode)
    ensures c.copyId == p.id && c.title == p.title && c.location == p.location
    ensures c.locationGlyph == Pin
    ensures |c.badges| == 4 && c.highlight != ""
    ensures |ChatBase| <= |c.chatLink| && c.chatLink[..|ChatBase|] == ChatBase
  {
    Card(
      if IsSale(mode) then SaleBadge else RentBadge,
      p.image,
      p.title,
      p.location,
      Icon("pin"),
      PriceLabel(p, mode),
      DetailBadges(p.details),
      Highlight(p.highlights),
      WaLink(office.whatsapp, Some(Message(p, mode))),
      p.id)
  }

  /** `s` is a `$` amount whose digits, once the separators are dropped,
      spell `n`. */
  ghost predicate ShowsAmount(s: string, n: nat) {
    && 1 <= |s| && s[0] == '$'
    && AllDigits(Keep(s[1..], NotDot))
    && DecimalValue(Keep(s[1..], NotDot)) == n
  }

  predicate EndsWith(s: string, suffix: string) {
    |suffix| <= |s| && s[|s| - |suffix|..] == suffix
  }

  /** A formatted amount never ends in `/mes`: its last character is a digit,
      a separator, or the `d` of `$undefined`. */
  lemma FormatClpNotPerMonth(amount: Option<nat>)
    ensures !EndsWith(FormatClp(amount), PerMonth)
  {
    var r := FormatClp(amount);
    match amount
    case Some(n) =>
      FormatClpCharset(n);
      assert IsDigit(r[|r| - 1]) || r[|r| - 1] == '.';
    case None =>
      FormatClpMissing();
  }

  /** The price shown is monthly (ends in `/mes`) exactly for rentals, and
      shows the sale price for sales and the monthly price for rentals. */
  lemma PriceLabelByMode(p: Property, mode: string)
    ensures EndsWith(PriceLabel(p, mode), PerMonth) <==> !IsSale(mode)
    ensures IsSale(mode) && p.priceClp.Some? ==> ShowsAmount(PriceLabel(p, mode), p.priceClp.value)
    ensures !IsSale(mode) && p.priceClpMonth.Some? ==>
      (var shown := PriceLabel(p, mode);
       ShowsAmount(shown[..|shown| - |PerMonth|], p.priceClpMonth.value))
  {
    var shown := PriceLabel(p, mode);
    if IsSale(mode) {
      FormatClpNotPerMonth(p.priceClp);
      if p.priceClp.Some? {
        FormatClpRoundTrip(p.priceClp.value);
      }
    } else {
      var f := FormatClp(p.priceClpMonth);
      assert shown[|shown| - |PerMonth|..] == PerMonth;
      assert shown[..|shown| - |PerMonth|] == f;
      if p.priceClpMonth.Some? {
        FormatClpRoundTrip(p.priceClpMonth.value);
      }
    }
  }

  /** The three slots of an outreach message, whatever its wording. */
  lemma SlotsMentioned(intro: string, id: string, title: string, location: string, close: string)
    ensures var m := intro + id + " (" + title + ") en " + location + close;
      && IsInfix(id, m) && IsInfix(title, m) && IsInfix(location, m)
      && |intro| <= |m| && m[..|intro|] == intro
  {
    var s1 := intro + id;
    var s2 := s1 + " (";
    var s3 := s2 + title;
    var s4 := s3 + ") en ";
    var s5 := s4 + location;
    InfixOfSuffix(intro, id);
    InfixExtend(id, s1, " (");
    InfixExtend(id, s2, title);
    InfixExtend(id, s3, ") en ");
    InfixExtend(id, s4, location);
    InfixExtend(id, s5, close);
    InfixOfSuffix(s2, title);
    InfixExtend(title, s3, ") en ");
    InfixExtend(title, s4, location);
    InfixExtend(title, s5, close);
    InfixOfSuffix(s4, location);
    InfixExtend(location, s5, close);
    assert (s5 + close)[..|intro|] == s1[..|intro|];
  }

  /** The outreach message names the listing's id, title and location, and
      opens with the sale wording exactly for sales. */
  lemma MessageMentions(p: Property, mode: string)
    ensures var msg := Message(p, mode);
      && IsInfix(p.id, msg) && IsInfix(p.title, msg) && IsInfix(p.location, msg)
      && (IsSale(mode) <==> |SaleIntro| <= |msg| && msg[..|SaleIntro|] == SaleIntro)
  {
    var intro := if IsSale(mode) then SaleIntro else RentIntro;
    var close := if IsSale(mode) then SaleClose else RentClose;
    SlotsMentioned(intro, p.id, p.title, p.location, close);
    var msg := Message(p, mode);
    if !IsSale(mode) {
      assert msg[..|RentIntro|] == RentIntro;
      assert msg[6] != SaleIntro[6];
    }
  }

  /** `??` defaulting of the detail badges: a missing count shows the
      placeholder (parking shows 0), a present count, 0 included, is shown
      and reads back as itself. */
  lemma DetailDefaults(details: Option<Details>)
    ensures var bs := DetailBadges(details);
      var d := details.OrElse(NoDetails);
      && bs[0].key == "bed" && bs[1].key == "bath" && bs[2].key == "area" && bs[3].key == "park"
      && (d.dorms.None? ==> bs[0].text == Placeholder + "D")
      && (d.dorms.Some? ==> ParseInt(bs[0].text[..|bs[0].text| - 1]) == d.dorms)
      && (d.baths.None? ==> bs[1].text == Placeholder + "B")
      && (d.baths.Some? ==> ParseInt(bs[1].text[..|bs[1].text| - 1]) == d.baths)
      && (d.areaM2.None? ==> bs[2].text == Placeholder + " m\U{B2}")
      && (d.areaM2.Some? ==> ParseInt(bs[2].text[..|bs[2].text| - 3]) == d.areaM2)
      && (d.parking.None? ==> bs[3].text == "0 est.")
      && (d.parking.Some? ==> ParseInt(bs[3].text[..|bs[3].text| - 5]) == d.parking)
  {
    var bs := DetailBadges(details);
    var d := details.OrElse(NoDetails);
    if d.dorms.Some? {
      IntRoundTrip(d.dorms.value);
      assert bs[0].text[..|bs[0].text| - 1] == IntToDecimal(d.dorms.value);
    }
    if d.baths.Some? {
      IntRoundTrip(d.baths.value);
      assert bs[1].text[..|bs[1].text| - 1] == IntToDecimal(d.baths.value);
    }
    if d.areaM2.Some? {
      IntRoundTrip(d.areaM2.value);
      assert bs[2].text[..|bs[2].text| - 3] == IntToDecimal(d.areaM2.value);
    }
    if d.parking.Some? {
      IntRoundTrip(d.parking.value);
      assert bs[3].text[..|bs[3].text| - 5] == IntToDecimal(d.parking.value);
    }
  }

  /** A missing `details` object renders like one with every field missing;
      a count of 0 is kept rather than replaced, except that a missing
      parking count and a parking count of 0 look the same. */
  lemma DetailZeroKept()
    ensures DetailBadges(None) == DetailBadges(Some(NoDetails))
    ensures var zero := DetailBadges(Some(Details(Some(0), Some(0), Some(0), Some(0))));
      var none := DetailBadges(None);
      && zero[0].text == "0D" && zero[1].text == "0B" && zero[2].text == "0 m\U{B2}"
      && zero[0] != none[0] && zero[1] != none[1] && zero[2] != none[2]
      && zero[3] == none[3]
  {
    assert IntToDecimal(0) == "0";
    var zero := DetailBadges(Some(Details(Some(0), Some(0), Some(0), Some(0))));
    var none := DetailBadges(None);
    assert zero[0].text[0] == '0' && none[0].text[0] == Placeholder[0];
    assert zero[1].text[0] == '0' && none[1].text[0] == Placeholder[0];
    assert zero[2].text[0] == '0' && none[2].text[0] == Placeholder[0];
  }

  /** The teaser is the first highlight when there is a non-empty one, and
      the fixed fallback when the list is missing, empty, or starts with an
      empty string; later highlights never matter. */
  lemma HighlightChoice(first: string, rest: seq<string>)
    ensures Highlight(None) == NoHighlight
    ensures Highlight(Some([])) == NoHighlight
    ensures Highlight(Some([""] + rest)) == NoHighlight
    ensures first != "" ==> Highlight(Some([first] + rest)) == first
  {
  }

  /** The encoding of a block of a string is a block of the encoding. */
  lemma EncodedInfix(a: string, x: string, b: string)
    ensures IsInfix(EncodeComponent(x), EncodeComponent(a + x + b))
  {
    EncodeAppend(a + x, b);
    EncodeAppend(a, x);
    InfixOfConcat(EncodeComponent(a), EncodeComponent(x), EncodeComponent(b));
  }

  /** A block of a string encodes to a block of its encoding. */
  lemma InfixEncoded(x: string, m: string)
    requires IsInfix(x, m)
    ensures IsInfix(EncodeComponent(x), EncodeComponent(m))
  {
    var k :| InfixAt(x, m, k);
    var a := m[..k];
    var b := m[k + |x|..];
    assert m == a + x + b;
    EncodedInfix(a, x, b);
  }

  /** The chat link of a card contains the encoded listing id. */
  lemma LinkCarriesId(p: Property, mode: string, office: Office)
    ensures IsInfix(EncodeComponent(p.id), PropCard(p, mode, office).chatLink)
  {
    var msg := Message(p, mode);
    InfixEncoded(p.id, msg);
    var base := ChatBase + Keep(office.whatsapp, IsDigit) + QueryKey;
    var link := PropCard(p, mode, office).chatLink;
    assert link == base + EncodeComponent(msg);
    InfixOfConcat(base, EncodeComponent(msg), []);
    assert base + EncodeComponent(msg) + [] == link;
    InfixTransitive(EncodeComponent(p.id), EncodeComponent(msg), link);
  }

  /** The card's chat link addresses the office's contact digits with the
      listing's outreach message, and its query carries the encoded id. */
  lemma CardChatLink(p: Property, mode: string, office: Office)
    ensures var link := PropCard(p, mode, office).chatLink;
      && ParseWaLink(link) == Some(ChatTarget(Keep(office.whatsapp, IsDigit), Some(Message(p, mode))))
      && IsInfix(EncodeComponent(p.id), link)
  {
    WaLinkRoundTrip(office.whatsapp, Some(Message(p, mode)));
    LinkCarriesId(p, mode, office);
  }
}
