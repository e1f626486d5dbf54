/** The values `main` computes from the payload once it has loaded: the two
    chat call-to-action links, the `tel:` link and the two grids of cards. */
module Page {
  import opened Text
  import opened Decimal
  import opened Currency
  import opened Links
  import opened Listing
  import opened Card

  const CtaMessage := "Hola, quiero cotizar una tasación y plan de venta/arriendo."
  const StickyMessage := "Hola, vengo desde la web. ¿Me ayudas con una consulta?"

  datatype Rendered = Rendered(
    ctaLink: string,
    stickyLink: string,
    telLink: string,
    salesGrid: seq<Card>,
    rentalsGrid: seq<Card>)

  /** `list.map(p => propCard(p, mode, office))`: one card per listing, in
      listing order. */
  function Grid(ps: seq<Property>, mode: string, office: Office): (cards: seq<Card>)
    ensures |cards| == |ps|
    ensures forall i :: 0 <= i < |ps| ==> cards[i] == PropCard(ps[i], mode, office)
  {
    if ps == [] then [] else [PropCard(ps[0], mode, office)] + Grid(ps[1..], mode, office)
  }

  function Render(data: Listings): (page: Rendered)
    ensures |page.salesGrid| == |data.sales| && |page.rentalsGrid| == |data.rentals|
  {
    Rendered(
      WaLink(data.office.whatsapp, Some(CtaMessage)),
      WaLink(data.office.whatsapp, Some(StickyMessage)),
      TelLink(data.office.phoneDisplay),
      Grid(data.sales, "sale", data.office),
      Grid(data.rentals, "rent", data.office))
  }

  /** The call-to-action and sticky links address the office's contact
      digits with their fixed messages, and the `tel:` link carries the
      display phone without its whitespace. */
  lemma RenderLinks(data: Listings)
    ensures var page := Render(data);
      var contact := Keep(data.office.whatsapp, IsDigit);
      && ParseWaLink(page.ctaLink) == Some(ChatTarget(contact, Some(CtaMessage)))
      && ParseWaLink(page.stickyLink) == Some(ChatTarget(contact, Some(StickyMessage)))
      && page.telLink == TelScheme + Keep(data.office.phoneDisplay, NotWhitespace)
  {
    WaLinkRoundTrip(data.office.whatsapp, Some(CtaMessage));
    WaLinkRoundTrip(data.office.whatsapp, Some(StickyMessage));
  }

  /** The `i`-th card of a grid carries the badge of the grid's mode and is
      addressed to the office with its own listing's message. */
  lemma GridCard(ps: seq<Property>, mode: string, office: Office, i: nat)
    requires i < |ps|
    ensures var card := Grid(ps, mode, office)[i];
      && card.modeBadge == (if IsSale(mode) then SaleBadge else RentBadge)
      && ParseWaLink(card.chatLink)
         == Some(ChatTarget(Keep(office.whatsapp, IsDigit), Some(Message(ps[i], mode))))
  {
    var card := Grid(ps, mode, office)[i];
    assert card == PropCard(ps[i], mode, office);
    CardChatLink(ps[i], mode, office);
  }

  /** Every sales card carries the sale badge and every rental card the
      rental one; each card's chat link brings its own listing's message to
      the office's contact digits. */
  lemma GridModes(data: Listings, i: nat)
    ensures var page := Render(data);
      && (i < |data.sales| ==>
            page.salesGrid[i].modeBadge == SaleBadge
            && ParseWaLink(page.salesGrid[i].chatLink)
               == Some(ChatTarget(Keep(data.office.whatsapp, IsDigit), Some(Message(data.sales[i], "sale")))))
      && (i < |data.rentals| ==>
            page.rentalsGrid[i].modeBadge == RentBadge
            && ParseWaLink(page.rentalsGrid[i].chatLink)
               == Some(ChatTarget(Keep(data.office.whatsapp, IsDigit), Some(Message(data.rentals[i], "rent")))))
  {
    var page := Render(data);
    assert page.salesGrid == Grid(data.sales, "sale", data.office);
    assert page.rentalsGrid == Grid(data.rentals, "rent", data.office);
    if i < |data.sales| {
      GridCard(data.sales, "sale", data.office, i);
    }
    if i < |data.rentals| {
      GridCard(data.rentals, "rent", data.office, i);
    }
  }

  lemma HundredMillionDigits()
    ensures NatToDecimal(100000000) == "100000000"
  {
  }

  /** One hundred million pesos print as `$100.000.000`. */
  lemma HundredMillion()
    ensures FormatClp(Some(100000000)) == "$100.000.000"
  {
    HundredMillionDigits();
    var d := "100000000";
    assert AllDigits(d);
    InsertSeparatorsGrouped(d);
    assert d[..6] == "100000" && d[6..] == "000";
    assert d[..6][..3] == "100" && d[..6][3..] == "000";
    assert Grouped("100") == "100";
    assert Grouped("100000") == "100.000";
    assert Grouped(d) == "100.000.000";
  }

  /** A payload with one sale `A1` priced at 100 000 000 and no rentals
      renders one sales card with that price and a chat link carrying `A1`,
      and an empty rentals grid. */
  lemma OneSaleScenario(office: Office)
    ensures var p := Property("A1", "Casa", "X", "", Some(100000000), None, None, None);
      var page := Render(Listings(office, [p], [], "2024-01-01"));
      && |page.salesGrid| == 1
      && page.salesGrid[0].price == "$100.000.000"
      && IsInfix("A1", page.salesGrid[0].chatLink)
      && page.rentalsGrid == []
  {
    var p := Property("A1", "Casa", "X", "", Some(100000000), None, None, None);
    var page := Render(Listings(office, [p], [], "2024-01-01"));
    var card := PropCard(p, "sale", office);
    assert page.salesGrid == [card];
    HundredMillion();
    assert card.price == FormatClp(Some(100000000));
    CardChatLink(p, "sale", office);
    PlainIdEncodes();
  }

  /** An id of unreserved characters is carried verbatim. */
  lemma PlainIdEncodes()
    ensures UriComponent.EncodeComponent("A1") == "A1"
  {
  }
}
