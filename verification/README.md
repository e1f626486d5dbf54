# Listing page formatting rules, modelled in Dafny

The page script of a small real-estate brokerage (`app.js`) loads a static
data file and renders the sale and rental listings. Most of it is DOM and
fetch plumbing. The model covers the parts that are pure string-building rules:

- the fallback of `fmtCLP`: `'$' + String(n)` with a `.` inserted by the
  regular expression `/\B(?=(\d{3})+(?!\d))/g` (module `Currency`, on top of
  `Decimal`, which models `String(n)` for integers);
- `waLink`: the chat link `https://wa.me/<digits>?text=<encoded>` (module
  `Links`, with `encodeURIComponent` and its inverse in `UriComponent`);
- the `tel:` link of the display phone, with JavaScript `\s` whitespace removed (`Links`);
- `icon`: the closed glyph table with its `•` fallback (`Icons`);
- the decisions inside `propCard`: the mode badge, the price label, the
  outreach message, the `??` defaulting of the detail badges, the highlight
  teaser and the chat link. The card is a record of computed fields, not markup (`Card`, over the
  records of `Listing`);
- `selectTab` and the click sequence that drives it (`Tabs`);
- the two grids and the links that `main` derives from the payload (`Page`).

`Text` holds the shared vocabulary: an `Option` for missing fields, the
`\d` and `\s` classes, substring containment, and `Keep`. `Keep` is the
order-preserving filter that a global `replace(/[^...]/g, '')` performs.

The regular expression is modelled as it behaves on any string. A
zero-width match at position `i` needs `\B` there. It also needs the
lookahead to see a positive multiple of three digits followed by a
non-digit. `Currency.InsertSeparatorsGrouped` proves that on numerals
this equals the right-to-left grouping `Grouped`. `encodeURIComponent` is
modelled concretely: each character outside `A-Z a-z 0-9 - _ . ! ~ * ' ( )`
becomes the UTF-8 bytes of its code point (RFC 3629). Each byte is written
as `%XX` with upper-case hexadecimal digits, the percent-encoding of section
2.1 of RFC 3986. The model proves that `decodeURIComponent` inverts it.

Three details of the code are easy to miss, and the model follows them:

- any `type` other than `'sale'` is a rental;
- a missing parking count shows `0`, not the placeholder;
- the chat link omits the query when the *encoded* message is empty.
  `UriComponent.EncodeComponent` shows that this happens exactly when the
  message is empty.

## Model

| member | source | states |
|---|---|---|
| Decimal.NatToDecimal | app.js:5 | `String(n)` of a natural is a non-empty digit string with no leading zero |
| Decimal.DecimalRoundTrip | app.js:5 | reading the printed numeral of `n` back gives `n` |
| Decimal.DecimalLengthThousand | app.js:5 | the numeral has four or more digits exactly when `n >= 1000` |
| Decimal.IntRoundTrip | app.js:41-44 | every integer count interpolated into a badge reads back as itself, so distinct counts print differently |
| Currency.DigitRun | app.js:5 | the run measured is the maximal run of digits starting at the position |
| Currency.LookaheadIsDigitRun | app.js:5 | the lookahead `(?=(\d{3})+(?!\d))` succeeds exactly when the digit run ahead is a positive multiple of three |
| Currency.SeparatorAtDigits | app.js:5 | on a numeral, the regex matches exactly at inner positions with a multiple of three digits to their right |
| Currency.InsertSeparators | app.js:5 | the replacement only inserts `.`: it never shortens the text, and dropping the dots of the output and of the input gives the same characters |
| Currency.InsertSeparatorsGrouped | app.js:5 | on a numeral, the regex replacement equals grouping by threes from the right |
| Currency.InsertSeparatorsNoDigits | app.js:5 | a string without digits, such as `undefined`, is left unchanged |
| Currency.GroupedShape | app.js:5 | first group has 1–3 digits, every later group exactly 3, every group is digits; the group count is `(len-1)/3+1` |
| Currency.GroupedKeep | app.js:5 | dropping the separators of a grouped numeral gives the numeral back |
| Currency.GroupedHasDot | app.js:5 | a grouped numeral has a separator exactly when it has more than three digits |
| Currency.GroupedCharset | app.js:5 | a grouped numeral holds only digits and separators |
| Currency.FormatClp | app.js:5 | the fallback output always starts with `$` and has something after it |
| Currency.FormatClpRoundTrip | app.js:5 | after the `$`, removing every `.` yields exactly `String(n)`, whose value is `n` |
| Currency.FormatClpGroups | app.js:5 | groups of the output are 1–3 then exactly 3 digits, so no leading, trailing or doubled `.`; a `.` appears iff `n >= 1000` |
| Currency.FormatClpCharset | app.js:5 | the output is `$` followed only by digits and separators |
| Currency.FormatClpMissing | app.js:5 | a missing amount formats as `$undefined` |
| UriComponent.Escape | app.js:11 | escaping yields three characters per byte, each an unreserved character or `%` |
| UriComponent.EscapeLayout | app.js:11 | the `k`-th triple of an escape is `%` followed by the high and low hexadecimal digits of the `k`-th byte |
| UriComponent.EncodeComponent | app.js:11 | the encoding is empty exactly when the text is, and holds only unreserved characters and `%` |
| UriComponent.EncodeAppend | app.js:11 | encoding commutes with concatenation |
| UriComponent.ReadEscaped | app.js:11 | escaped bytes read back as the same bytes |
| UriComponent.Utf8RoundTrip | app.js:11 | UTF-8 decoding inverts the encoding of every code point and the lead byte announces its length |
| UriComponent.DecodeEncodedChar | app.js:11 | decoding consumes exactly the encoding of one character |
| UriComponent.DecodeEncode | app.js:11 | `decodeURIComponent(encodeURIComponent(s)) == s` for every string |
| Links.WaLink | app.js:9-13 | every chat link starts with `https://wa.me/` |
| Links.WaLinkQuery | app.js:10-12 | the link has a `?` exactly when the message is non-empty; a missing message equals the empty one and gives the bare base plus digits |
| Links.ParsePlainLink | app.js:10 | a link without query reads back as its digits and no message |
| Links.ParseQueryLink | app.js:10-12 | a link with query reads back as its digits and the decoded `text` parameter |
| Links.WaLinkRoundTrip | app.js:9-13 | the link reads back as the in-order digits of the contact id and the original message, absent exactly when missing or empty |
| Links.TelLink | app.js:95 | the `tel:` link has the scheme and no JavaScript whitespace after it |
| Links.TelLinkStrip | app.js:95 | the number keeps exactly the non-whitespace characters in order; stripping again changes nothing; a phone without whitespace is used as is |
| Icons.Icon | app.js:15-29 | the lookup is total and never returns an empty glyph |
| Icons.IconTable | app.js:16-27 | the table has exactly the ten keys and each returns its own glyph |
| Icons.IconFallback | app.js:28 | the bullet is returned exactly for keys outside the table |
| Card.PriceLabel | app.js:33 | the price line starts with `$` and ends in `/mes` exactly when the mode is not `sale` |
| Card.Message | app.js:35-37 | the outreach message contains the listing's id, title and location |
| Card.DetailBadges | app.js:39-45 | there are always four detail badges |
| Card.Highlight | app.js:47 | the teaser is never empty |
| Card.FormatClpNotPerMonth | app.js:33 | a formatted amount never ends in `/mes` |
| Card.PriceLabelByMode | app.js:32-33 | the label ends in `/mes` exactly for non-sale modes; it shows `price_clp` for sales and `price_clp_month` for rentals |
| Card.SlotsMentioned | app.js:35-37 | a message of this template contains its id, title and location and starts with its opening |
| Card.MessageMentions | app.js:35-37 | the message contains the id, title and location, and has the sale opening exactly for sales |
| Card.DetailDefaults | app.js:39-45 | missing bedrooms, bathrooms or area show `—`, missing parking shows `0`, a present count (0 included) is shown and reads back as itself |
| Card.DetailZeroKept | app.js:39-45 | missing `details` equals all fields missing; a count of 0 differs from the placeholder, and missing parking looks the same as parking 0 |
| Card.HighlightChoice | app.js:47 | a missing list, an empty list or an empty first entry gives `Consultar detalles`; otherwise the first entry, whatever follows |
| Card.EncodedInfix | app.js:63 | the encoding of a block of the message is a block of the encoded message |
| Card.LinkCarriesId | app.js:63 | the card's chat link contains the encoded listing id |
| Card.CardChatLink | app.js:63 | the card's link addresses the office's contact digits with the listing message, and contains the encoded id |
| Card.PropCard | app.js:31-68 | the mode badge is `Venta` for sales and `Arriendo` otherwise; the price ends in `/mes` exactly for rentals; the id, title and location are carried over; the location shows the pin; there are four detail badges and a non-empty teaser; the chat link starts with the chat base |
| Tabs.SelectTab | app.js:126-132 | selecting a tab never adds or removes an element |
| Tabs.SelectTabConsistent | app.js:126-132 | afterwards exactly one panel is visible, it is the sale panel iff `which == "sale"`, and the aria flags are complementary and follow the panel |
| Tabs.SelectTabLastWins | app.js:126-132 | only the last selection matters, so selecting twice with the same argument is idempotent |
| Tabs.ApplyClicksConsistent | app.js:134-135 | any run of tab clicks keeps one panel visible and shows the panel of the last click |
| Tabs.AfterClicksConsistent | app.js:134-138 | after the default `selectTab('sale')` and any clicks, exactly one panel is visible with complementary flags; it is the sale panel unless the last click was on rent |
| Page.Render | app.js:101-102 | each grid has one card per listing of its kind |
| Page.RenderLinks | app.js:93-95 | the call-to-action and sticky links read back as the office's contact digits with their fixed messages; the `tel:` link is the scheme followed by the display phone with its whitespace removed |
| Page.Grid | app.js:101-102 | one card per listing, in order, each the card of its listing |
| Page.GridCard | app.js:101-102 | the card at each position of a grid carries the grid's mode badge and links to the office with that position's listing message |
| Page.GridModes | app.js:101-102 | sales cards carry the sale badge and rental cards the rental one; each card's link carries its own listing's message |
| Page.HundredMillion | app.js:5 | 100 000 000 formats as `$100.000.000` |
| Page.OneSaleScenario | app.js:99-102 | one sale `A1` and no rentals give one card priced `$100.000.000` whose link contains `A1`, and an empty rentals grid |

## Left out

- The `Intl.NumberFormat` branch of `fmtCLP` (app.js:3): a locale library call whose output is not specified here. `fmtCLP` is modelled as its fallback everywhere, including inside the card.
- Currency.FormatClp: the amount is a natural number printed exactly. JavaScript numbers lose precision above 2^53 and print in exponent form from 10^21. Negative and fractional amounts, which the regular expression groups oddly, are outside the domain.
- Currency.FormatClp: `None` stands for a missing amount (`undefined`). A `null` amount, which would print `$null`, is not distinguished.
- Card.DetailDefaults: detail counts are integers. JSON fractions or strings in those fields, which `String()` would print differently, are not modelled.
- Highlights are a sequence of strings. A truthy non-array value in that field is not modelled.
- `waLink` on a contact id that is not a string (which throws) is not modelled.
- Links.TelLink: the display phone is always a string here. At app.js:95 a missing or non-string `phone_display` makes `.replace` throw, which rejects `main` and shows the error notice; the model always produces a `tel:` link.
- Strings are sequences of Unicode scalar values, not UTF-16 units. The lone surrogates on which `encodeURIComponent` throws cannot be written. `\d` and `\s` give the same result either way.
- JavaScript prototype lookups such as `icons["toString"]`: the table is a finite map over string keys.
- The HTML template text of the card (app.js:48-68). Only the computed fields are modelled. The source does no escaping and the model adds none.
- `main`'s fetch and JSON parsing, the `setText`/`setHref` DOM writes, the `mailto:` link (plain concatenation, app.js:96), the footer year and the top-level error reveal (app.js:71-102, 140-150). These are I/O and DOM plumbing. `Page.Render` keeps only the values computed there.
- The copy-to-clipboard listener, its `setTimeout` revert and the `prompt` fallback (app.js:105-118): asynchronous browser APIs.
- Event-listener registration for the tabs (app.js:134-135) is modelled only as a sequence of clicks fed to `selectTab`.
- A grid container that is missing from the page (`if (sales)`) skips rendering. The model always produces both grids.
