# agodahoudini background script, modelled in Dafny

The extension adds a toolbar button to Chrome. When it is clicked on an Agoda
property page or checkout page, it reads the hotel id and the stay dates from
the page. It then opens Agoda's partner search URL for that hotel and those
dates in an incognito window. This project models the decision logic of
`background.js`:

- `page_gate.dfy` models the tab-URL gate. This is the regular expression
  `agoda\.com\/(.*\/hotel\/|book\/)`, searched with JavaScript semantics, plus
  the choice between the two refusal messages. A computable matcher is proved
  equal to a declarative reading of the pattern.
- `extraction.dfy` models `extractAgodaData`. A `Page` is a snapshot of what
  the script's six selectors see. The result is a booking or an error record.
- `affiliate_url.dfy` models `buildUrl`. It covers the date split, the eight
  parameters in insertion order, and the query text.
- `form_urlencoded.dfy` and `utf8.dfy` model what `URLSearchParams.toString`
  does to each name and value. That is the application/x-www-form-urlencoded
  serializer of section 5.2 of the WHATWG URL Standard, over UTF-8 (RFC 3629).
  A strict parser is included so the round trip can be stated.
- `click_handler.dfy` models the listener. It composes the three parts into
  the action the click ends in. It comes in two forms: `OnClickedAsWritten`
  throws on a tab without a URL, as the code does; `OnClicked` uses the
  corrected gate (see "## Findings").
- `strings.dfy` and `wrappers.dfy` hold the string helpers (`includes`,
  `split`, `join`) and `Option`.

The engine's TypeError text is a parameter `typeError`. It is what
`null.match(...)` throws and what the script's `catch` returns. The injection
failure message (`chrome.runtime.lastError`) is a parameter `lastError`.

## Model

| member | source | states |
|---|---|---|
| Strings.Includes | background.js:6 | `String.prototype.includes`: true exactly when the needle occurs at some position of the string |
| Strings.Split | background.js:87-88 | `split` on a one-character separator: at least one part, and no part contains the separator |
| Strings.JoinSplit | background.js:87-88 | joining the parts of a split with the separator gives back the original string |
| PageGate.MatchesPattern | background.js:4 | the computable search is true exactly when the pattern matches at some position: `agoda.com/`, then either `book/` or a run without line terminators followed by `/hotel/` |
| PageGate.CheckTabUrl | background.js:4-12 | proceeds exactly on a matching URL; a refused URL gets the wrong-page message when it contains `agoda.com`, the navigate-to-Agoda message otherwise |
| PageGate.AcceptedUrlMentionsAgoda | background.js:4-9 | every accepted URL contains `agoda.com` |
| PageGate.PropertyPageAccepted | background.js:4 | a property-page URL `https://www.agoda.com/en-gb/grand-palace/hotel/bangkok-th.html` is accepted |
| PageGate.CheckoutPageAccepted | background.js:4 | a checkout URL `https://www.agoda.com/book/?hotel_id=12345` is accepted |
| PageGate.EmptyUrlRefused | background.js:4-9 | the empty URL is refused with the navigate-to-Agoda message |
| PageGate.CheckTabAsWritten | background.js:4-6 | on a tab without a URL the gate as written throws, and only then |
| PageGate.CheckTab | background.js:4-12 | the intended gate: proceeds exactly when a URL is present and matches; a missing URL is refused with the navigate-to-Agoda message |
| PageGate.CheckTabAgreesWhereDefined | background.js:4-12 | wherever the gate as written does not throw, the intended gate gives the same verdict |
| PageGate.MissingUrlLikeEmptyUrl | background.js:4-9 | a missing URL and the empty URL are refused alike |
| Extraction.IsIsoDate | background.js:54 | no contract of its own; IsIsoDateMatchesPattern proves it is the `^\d{4}-\d{2}-\d{2}$` test of lines 54 and 74 |
| Extraction.IsIsoDateMatchesPattern | background.js:74 | the index test accepts exactly the strings made of four ASCII digits, `-`, two digits, `-`, two digits, and nothing else |
| Extraction.ExtractAgodaData | background.js:41-82 | a returned booking has a non-empty id and two `^\d{4}-\d{2}-\d{2}$` dates, and holds the checkout inputs' values on the checkout layout or the property attributes otherwise; an error is one of the three fixed messages or the engine's message |
| Extraction.CheckoutLayoutTakesPrecedence | background.js:44-59 | with all three checkout inputs present, the result depends on their values alone, not on the property-page elements or the engine's message |
| Extraction.CheckoutOutcome | background.js:49-58 | on the checkout layout the inputs' values are returned exactly when they pass the checks, the checkout format error otherwise |
| Extraction.MissingElementsReported | background.js:61-68 | without the checkout layout, the missing-elements error comes back exactly when a property-page element is missing |
| Extraction.PropertyPageOutcome | background.js:70-78 | with all property elements and both `data-date` attributes present, the values are returned exactly when they pass, the hotel-page format error otherwise |
| Extraction.MissingDateCaught | background.js:74-81 | an empty id gives the format error before any date is read; a missing `data-date` gives the engine's error only once every test to its left has passed; a bad check-in date gives the format error before the check-out date is read |
| Extraction.EngineErrorOnlyFromMissingDate | background.js:70-81 | the engine's message is returned only on the property layout with a `data-date` attribute missing |
| Utf8.Encode | background.js:102 | one to four bytes per character, and exactly one per character just when every character is ASCII; DecodeEncode and EncodeDecode are its round trips |
| Utf8.DecodeEncode | background.js:102 | decoding the UTF-8 encoding of a string gives the string back |
| Utf8.EncodeDecode | background.js:102 | whatever the strict decoder accepts re-encodes to the same bytes |
| FormUrlencoded.DeserializeSerialize | background.js:102 | every serialized name or value decodes back to itself |
| FormUrlencoded.Serialize | background.js:102 | a serialized name or value holds only the serializer's alphabet: ASCII letters, digits, `*-._`, `+` and `%` with upper-case hex; DeserializeSerialize is its round trip |
| FormUrlencoded.SerializedHasNoDelimiters | background.js:102 | a serialized component contains no `&`, `=` or `#` |
| FormUrlencoded.SerializeUnreserved | background.js:102 | a string of ASCII letters, digits and `*-._` serializes to itself |
| FormUrlencoded.SerializePair | background.js:102 | a serialized `name=value` pair contains no `&` |
| FormUrlencoded.SerializePairs | background.js:102 | `params.toString()`: empty exactly when there are no pairs, and otherwise splits at `&` into exactly one `name=value` piece per pair, in order; ParseSerializePairs is its round trip |
| FormUrlencoded.ParseSerializePairs | background.js:90-102 | parsing the serialized pairs gives back every pair, in order |
| AffiliateUrl.SearchParams | background.js:87-101 | exactly eight parameters (their names, order and values are stated by ValidBookingParams and ShortDateGivesUndefined) |
| AffiliateUrl.Part | background.js:87-98 | no contract of its own; ShortDateGivesUndefined shows a missing destructured element becoming the text `undefined`, and ValidBookingParams shows the present ones taken as they stand |
| AffiliateUrl.BuildUrl | background.js:85-103 | the URL starts with the partner search base URL and `?` |
| AffiliateUrl.BuildUrlParsesBack | background.js:90-102 | for every booking, the URL's query parses back to exactly the eight parameters |
| AffiliateUrl.DateParts | background.js:87-88 | a `YYYY-MM-DD` date splits into exactly year, month and day |
| AffiliateUrl.ValidBookingParams | background.js:87-101 | for a valid booking the parameters are `site_id=1917614`, then day, month, year of check-in and of check-out as the date's own characters, then the hotel id |
| AffiliateUrl.NameVerbatim | background.js:91-100 | every parameter name is written as it stands |
| AffiliateUrl.DatePairsVerbatim | background.js:87-101 | the date parameters of a valid date are written `name=digits`, the digits unchanged |
| AffiliateUrl.HotelIdLast | background.js:90-102 | the URL is base, `?`, the first seven pieces joined by `&`, then `&selectedproperty=` and the encoded hotel id |
| AffiliateUrl.SiteIdFirst | background.js:90-92 | whatever the booking, the first piece of the query is `site_id=1917614` |
| AffiliateUrl.ValidBookingPieces | background.js:87-102 | for a valid booking the six date pieces of the query hold the date digits as they stand |
| AffiliateUrl.ValidBookingUrl | background.js:85-103 | the whole URL of a valid booking: base URL, `?`, then `site_id=1917614`, `CkInDay`, `CkInMonth`, `CkInYear`, `CkOutDay`, `CkOutMonth`, `CkOutYear` with the date digits, and `selectedproperty` with the encoded id, joined by `&` |
| AffiliateUrl.DigitHotelIdVerbatim | background.js:100-102 | a digits-only hotel id ends the URL verbatim as `&selectedproperty=<id>` |
| AffiliateUrl.HotelIdEncodingSafe | background.js:100-102 | the encoded hotel id contains no raw `&`, `=` or `#`, and it decodes back to the id |
| AffiliateUrl.ShortDateGivesUndefined | background.js:87-94 | a check-in date without `-` puts `undefined` into the day and month parameters and the whole date into the year |
| ClickHandler.OnClickedAsWritten | background.js:2-38 | the listener as written ends in a throw from the gate exactly when the tab has no URL |
| ClickHandler.AfterGate | background.js:14-37 | the `executeScript` callback after the gate: never a gate throw; a refusal shows "Invalid Page" with the gate's message; a window opens exactly on a passed gate, a successful injection and a found booking, which is then valid; "Data Error" is shown only with the extraction's own non-empty error |
| ClickHandler.OnClicked | background.js:2-38 | the listener with the corrected gate: a refused tab, a tab without a URL included, shows "Invalid Page" with the gate's message; an injection failure shows "Error"; a window opens exactly when the tab is accepted, the injection succeeded and a booking was found, and its URL starts with the base URL; the callback throws exactly on an error record with an empty message |
| ClickHandler.OnClickedAgreesWhereDefined | background.js:2-38 | the two listeners act alike on every tab with a URL; without one, the listener as written throws and the corrected one shows "Invalid Page" with the navigate-to-Agoda message |
| ClickHandler.DataErrorShown | background.js:23-27 | on an accepted tab, an extraction error with a message is shown as "Data Error" with that message |
| ClickHandler.RefusedPageIgnoresTheRest | background.js:4-12 | on a refused tab, the page, the engine's message and the injection result change nothing |
| ClickHandler.OpenedUrlCarriesBooking | background.js:22-36 | an opened window carries a valid booking read from the page, and its query parses back to that booking's parameters |

## Left out

- The Chrome plumbing is not modelled: `chrome.scripting.executeScript`, `chrome.windows.create` and `chrome.action.onClicked` become the `Action` the listener ends in.
- `showError` (background.js:106-276) is not modelled. It injects a DOM overlay. The model records only its title and message.
- `document.querySelector` is not modelled. The `Page` snapshot gives what each selector finds.
- The engine's TypeError text is a parameter. Its wording belongs to the JavaScript engine.
- Strings are sequences of Unicode scalar values. The conversion of lone surrogates to U+FFFD by `URLSearchParams` is not modelled.
- `results[0].result` being absent (`data ? … : "Unknown error"`) is not modelled. The script always returns an object, and a failed injection is the `lastError` case.
- FormUrlencoded.ParseQuery is not the Standard's lenient parser. It accepts all the serializer's output, and also some text the serializer never writes (an escape such as `%41` of a byte the serializer writes as it stands, a piece without `=`, empty pieces). It rejects lower-case hex digits, invalid UTF-8 and characters outside the serializer's alphabet. It is used only to state the round trip.
- ClickHandler.OnClicked: uses the corrected gate, so on a tab without a URL it shows "Invalid Page" where the code throws; ClickHandler.OnClickedAsWritten is the listener as the code has it.

## Findings

| source | as written | input that shows it | evidently intended | confidence | as-written member | corrected member |
|---|---|---|---|---|---|---|
| background.js:4-6 | the `!tab.url` test sends a tab without a URL into the refusal branch, whose first statement calls `tab.url.includes` | a tab whose `url` is undefined | refuse it with the navigate-to-Agoda message, as for the empty URL | medium, not executed | PageGate.CheckTabAsWritten, ClickHandler.OnClickedAsWritten | PageGate.CheckTab, ClickHandler.OnClicked, ClickHandler.OnClickedAgreesWhereDefined |
