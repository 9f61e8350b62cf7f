/**
 The script injected into the Agoda tab: it reads the hotel id and the stay
 dates from one of two page layouts and returns either a booking record or an
 error record.

 The page is a read-only snapshot of what the script's selectors can see.
 A checkout page has three named form inputs whose `.value` is always a
 string. A property page has an element carrying `data-element-property-id`
 (found by that attribute, so the attribute is always there) and the two
 date boxes, whose `data-date` attribute may be absent (`getAttribute`
 returns null).
 */
module Extraction {
  import opened Wrappers

  datatype Page = Page(
    hotelIdInput: Option<string>,        // input[name="hotel_id"], its value
    startDateInput: Option<string>,      // input[name="travel_start_date"], its value
    endDateInput: Option<string>,        // input[name="travel_end_date"], its value
    propertyIdElement: Option<string>,   // [data-element-property-id], that attribute
    checkInBox: Option<Option<string>>,  // [data-selenium="checkInBox"], its data-date
    checkOutBox: Option<Option<string>>) // [data-selenium="checkOutBox"], its data-date

  /** The record the script hands back on success. */
  datatype Booking = Booking(hotelId: string, checkInDate: string, checkOutDate: string)

  /** Either `{hotelId, checkInDate, checkOutDate}` or `{error}`. */
  datatype Extracted = Found(booking: Booking) | Failed(error: string)

  const CheckoutFormatError := "Invalid data format found on the checkout page."
  const MissingElementsError := "Required elements not found. Please ensure you're on a valid Agoda hotel or checkout page."
  const HotelFormatError := "Invalid data format found on the hotel page."

  /** `\d` in a JavaScript regular expression: an ASCII digit only. */
  predicate IsAsciiDigit(c: char) {
    '0' <= c <= '9'
  }

  /** `s` matches `^\d{4}-\d{2}-\d{2}$`. */
  predicate IsIsoDate(s: string) {
    && |s| == 10
    && s[4] == '-' && s[7] == '-'
    && forall k | 0 <= k < 10 && k != 4 && k != 7 :: IsAsciiDigit(s[k])
  }

  /** `t` is a run of ASCII digits: `\d*`. */
  ghost predicate AllDigits(t: string) {
    forall k | 0 <= k < |t| :: IsAsciiDigit(t[k])
  }

  /** The pattern read as a grammar: four digits, `-`, two digits, `-`, two digits, and nothing else. */
  ghost predicate IsoDatePattern(s: string) {
    exists year: string, month: string, day: string
      | |year| == 4 && |month| == 2 && |day| == 2 && AllDigits(year) && AllDigits(month) && AllDigits(day)
      :: s == year + "-" + month + "-" + day
  }

  /** The index test `IsIsoDate` accepts exactly the strings the pattern describes. */
  lemma IsIsoDateMatchesPattern(s: string)
    ensures IsIsoDate(s) <==> IsoDatePattern(s)
  {
    if IsIsoDate(s) {
      IsoDateFields(s);
    }
    if IsoDatePattern(s) {
      var year: string, month: string, day: string :|
        |year| == 4 && |month| == 2 && |day| == 2 && AllDigits(year) && AllDigits(month) && AllDigits(day)
        && s == year + "-" + month + "-" + day;
      FieldsIsoDate(year, month, day);
    }
  }

  /** An accepted string splits into the three digit fields. */
  lemma IsoDateFields(s: string)
    requires IsIsoDate(s)
    ensures IsoDatePattern(s)
  {
    var year, month, day := s[..4], s[5..7], s[8..];
    assert s == year + "-" + month + "-" + day;
    assert AllDigits(year) && AllDigits(month) && AllDigits(day) by {
      forall k | 0 <= k < 4 ensures IsAsciiDigit(year[k]) { assert year[k] == s[k]; }
      forall k | 0 <= k < 2 ensures IsAsciiDigit(month[k]) && IsAsciiDigit(day[k]) {
        assert month[k] == s[5 + k] && day[k] == s[8 + k];
      }
    }
  }

  /** Three digit fields of the right widths, joined by `-`, pass the index test. */
  lemma FieldsIsoDate(year: string, month: string, day: string)
    requires |year| == 4 && |month| == 2 && |day| == 2
    requires AllDigits(year) && AllDigits(month) && AllDigits(day)
    ensures IsIsoDate(year + "-" + month + "-" + day)
  {
    var s := year + "-" + month + "-" + day;
    forall k | 0 <= k < 10 && k != 4 && k != 7 ensures IsAsciiDigit(s[k]) {
      if k < 4 { assert s[k] == year[k]; }
      else if k < 7 { assert s[k] == month[k - 5]; }
      else { assert s[k] == day[k - 8]; }
    }
  }


  /** All three checkout inputs are on the page, so the checkout layout is used. */
  predicate OnCheckoutPage(page: Page) {
    page.hotelIdInput.Some? && page.startDateInput.Some? && page.endDateInput.Some?
  }

  /** All three property-page elements are on the page. */
  predicate HasPropertyElements(page: Page) {
    page.propertyIdElement.Some? && page.checkInBox.Some? && page.checkOutBox.Some?
  }

  /** What a successful extraction promises its caller. */
  predicate ValidBooking(b: Booking) {
    b.hotelId != [] && IsIsoDate(b.checkInDate) && IsIsoDate(b.checkOutDate)
  }

  /**
   `extractAgodaData`. `typeError` is the message of the TypeError the
   JavaScript engine raises when `.match` is called on a missing `data-date`;
   the script catches it and returns it as its error.
   */
  function ExtractAgodaData(page: Page, typeError: string): (r: Extracted)
    ensures r.Found? ==> ValidBooking(r.booking)
    ensures r.Found? && OnCheckoutPage(page) ==>
      r.booking == Booking(page.hotelIdInput.value, page.startDateInput.value, page.endDateInput.value)
    ensures r.Found? && !OnCheckoutPage(page) ==>
      && HasPropertyElements(page)
      && page.checkInBox.value.Some? && page.checkOutBox.value.Some?
      && r.booking == Booking(page.propertyIdElement.value, page.checkInBox.value.value, page.checkOutBox.value.value)
    ensures r.Failed? ==> r.error in {CheckoutFormatError, MissingElementsError, HotelFormatError, typeError}
  {
    if OnCheckoutPage(page) then
      var hotelId := page.hotelIdInput.value;
      var checkInDate := page.startDateInput.value;
      var checkOutDate := page.endDateInput.value;
      if hotelId == [] || !IsIsoDate(checkInDate) || !IsIsoDate(checkOutDate) then
        Failed(CheckoutFormatError)
      else
        Found(Booking(hotelId, checkInDate, checkOutDate))
    else if !HasPropertyElements(page) then
      Failed(MissingElementsError)
    else
      var hotelId := page.propertyIdElement.value;
      var checkInDate := page.checkInBox.value;
      var checkOutDate := page.checkOutBox.value;
      // `||` stops at the first true operand, so a null date is only touched
      // once everything to its left has passed.
      if hotelId == [] then Failed(HotelFormatError)
      else if checkInDate.None? then Failed(typeError)
      else if !IsIsoDate(checkInDate.value) then Failed(HotelFormatError)
      else if checkOutDate.None? then Failed(typeError)
      else if !IsIsoDate(checkOutDate.value) then Failed(HotelFormatError)
      else Found(Booking(hotelId, checkInDate.value, checkOutDate.value))
  }

  /**
   Layout precedence: once the three checkout inputs are there, the result is
   a function of their values alone. The property-page elements and the
   engine's error text play no part.
   */
  lemma CheckoutLayoutTakesPrecedence(page: Page, other: Page, typeError: string, otherTypeError: string)
    requires OnCheckoutPage(page) && OnCheckoutPage(other)
    requires page.hotelIdInput == other.hotelIdInput
    requires page.startDateInput == other.startDateInput
    requires page.endDateInput == other.endDateInput
    ensures ExtractAgodaData(page, typeError) == ExtractAgodaData(other, otherTypeError)
  {
  }

  /** On the checkout layout: the inputs' values are returned exactly when they pass, the checkout format error otherwise. */
  lemma CheckoutOutcome(page: Page, typeError: string)
    requires OnCheckoutPage(page)
    ensures var b := Booking(page.hotelIdInput.value, page.startDateInput.value, page.endDateInput.value);
      ExtractAgodaData(page, typeError) == if ValidBooking(b) then Found(b) else Failed(CheckoutFormatError)
  {
  }

  /**
   Without the checkout inputs, a missing property-page element is reported
   as such, and only then (so long as the engine's own message is a different text).
   */
  lemma MissingElementsReported(page: Page, typeError: string)
    requires !OnCheckoutPage(page)
    requires typeError != MissingElementsError
    ensures ExtractAgodaData(page, typeError) == Failed(MissingElementsError) <==> !HasPropertyElements(page)
  {
  }

  /**
   On the property layout: with the id present and both dates present, the
   values are returned exactly when they pass, the hotel-page format error
   otherwise.
   */
  lemma PropertyPageOutcome(page: Page, typeError: string)
    requires !OnCheckoutPage(page) && HasPropertyElements(page)
    requires page.checkInBox.value.Some? && page.checkOutBox.value.Some?
    ensures var b := Booking(page.propertyIdElement.value, page.checkInBox.value.value, page.checkOutBox.value.value);
      ExtractAgodaData(page, typeError) == if ValidBooking(b) then Found(b) else Failed(HotelFormatError)
  {
  }

  /**
   A missing `data-date` is only reached, and its exception only caught and
   returned, when every test to its left passed; an empty id is reported as a
   format error before either date is looked at.
   */
  lemma MissingDateCaught(page: Page, typeError: string)
    requires !OnCheckoutPage(page) && HasPropertyElements(page)
    ensures page.propertyIdElement.value == [] ==> ExtractAgodaData(page, typeError) == Failed(HotelFormatError)
    ensures page.propertyIdElement.value != [] && page.checkInBox.value.None? ==>
      ExtractAgodaData(page, typeError) == Failed(typeError)
    ensures
      && page.propertyIdElement.value != []
      && page.checkInBox.value.Some? && IsIsoDate(page.checkInBox.value.value)
      && page.checkOutBox.value.None?
      ==> ExtractAgodaData(page, typeError) == Failed(typeError)
    ensures
      && page.checkInBox.value.Some? && !IsIsoDate(page.checkInBox.value.value)
      ==> ExtractAgodaData(page, typeError) == Failed(HotelFormatError)
  {
  }

  /** The engine's message comes back only when a `data-date` attribute is missing on the property layout. */
  lemma EngineErrorOnlyFromMissingDate(page: Page, typeError: string)
    requires typeError !in {CheckoutFormatError, MissingElementsError, HotelFormatError}
    requires ExtractAgodaData(page, typeError) == Failed(typeError)
    ensures !OnCheckoutPage(page) && HasPropertyElements(page)
    ensures page.checkInBox.value.None? || page.checkOutBox.value.None?
  {
  }
}
