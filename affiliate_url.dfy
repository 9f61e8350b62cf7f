/**
 `buildUrl`: the affiliate search URL for an extracted booking. Each date is
 split on `-` into year, month and day, and eight parameters go, in this
 order, through `URLSearchParams` onto a fixed base URL.
 */
module AffiliateUrl {
  import opened Wrappers
  import opened Strings
  import opened FormUrlencoded
  import opened Extraction

  const BaseUrl := "https://www.agoda.com/partners/partnersearch.aspx"
  const SiteId := "1917614"

  /** The query parameter names, in the order `buildUrl` inserts them. */
  const SiteIdName := "site_id"
  const CkInDayName := "CkInDay"
  const CkInMonthName := "CkInMonth"
  const CkInYearName := "CkInYear"
  const CkOutDayName := "CkOutDay"
  const CkOutMonthName := "CkOutMonth"
  const CkOutYearName := "CkOutYear"
  const SelectedPropertyName := "selectedproperty"

  /**
   Element `i` of a destructured `split` result. A missing element is
   `undefined`, which `URLSearchParams` turns into the text "undefined".
   */
  function Part(parts: seq<string>, i: nat): string {
    if i < |parts| then parts[i] else "undefined"
  }

  /** The parameter list handed to `URLSearchParams`, in insertion order. */
  function SearchParams(b: Booking): (params: seq<(string, string)>)
    ensures |params| == 8
  {
    var checkIn := Split(b.checkInDate, '-');
    var checkOut := Split(b.checkOutDate, '-');
    [ (SiteIdName, SiteId),
      (CkInDayName, Part(checkIn, 2)),
      (CkInMonthName, Part(checkIn, 1)),
      (CkInYearName, Part(checkIn, 0)),
      (CkOutDayName, Part(checkOut, 2)),
      (CkOutMonthName, Part(checkOut, 1)),
      (CkOutYearName, Part(checkOut, 0)),
      (SelectedPropertyName, b.hotelId) ]
  }

  /** `buildUrl`: the base URL, `?`, and the serialized parameters. */
  function BuildUrl(b: Booking): (url: string)
    ensures |url| > |BaseUrl| && url[..|BaseUrl| + 1] == BaseUrl + "?"
  {
    var prefix := BaseUrl + "?";
    var query := SerializePairs(SearchParams(b));
    assert |prefix| == |BaseUrl| + 1;
    assert (prefix + query)[..|prefix|] == prefix;
    prefix + query
  }

  /** Whatever the booking holds, the query of the URL parses back to exactly the eight parameters, in order. */
  lemma BuildUrlParsesBack(b: Booking)
    ensures ParseQuery(BuildUrl(b)[|BaseUrl| + 1..]) == Some(SearchParams(b))
  {
    var prefix := BaseUrl + "?";
    var query := SerializePairs(SearchParams(b));
    ParseSerializePairs(SearchParams(b));
    assert (prefix + query)[|prefix|..] == query;
  }

  /** A `YYYY-MM-DD` date splits into exactly its year, month and day. */
  lemma DateParts(d: string)
    requires IsIsoDate(d)
    ensures Split(d, '-') == [d[..4], d[5..7], d[8..]]
  {
    var year, month, day := d[..4], d[5..7], d[8..];
    assert d == year + ['-'] + (month + ['-'] + day);
    assert month + ['-'] + day == month + ['-'] + day;
    forall k | 0 <= k < 4 ensures year[k] != '-' { assert year[k] == d[k]; }
    forall k | 0 <= k < 2 ensures month[k] != '-' { assert month[k] == d[5 + k]; }
    forall k | 0 <= k < 2 ensures day[k] != '-' { assert day[k] == d[8 + k]; }
    SplitAtSeparator(year, '-', month + ['-'] + day);
    SplitAtSeparator(month, '-', day);
    SplitWithoutSeparator(day, '-');
  }

  /** For a valid booking the date parameters are the date's own characters: day 8-9, month 5-6, year 0-3. */
  lemma ValidBookingParams(b: Booking)
    requires ValidBooking(b)
    ensures SearchParams(b) ==
      [ (SiteIdName, "1917614"),
        (CkInDayName, b.checkInDate[8..]),
        (CkInMonthName, b.checkInDate[5..7]),
        (CkInYearName, b.checkInDate[..4]),
        (CkOutDayName, b.checkOutDate[8..]),
        (CkOutMonthName, b.checkOutDate[5..7]),
        (CkOutYearName, b.checkOutDate[..4]),
        (SelectedPropertyName, b.hotelId) ]
  {
    DateParts(b.checkInDate);
    DateParts(b.checkOutDate);
  }

  /** Digits pass through the serializer unchanged. */
  lemma SerializeDigits(s: string)
    requires forall k | 0 <= k < |s| :: IsAsciiDigit(s[k])
    ensures Serialize(s) == s
  {
    assert Serialize(s) == s by { SerializeUnreserved(s); }
  }

  /** Every date component of a valid date is digits only. */
  lemma DatePartsAreDigits(d: string)
    requires IsIsoDate(d)
    ensures Serialize(d[..4]) == d[..4] && Serialize(d[5..7]) == d[5..7] && Serialize(d[8..]) == d[8..]
  {
    SerializeDigits(d[..4]);
    SerializeDigits(d[5..7]);
    SerializeDigits(d[8..]);
  }

  /** The text `name=value`. */
  function Param(name: string, value: string): string {
    name + "=" + value
  }

  /** The eight parameter names `buildUrl` uses. */
  datatype ParamName =
    | SiteIdParam | CkInDayParam | CkInMonthParam | CkInYearParam
    | CkOutDayParam | CkOutMonthParam | CkOutYearParam | SelectedPropertyParam

  function NameText(n: ParamName): string {
    match n
    case SiteIdParam => SiteIdName
    case CkInDayParam => CkInDayName
    case CkInMonthParam => CkInMonthName
    case CkInYearParam => CkInYearName
    case CkOutDayParam => CkOutDayName
    case CkOutMonthParam => CkOutMonthName
    case CkOutYearParam => CkOutYearName
    case SelectedPropertyParam => SelectedPropertyName
  }

  /** Every parameter name is ASCII letters and `_`, so it is written as it stands. */
  lemma NameVerbatim(n: ParamName)
    ensures Serialize(NameText(n)) == NameText(n)
  {
    match n
    case SiteIdParam => SerializeUnreserved(SiteIdName);
    case CkInDayParam => SerializeUnreserved(CkInDayName);
    case CkInMonthParam => SerializeUnreserved(CkInMonthName);
    case CkInYearParam => SerializeUnreserved(CkInYearName);
    case CkOutDayParam => SerializeUnreserved(CkOutDayName);
    case CkOutMonthParam => SerializeUnreserved(CkOutMonthName);
    case CkOutYearParam => SerializeUnreserved(CkOutYearName);
    case SelectedPropertyParam => SerializeUnreserved(SelectedPropertyName);
  }

  /** The three date parameters of a valid date are written `name=digits`, the digits as they stand. */
  lemma DatePairsVerbatim(d: string, day: ParamName, month: ParamName, year: ParamName)
    requires IsIsoDate(d)
    ensures SerializePair((NameText(day), d[8..])) == Param(NameText(day), d[8..])
    ensures SerializePair((NameText(month), d[5..7])) == Param(NameText(month), d[5..7])
    ensures SerializePair((NameText(year), d[..4])) == Param(NameText(year), d[..4])
  {
    DatePartsAreDigits(d);
    NameVerbatim(day);
    NameVerbatim(month);
    NameVerbatim(year);
  }

  /**
   Whatever the booking, the URL is the base URL, `?`, the first seven pieces
   joined by `&`, then `&` and, last, `selectedproperty=` with the
   form-encoded hotel id.
   */
  lemma HotelIdLast(b: Booking)
    ensures var pieces := SerializePairsEach(SearchParams(b));
      && BuildUrl(b) == BaseUrl + "?" + Join(pieces, '&')
      && Join(pieces, '&') == Join(pieces[..7], '&') + "&" + pieces[7]
      && pieces[7] == Param(SelectedPropertyName, Serialize(b.hotelId))
  {
    var pieces := SerializePairsEach(SearchParams(b));
    JoinLast(pieces, '&');
    assert pieces[7] == Param(SelectedPropertyName, Serialize(b.hotelId)) by {
      NameVerbatim(SelectedPropertyParam);
    }
  }

  /**
   For a valid booking the six date pieces carry the date digits as they stand: day, month and year of the
   check-in date, then of the check-out date.
   */
  lemma ValidBookingPieces(b: Booking)
    requires ValidBooking(b)
    ensures var pieces := SerializePairsEach(SearchParams(b));
      && pieces[1] == Param(CkInDayName, b.checkInDate[8..])
      && pieces[2] == Param(CkInMonthName, b.checkInDate[5..7])
      && pieces[3] == Param(CkInYearName, b.checkInDate[..4])
      && pieces[4] == Param(CkOutDayName, b.checkOutDate[8..])
      && pieces[5] == Param(CkOutMonthName, b.checkOutDate[5..7])
      && pieces[6] == Param(CkOutYearName, b.checkOutDate[..4])
  {
    var ci, co := b.checkInDate, b.checkOutDate;
    var params := SearchParams(b);
    DateParts(ci);
    DateParts(co);
    assert params[1] == (NameText(CkInDayParam), ci[8..]);
    assert params[2] == (NameText(CkInMonthParam), ci[5..7]);
    assert params[3] == (NameText(CkInYearParam), ci[..4]);
    assert params[4] == (NameText(CkOutDayParam), co[8..]);
    assert params[5] == (NameText(CkOutMonthParam), co[5..7]);
    assert params[6] == (NameText(CkOutYearParam), co[..4]);
    DatePairsVerbatim(ci, CkInDayParam, CkInMonthParam, CkInYearParam);
    DatePairsVerbatim(co, CkOutDayParam, CkOutMonthParam, CkOutYearParam);
  }

  /** Whatever the booking, the query starts with `site_id=1917614`. */
  lemma SiteIdFirst(b: Booking)
    ensures SerializePairsEach(SearchParams(b))[0] == Param(SiteIdName, SiteId)
  {
    SiteIdVerbatim();
    NameVerbatim(SiteIdParam);
    VerbatimPair(SiteIdName, SiteId);
    assert SerializePairsEach(SearchParams(b))[0] == SerializePair((SiteIdName, SiteId));
  }

  /** The site id is digits, written as it stands. */
  lemma SiteIdVerbatim()
    ensures Serialize(SiteId) == SiteId
  {
    assert forall k | 0 <= k < |SiteId| :: IsAsciiDigit(SiteId[k]) by {
      assert SiteId == ['1', '9', '1', '7', '6', '1', '4'];
    }
    SerializeDigits(SiteId);
  }

  /** A pair whose name and value both serialize to themselves is written `name=value`. */
  lemma VerbatimPair(name: string, value: string)
    requires Serialize(name) == name && Serialize(value) == value
    ensures SerializePair((name, value)) == Param(name, value)
  {
  }

  /**
   The whole URL of a valid booking: the base URL, `?`, then
   `site_id=1917614`, the check-in day, month and year, the check-out day,
   month and year, each as the date's own digits, and last the form-encoded
   hotel id, joined by `&`.
   */
  lemma ValidBookingUrl(b: Booking)
    requires ValidBooking(b)
    ensures BuildUrl(b) == BaseUrl + "?" + (
      Param(SiteIdName, SiteId) + "&" +
      Param(CkInDayName, b.checkInDate[8..]) + "&" +
      Param(CkInMonthName, b.checkInDate[5..7]) + "&" +
      Param(CkInYearName, b.checkInDate[..4]) + "&" +
      Param(CkOutDayName, b.checkOutDate[8..]) + "&" +
      Param(CkOutMonthName, b.checkOutDate[5..7]) + "&" +
      Param(CkOutYearName, b.checkOutDate[..4]) + "&" +
      Param(SelectedPropertyName, Serialize(b.hotelId)))
  {
    var pieces := SerializePairsEach(SearchParams(b));
    HotelIdLast(b);
    SiteIdFirst(b);
    ValidBookingPieces(b);
    JoinEight(pieces, '&');
  }

  predicate EndsWith(s: string, t: string) {
    |t| <= |s| && s[|s| - |t|..] == t
  }

  lemma EndsWithLastPart(prefix: string, front: string, sep: char, last: string)
    ensures EndsWith(prefix + (front + [sep] + last), [sep] + last)
  {
    var s := prefix + (front + [sep] + last);
    assert s == (prefix + front) + ([sep] + last);
  }

  /** A digits-only hotel id appears verbatim as the last parameter of the URL. */
  lemma DigitHotelIdVerbatim(b: Booking)
    requires forall k | 0 <= k < |b.hotelId| :: IsAsciiDigit(b.hotelId[k])
    ensures EndsWith(BuildUrl(b), "&" + Param(SelectedPropertyName, b.hotelId))
  {
    HotelIdLast(b);
    SerializeDigits(b.hotelId);
    var pieces := SerializePairsEach(SearchParams(b));
    EndsWithLastPart(BaseUrl + "?", Join(pieces[..7], '&'), '&', pieces[7]);
  }

  /** The encoded hotel id cannot end the parameter early or start a fragment, and it decodes back to the id. */
  lemma HotelIdEncodingSafe(hotelId: string)
    ensures '&' !in Serialize(hotelId) && '=' !in Serialize(hotelId) && '#' !in Serialize(hotelId)
    ensures Deserialize(Serialize(hotelId)) == Some(hotelId)
  {
    SerializedHasNoDelimiters(hotelId);
    DeserializeSerialize(hotelId);
  }

  /** A check-in date whose split has fewer than three parts puts "undefined" into the URL, as `URLSearchParams` would. */
  lemma ShortDateGivesUndefined(b: Booking)
    requires '-' !in b.checkInDate
    ensures SearchParams(b)[1] == (CkInDayName, "undefined")
    ensures SearchParams(b)[2] == (CkInMonthName, "undefined")
    ensures SearchParams(b)[3] == (CkInYearName, b.checkInDate)
  {
    SplitWithoutSeparator(b.checkInDate, '-');
  }
}
