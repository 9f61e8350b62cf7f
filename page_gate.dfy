/**
 The tab-URL gate of the toolbar click handler: the extension runs only on
 an Agoda property page or checkout page, recognised by the regular
 expression `agoda\.com\/(.*\/hotel\/|book\/)` searched anywhere in the URL.
 A refused URL gets one of two fixed messages, chosen by whether the URL
 mentions `agoda.com` at all.
 */
module PageGate {
  import opened Wrappers
  import opened Strings

  const AgodaPrefix := "agoda.com/"
  const BookSegment := "book/"
  const HotelSegment := "/hotel/"

  /** Shown on an Agoda page that is neither a property nor a checkout page. */
  const WrongAgodaPageMessage := "This extension only works on Agoda property pages or checkout pages."
  /** Shown on any page that does not mention Agoda. */
  const NotAgodaMessage := "This extension only works on Agoda property pages or checkout pages. Please navigate to an Agoda page."

  datatype Verdict = Proceed | Refuse(message: string)

  /** The characters the regular-expression `.` does not match. */
  predicate IsLineTerminator(c: char) {
    c == '\n' || c == '\r' || c as int == 0x2028 || c as int == 0x2029
  }

  /** `.*` can consume `url[from..to]`. */
  ghost predicate DotStarSpans(url: string, from: nat, to: nat) {
    from <= to <= |url| && forall m | from <= m < to :: !IsLineTerminator(url[m])
  }

  /** Reference meaning of the pattern matching at position `i`. */
  ghost predicate PatternMatchesAt(url: string, i: nat) {
    && StartsAt(url, i, AgodaPrefix)
    && (|| StartsAt(url, i + |AgodaPrefix|, BookSegment)
        || exists j: nat :: DotStarSpans(url, i + |AgodaPrefix|, j) && StartsAt(url, j, HotelSegment))
  }

  /** Reference meaning of the unanchored search `url.match(pattern)` succeeding. */
  ghost predicate PatternMatches(url: string) {
    exists i: nat :: PatternMatchesAt(url, i)
  }

  /** Search for `.*\/hotel\/` starting at position `k`. */
  function HotelFrom(url: string, k: nat): bool
    decreases |url| - k
  {
    k <= |url| &&
    (StartsAt(url, k, HotelSegment) || (k < |url| && !IsLineTerminator(url[k]) && HotelFrom(url, k + 1)))
  }

  /** The pattern, tried at position `i`. */
  function MatchesAt(url: string, i: nat): bool {
    StartsAt(url, i, AgodaPrefix) &&
    (StartsAt(url, i + |AgodaPrefix|, BookSegment) || HotelFrom(url, i + |AgodaPrefix|))
  }

  /** The pattern, tried at every position from `i` on. */
  function SearchFrom(url: string, i: nat): bool
    decreases |url| - i
  {
    i <= |url| && (MatchesAt(url, i) || SearchFrom(url, i + 1))
  }

  lemma {:induction false} HotelFromSpec(url: string, k: nat)
    ensures HotelFrom(url, k) <==> exists j: nat :: DotStarSpans(url, k, j) && StartsAt(url, j, HotelSegment)
    decreases |url| - k
  {
    if k <= |url| {
      if k < |url| {
        HotelFromSpec(url, k + 1);
      }
      if HotelFrom(url, k) {
        if StartsAt(url, k, HotelSegment) {
          assert DotStarSpans(url, k, k);
        } else {
          var j: nat :| DotStarSpans(url, k + 1, j) && StartsAt(url, j, HotelSegment);
          assert DotStarSpans(url, k, j);
        }
      }
      if exists j: nat :: DotStarSpans(url, k, j) && StartsAt(url, j, HotelSegment) {
        var j: nat :| DotStarSpans(url, k, j) && StartsAt(url, j, HotelSegment);
        if j != k {
          assert DotStarSpans(url, k + 1, j);
        }
      }
    }
  }

  lemma MatchesAtSpec(url: string, i: nat)
    ensures MatchesAt(url, i) <==> PatternMatchesAt(url, i)
  {
    HotelFromSpec(url, i + |AgodaPrefix|);
  }

  lemma {:induction false} SearchFromSpec(url: string, i: nat)
    ensures SearchFrom(url, i) <==> exists k: nat :: i <= k && PatternMatchesAt(url, k)
    decreases |url| - i
  {
    if i <= |url| {
      SearchFromSpec(url, i + 1);
      MatchesAtSpec(url, i);
      if exists k: nat :: i <= k && PatternMatchesAt(url, k) {
        var k: nat :| i <= k && PatternMatchesAt(url, k);
        assert k == i || (i + 1 <= k && PatternMatchesAt(url, k));
      }
    }
  }

  /** `url.match(/agoda\.com\/(.*\/hotel\/|book\/)/)` is non-null. */
  function MatchesPattern(url: string): (b: bool)
    ensures b <==> PatternMatches(url)
  {
    SearchFromSpec(url, 0);
    SearchFrom(url, 0)
  }

  /**
   The decision taken on the tab's URL before anything is injected into the
   page: proceed on a matching URL, otherwise refuse with the message that
   fits whether the page is on Agoda at all.
   */
  function CheckTabUrl(url: string): (v: Verdict)
    ensures v.Proceed? <==> PatternMatches(url)
    ensures v.Refuse? ==> v.message == if Occurs(url, "agoda.com") then WrongAgodaPageMessage else NotAgodaMessage
  {
    if url == [] || !MatchesPattern(url) then
      Refuse(if Includes(url, "agoda.com") then WrongAgodaPageMessage else NotAgodaMessage)
    else
      Proceed
  }

  /**
   The gate as the listener writes it, on a tab whose `url` may be missing.
   A missing URL passes the `!tab.url` test into the refusal branch, where
   `tab.url.includes` throws; `None` stands for that exception.
   */
  function CheckTabAsWritten(url: Option<string>): (r: Option<Verdict>)
    ensures r.None? <==> url.None?
  {
    match url
    case None => None
    case Some(u) => Some(CheckTabUrl(u))
  }

  /**
   The gate as its `!tab.url` test intends it: a tab without a URL is
   refused with the message for pages off Agoda, like the empty URL.
   */
  function CheckTab(url: Option<string>): (v: Verdict)
    ensures v.Proceed? <==> url.Some? && PatternMatches(url.value)
    ensures url.None? ==> v == Refuse(NotAgodaMessage)
  {
    match url
    case None => Refuse(NotAgodaMessage)
    case Some(u) => CheckTabUrl(u)
  }

  /** Wherever the gate as written does not throw, the intended gate decides the same. */
  lemma CheckTabAgreesWhereDefined(url: Option<string>)
    requires CheckTabAsWritten(url).Some?
    ensures CheckTabAsWritten(url) == Some(CheckTab(url))
  {
  }

  /** A missing URL and the empty URL are refused alike. */
  lemma MissingUrlLikeEmptyUrl()
    ensures CheckTab(None) == CheckTab(Some(""))
  {
    EmptyUrlRefused();
  }

  /** A URL the gate lets through mentions Agoda, so the two messages split the refusals only. */
  lemma AcceptedUrlMentionsAgoda(url: string)
    requires PatternMatches(url)
    ensures Occurs(url, "agoda.com")
  {
    var i: nat :| PatternMatchesAt(url, i);
    assert url[i..i + 10][..9] == "agoda.com";
    assert StartsAt(url, i, "agoda.com");
  }

  /** A property page (`https://www.agoda.com/<locale>/<name>/hotel/<city>.html`) is accepted. */
  lemma PropertyPageAccepted()
    ensures CheckTabUrl("https://www." + AgodaPrefix + "en-gb/grand-palace" + HotelSegment + "bangkok-th.html") == Proceed
  {
    var path := "en-gb/grand-palace";
    var url := "https://www." + AgodaPrefix + path + HotelSegment + "bangkok-th.html";
    assert url[12..22] == AgodaPrefix;
    assert url[40..47] == HotelSegment;
    forall m | 22 <= m < 40
      ensures !IsLineTerminator(url[m])
    {
      assert url[m] == path[m - 22];
    }
    assert DotStarSpans(url, 22, 40) && StartsAt(url, 40, HotelSegment);
    assert PatternMatchesAt(url, 12);
  }

  /** A checkout page (`.../book/...`) is accepted. */
  lemma CheckoutPageAccepted()
    ensures CheckTabUrl("https://www." + AgodaPrefix + BookSegment + "?hotel_id=12345") == Proceed
  {
    var url := "https://www." + AgodaPrefix + BookSegment + "?hotel_id=12345";
    assert url[12..22] == AgodaPrefix;
    assert url[22..27] == BookSegment;
    assert PatternMatchesAt(url, 12);
  }

  /** The empty URL is refused with the message for pages off Agoda. */
  lemma EmptyUrlRefused()
    ensures CheckTabUrl("") == Refuse(NotAgodaMessage)
  {
  }
}
