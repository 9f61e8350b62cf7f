/**
 The toolbar-button listener: gate the tab's URL, run the extraction script
 in the tab, and either show an error or open the affiliate URL in a new
 incognito window. The Chrome calls become the `Action` the listener ends
 in; what the injection reports back (`chrome.runtime.lastError`) and what
 the script returns are inputs.
 */
module ClickHandler {
  import opened Wrappers
  import opened Strings
  import opened PageGate
  import opened Extraction
  import opened FormUrlencoded
  import opened AffiliateUrl

  const InvalidPageTitle := "Invalid Page"
  const InjectionErrorTitle := "Error"
  const DataErrorTitle := "Data Error"

  datatype Action =
    | ShowError(title: string, message: string)  // `showError(tab.id, title, message)`
    | OpenIncognitoWindow(url: string)            // `chrome.windows.create({url, incognito: true})`
    | CallbackThrows                              // `buildUrl` throws inside the callback; nothing is shown
    | ListenerThrows                              // the gate throws before anything is injected; nothing is shown

  /** The tab has a URL and the page pattern matches it. */
  ghost predicate Accepted(tabUrl: Option<string>) {
    tabUrl.Some? && PatternMatches(tabUrl.value)
  }

  /**
   What follows the gate's verdict. `lastError` is the message of
   `chrome.runtime.lastError` when the injection failed. An error record
   whose message is empty is falsy in `data.error`, so it is handed to
   `buildUrl`, whose `undefined.split` throws.
   */
  function AfterGate(verdict: Verdict, page: Page, typeError: string, lastError: Option<string>): (a: Action)
    ensures a != ListenerThrows
    ensures verdict.Refuse? ==> a == ShowError(InvalidPageTitle, verdict.message)
    ensures a.OpenIncognitoWindow? <==> verdict.Proceed? && lastError.None? && ExtractAgodaData(page, typeError).Found?
    ensures a.OpenIncognitoWindow? ==> ValidBooking(ExtractAgodaData(page, typeError).booking)
    ensures a.ShowError? && a.title == DataErrorTitle ==> a.message != "" && ExtractAgodaData(page, typeError) == Failed(a.message)
  {
    match verdict
    case Refuse(message) => ShowError(InvalidPageTitle, message)
    case Proceed =>
      if lastError.Some? then ShowError(InjectionErrorTitle, lastError.value)
      else
        match ExtractAgodaData(page, typeError)
        case Failed(error) => if error != "" then ShowError(DataErrorTitle, error) else CallbackThrows
        case Found(booking) => OpenIncognitoWindow(BuildUrl(booking))
  }

  /** The listener as written: a tab without a URL makes the gate throw. */
  function OnClickedAsWritten(tabUrl: Option<string>, page: Page, typeError: string, lastError: Option<string>): (a: Action)
    ensures a == ListenerThrows <==> tabUrl.None?
  {
    match CheckTabAsWritten(tabUrl)
    case None => ListenerThrows
    case Some(verdict) => AfterGate(verdict, page, typeError, lastError)
  }

  /** The listener with the gate as its `!tab.url` test intends it: a tab without a URL is refused. */
  function OnClicked(tabUrl: Option<string>, page: Page, typeError: string, lastError: Option<string>): (a: Action)
    ensures !Accepted(tabUrl) ==>
      a == ShowError(InvalidPageTitle,
        if tabUrl.Some? && Occurs(tabUrl.value, "agoda.com") then WrongAgodaPageMessage else NotAgodaMessage)
    ensures Accepted(tabUrl) && lastError.Some? ==> a == ShowError(InjectionErrorTitle, lastError.value)
    ensures a.OpenIncognitoWindow? <==>
      Accepted(tabUrl) && lastError.None? && ExtractAgodaData(page, typeError).Found?
    ensures a.OpenIncognitoWindow? ==> |a.url| > |BaseUrl| && a.url[..|BaseUrl| + 1] == BaseUrl + "?"
    ensures a == CallbackThrows <==>
      Accepted(tabUrl) && lastError.None? && ExtractAgodaData(page, typeError) == Failed("")
  {
    AfterGate(CheckTab(tabUrl), page, typeError, lastError)
  }

  /**
   The two listeners differ only on a tab without a URL, where the one as
   written throws and the intended one refuses the page.
   */
  lemma OnClickedAgreesWhereDefined(tabUrl: Option<string>, page: Page, typeError: string, lastError: Option<string>)
    ensures tabUrl.Some? ==> OnClickedAsWritten(tabUrl, page, typeError, lastError) == OnClicked(tabUrl, page, typeError, lastError)
    ensures tabUrl.None? ==> OnClickedAsWritten(tabUrl, page, typeError, lastError) == ListenerThrows
    ensures tabUrl.None? ==> OnClicked(tabUrl, page, typeError, lastError) == ShowError(InvalidPageTitle, NotAgodaMessage)
  {
    if tabUrl.Some? {
      CheckTabAgreesWhereDefined(tabUrl);
    }
  }

  /** On an accepted page, an extraction error with a message is shown under "Data Error", word for word. */
  lemma DataErrorShown(tabUrl: Option<string>, page: Page, typeError: string)
    requires Accepted(tabUrl)
    requires ExtractAgodaData(page, typeError).Failed? && ExtractAgodaData(page, typeError).error != ""
    ensures OnClicked(tabUrl, page, typeError, None) == ShowError(DataErrorTitle, ExtractAgodaData(page, typeError).error)
  {
    assert CheckTab(tabUrl) == Proceed;
  }

  /**
   A refused URL decides the outcome alone: neither the page, nor the
   engine's message, nor the injection result changes what is shown.
   */
  lemma RefusedPageIgnoresTheRest(tabUrl: Option<string>, page: Page, other: Page, typeError: string, otherTypeError: string,
                                   lastError: Option<string>, otherLastError: Option<string>)
    requires !Accepted(tabUrl)
    ensures OnClicked(tabUrl, page, typeError, lastError) == OnClicked(tabUrl, other, otherTypeError, otherLastError)
  {
  }

  /**
   The window that is opened carries a valid booking read from the page, and
   its query parses back to exactly that booking's eight parameters.
   */
  lemma OpenedUrlCarriesBooking(tabUrl: Option<string>, page: Page, typeError: string, lastError: Option<string>)
    requires OnClicked(tabUrl, page, typeError, lastError).OpenIncognitoWindow?
    ensures var b := ExtractAgodaData(page, typeError).booking;
      && ValidBooking(b)
      && ParseQuery(OnClicked(tabUrl, page, typeError, lastError).url[|BaseUrl| + 1..]) == Some(SearchParams(b))
  {
    BuildUrlParsesBack(ExtractAgodaData(page, typeError).booking);
  }
}
