/**
 * src/wiki_client.py: the Wiki.js GraphQL client. The HTTP transport is a function from the attempt
 * number to what that attempt got back; HTML parsing, `decompose` and CSS matching are functions from
 * the fetched page to what a selector finds.
 */
module WikiClient {
  import opened Wrappers
  import opened Text

  // ---------------------------------------------------------------------------
  // Client construction
  // ---------------------------------------------------------------------------

  datatype Client = Client(
    baseUrl: string,
    graphqlUrl: string,
    headers: map<string, string>,
    retryDelay: real,
    maxRetries: int)

  /** `WikiClient.__init__`: trailing slashes leave the base URL, the API key becomes a bearer header. */
  function NewClient(baseUrl: string, apiKey: Option<string>, retryDelay: real, maxRetries: int): (c: Client)
    ensures StartsWith(baseUrl, c.baseUrl) && (c.baseUrl == "" || c.baseUrl[|c.baseUrl| - 1] != '/')
    ensures forall i :: |c.baseUrl| <= i < |baseUrl| ==> baseUrl[i] == '/'
    ensures c.graphqlUrl == c.baseUrl + "/graphql"
    ensures "Content-Type" in c.headers && c.headers["Content-Type"] == "application/json"
    ensures "Authorization" in c.headers <==> apiKey.Some? && apiKey.value != ""
    ensures "Authorization" in c.headers ==> c.headers["Authorization"] == "Bearer " + apiKey.value
    ensures c.retryDelay == retryDelay && c.maxRetries == maxRetries
  {
    var base := RStripChar(baseUrl, '/');
    var auth: map<string, string> :=
      if apiKey.Some? && apiKey.value != "" then map["Authorization" := "Bearer " + apiKey.value] else map[];
    Client(base, base + "/graphql", map["Content-Type" := "application/json"] + auth, retryDelay, maxRetries)
  }

  /** The URL of a page's rendered HTML: base URL, one slash, the path without leading slashes. */
  function ScrapeUrl(c: Client, path: string): (url: string)
    ensures |url| > |c.baseUrl| && url[..|c.baseUrl| + 1] == c.baseUrl + "/"
    ensures var rest := url[|c.baseUrl| + 1..];
      (rest == [] || rest[0] != '/') && |rest| <= |path| && rest == path[|path| - |rest|..] &&
      forall i :: 0 <= i < |path| - |rest| ==> path[i] == '/'
  {
    var rest := LStripChar(path, '/');
    assert (c.baseUrl + "/" + rest)[|c.baseUrl| + 1..] == rest;
    c.baseUrl + "/" + rest
  }

  // ---------------------------------------------------------------------------
  // One GraphQL attempt
  // ---------------------------------------------------------------------------

  /** An entry of the GraphQL `errors` list: `extensions.exception.code` and `message`, when present. */
  datatype GqlError = GqlError(code: Option<int>, message: Option<string>)

  /** The JSON body of a successful HTTP response: a `data` member, or an `errors` member and its `str`. */
  datatype Body<D> = Data(data: D) | Errors(errors: seq<GqlError>, rendered: string)

  /** What one POST got: a response (its status, `str` of the status error, body) or a transport error. */
  datatype Outcome<D> = Response(status: int, statusText: string, body: Body<D>) | RequestError(message: string)

  /** `WikiPageForbiddenError` and the other `WikiClientError`s, with their messages. */
  datatype WikiError = Forbidden(message: string) | ClientError(message: string)

  /** `raise_for_status` lets only 2xx through. */
  predicate IsSuccess(status: int) {
    200 <= status < 300
  }

  /** 429 and every 5xx are worth retrying. */
  predicate IsTransient(status: int) {
    status == 429 || status >= 500
  }

  /** A GraphQL error that denies access: code 6013 or a message mentioning "not authorized". */
  predicate IsForbidden(e: GqlError) {
    e.code == Some(6013) || Contains(Lower(OrElse(e.message, "")), "not authorized")
  }

  /**
   * Code 6013 denies access whatever the message; "not authorized" anywhere in the message denies it in
   * any letter case; an error with neither code 6013 nor a message does not.
   */
  lemma ForbiddenErrors(code: Option<int>, message: string, i: nat)
    requires i + 14 <= |message| && Lower(message[i..i + 14]) == "not authorized"
    ensures IsForbidden(GqlError(code, Some(message)))
    ensures IsForbidden(GqlError(Some(6013), None))
    ensures code != Some(6013) ==> !IsForbidden(GqlError(code, None))
  {
    var low := Lower(OrElse(Some(message), ""));
    assert low == Lower(message);
    assert low[i..i + 14] == Lower(message[i..i + 14]);
    ContainsAt(low, "not authorized", i);
    assert Lower("") == "";
  }

  predicate AnyForbidden(errors: seq<GqlError>) {
    exists i :: 0 <= i < |errors| && IsForbidden(errors[i])
  }

  /** What an attempt decides: the data, an error to raise now, or an error to retry after. */
  datatype Step<D> = Done(data: D) | Raise(error: WikiError) | Retry(error: WikiError)

  /** How `_query` treats the outcome of one attempt. */
  function Classify<D>(o: Outcome<D>): (r: Step<D>)
    ensures r.Retry? <==> o.RequestError? || (!IsSuccess(o.status) && IsTransient(o.status))
    ensures r.Done? <==> o.Response? && IsSuccess(o.status) && o.body.Data?
    ensures r.Done? ==> r.data == o.body.data
    ensures (r.Raise? && r.error.Forbidden?) <==> o.Response? && IsSuccess(o.status) && o.body.Errors? && AnyForbidden(o.body.errors)
    ensures o.Response? && IsSuccess(o.status) && o.body.Errors? ==>
      r == Raise(if AnyForbidden(o.body.errors) then Forbidden("GraphQL error 6013 (PageViewForbidden): " + o.body.rendered)
                 else ClientError("GraphQL errors: " + o.body.rendered))
    ensures o.Response? && !IsSuccess(o.status) ==> r.error == ClientError(o.statusText)
    ensures o.RequestError? ==> r.error == ClientError(o.message)
  {
    match o
    case RequestError(msg) => Retry(ClientError(msg))
    case Response(status, text, body) =>
      if !IsSuccess(status) then
        if IsTransient(status) then Retry(ClientError(text)) else Raise(ClientError(text))
      else
        match body
        case Data(d) => Done(d)
        case Errors(errs, rendered) =>
          if AnyForbidden(errs) then Raise(Forbidden("GraphQL error 6013 (PageViewForbidden): " + rendered))
          else Raise(ClientError("GraphQL errors: " + rendered))
  }

  /** The result an attempt gives when it is the last one. */
  function Settle<D>(s: Step<D>): Result<D, WikiError> {
    match s
    case Done(d) => Success(d)
    case Raise(e) => Failure(e)
    case Retry(e) => Failure(e)
  }

  const ExceededMaxRetries: WikiError := ClientError("Exceeded max retries")

  /**
   * Attempt `a` decides `r`: every attempt from `first` up to it asked for a retry, and it is the last
   * attempt or does not ask for one itself.
   */
  ghost predicate DecidedBy<D>(maxRetries: int, transport: nat -> Outcome<D>, first: nat, a: nat, r: Result<D, WikiError>) {
    first <= a <= maxRetries && r == Settle(Classify(transport(a))) &&
    (forall b :: first <= b < a ==> Classify(transport(b)).Retry?) &&
    (Classify(transport(a)).Retry? ==> a == maxRetries)
  }

  /** An attempt that asks for a retry hands the decision on to a later one. */
  lemma DecidedAfterRetry<D>(maxRetries: int, transport: nat -> Outcome<D>, first: nat, next: nat, r: Result<D, WikiError>)
    requires Classify(transport(first)).Retry? && next == first + 1
    requires exists a :: DecidedBy(maxRetries, transport, next, a, r)
    ensures exists a :: DecidedBy(maxRetries, transport, first, a, r)
  {
    var a :| DecidedBy(maxRetries, transport, next, a, r);
    assert DecidedBy(maxRetries, transport, first, a, r);
  }

  /** What `_query` returns when attempts `attempt` to `maxRetries` are still to be made. */
  function QueryFrom<D>(maxRetries: int, transport: nat -> Outcome<D>, attempt: nat): (r: Result<D, WikiError>)
    requires 1 <= attempt <= maxRetries
    ensures exists a :: DecidedBy(maxRetries, transport, attempt, a, r)
    decreases maxRetries - attempt
  {
    var step := Classify(transport(attempt));
    if step.Retry? && attempt < maxRetries then
      var r := QueryFrom(maxRetries, transport, attempt + 1);
      DecidedAfterRetry(maxRetries, transport, attempt, attempt + 1, r);
      r
    else
      assert DecidedBy(maxRetries, transport, attempt, attempt, Settle(step));
      Settle(step)
  }

  /** An attempt before the last that asks for a retry leaves the result to the next one. */
  lemma QueryFromRetry<D>(maxRetries: int, transport: nat -> Outcome<D>, attempt: nat)
    requires 1 <= attempt < maxRetries && Classify(transport(attempt)).Retry?
    ensures QueryFrom(maxRetries, transport, attempt) == QueryFrom(maxRetries, transport, attempt + 1)
  {
  }

  /** What `_query` returns: the first attempt that does not ask for a retry, or the last attempt, decides. */
  function QueryResult<D>(maxRetries: int, transport: nat -> Outcome<D>): (r: Result<D, WikiError>)
    ensures maxRetries <= 0 ==> r == Failure(ExceededMaxRetries)
    ensures maxRetries >= 1 ==> exists a :: DecidedBy(maxRetries, transport, 1, a, r)
  {
    if maxRetries <= 0 then Failure(ExceededMaxRetries) else QueryFrom(maxRetries, transport, 1)
  }

  /** The delay slept after the `n`-th attempt: `retry_delay * attempt`. */
  function Backoff(retryDelay: real, n: nat): real {
    retryDelay * n as real
  }

  /** The delays slept after the first `n` attempts, in order. */
  function Sleeps(retryDelay: real, n: nat): (r: seq<real>)
    ensures |r| == n && forall k :: 0 <= k < n ==> r[k] == Backoff(retryDelay, k + 1)
  {
    if n == 0 then [] else Sleeps(retryDelay, n - 1) + [Backoff(retryDelay, n)]
  }

  /**
   * `WikiClient._query`: attempts 1 to `maxRetries`; a transient failure before the last attempt sleeps
   * `retryDelay * attempt` and tries again, anything else ends the loop. `transport(a)` is what attempt
   * `a` gets back; `sleeps` are the delays slept, in order.
   */
  method Query<D>(maxRetries: int, retryDelay: real, transport: nat -> Outcome<D>)
    returns (r: Result<D, WikiError>, attempts: nat, sleeps: seq<real>)
    ensures r == QueryResult(maxRetries, transport)
    ensures maxRetries <= 0 ==> attempts == 0 && sleeps == [] && r == Failure(ExceededMaxRetries)
    ensures maxRetries >= 1 ==> 1 <= attempts <= maxRetries && r == Settle(Classify(transport(attempts)))
    ensures forall a :: 1 <= a < attempts ==> Classify(transport(a)).Retry?
    ensures attempts >= 1 && Classify(transport(attempts)).Retry? ==> attempts == maxRetries
    ensures |sleeps| == if attempts == 0 then 0 else attempts - 1
    ensures forall k :: 0 <= k < |sleeps| ==> sleeps[k] == Backoff(retryDelay, k + 1)
  {
    sleeps := [];
    if maxRetries <= 0 {
      return Failure(ExceededMaxRetries), 0, sleeps;
    }
    var attempt := 1;
    while attempt < maxRetries
      invariant 1 <= attempt <= maxRetries && |sleeps| == attempt - 1
      invariant forall a :: 1 <= a < attempt ==> Classify(transport(a)).Retry?
      invariant sleeps == Sleeps(retryDelay, attempt - 1)
      invariant QueryFrom(maxRetries, transport, attempt) == QueryResult(maxRetries, transport)
    {
      var step := Classify(transport(attempt));
      if !step.Retry? {
        return Settle(step), attempt, sleeps;
      }
      QueryFromRetry(maxRetries, transport, attempt);
      sleeps := sleeps + [Backoff(retryDelay, attempt)];
      attempt := attempt + 1;
    }
    attempts := attempt;
    r := Settle(Classify(transport(attempt)));
  }

  // ---------------------------------------------------------------------------
  // Page metadata and listing
  // ---------------------------------------------------------------------------

  /** An entry of `pages.list`. */
  datatype Meta = Meta(
    id: int,
    path: Option<string>,
    title: Option<string>,
    isPublished: Option<bool>,
    isPrivate: Option<bool>,
    contentType: Option<string>,
    updatedAt: Option<string>)

  /** `p.get("isPublished") and not p.get("isPrivate")`. */
  predicate IsPublic(m: Meta) {
    m.isPublished == Some(true) && m.isPrivate != Some(true)
  }

  /** The filter of `list_public_pages`. */
  function PublicPages(pages: seq<Meta>): (r: seq<Meta>)
    ensures |r| <= |pages|
    ensures forall i :: 0 <= i < |r| ==> IsPublic(r[i]) && r[i] in pages
    decreases |pages|
  {
    if pages == [] then []
    else (if IsPublic(pages[0]) then [pages[0]] else []) + PublicPages(pages[1..])
  }

  /** The filter keeps every public page: a page is listed exactly when it is public. */
  lemma {:induction false} PublicPagesExactly(pages: seq<Meta>, m: Meta)
    ensures m in PublicPages(pages) <==> m in pages && IsPublic(m)
    decreases |pages|
  {
    if pages != [] {
      PublicPagesExactly(pages[1..], m);
      assert m in pages <==> m == pages[0] || m in pages[1..];
    }
  }

  /** The filter keeps the listing order: filtering a concatenation filters each part. */
  lemma {:induction false} PublicPagesAppend(a: seq<Meta>, b: seq<Meta>)
    ensures PublicPages(a + b) == PublicPages(a) + PublicPages(b)
    decreases |a|
  {
    if a == [] {
      assert a + b == b;
    } else {
      assert (a + b)[1..] == a[1..] + b;
      PublicPagesAppend(a[1..], b);
    }
  }

  /** `list_public_pages`: the `pages.list` query, filtered. */
  method ListPublicPages(c: Client, transport: nat -> Outcome<seq<Meta>>)
    returns (r: Result<seq<Meta>, WikiError>, attempts: nat)
    ensures r == match QueryResult(c.maxRetries, transport)
      case Success(pages) => Success(PublicPages(pages))
      case Failure(e) => Failure(e)
    ensures c.maxRetries <= 0 ==> r == Failure(ExceededMaxRetries)
    ensures c.maxRetries >= 1 ==>
      var step := Classify(transport(attempts));
      1 <= attempts <= c.maxRetries &&
      (step.Done? ==> r == Success(PublicPages(step.data))) &&
      (!step.Done? ==> r == Failure(step.error))
  {
    var q, n, _ := Query(c.maxRetries, c.retryDelay, transport);
    attempts := n;
    r := match q
      case Success(pages) => Success(PublicPages(pages))
      case Failure(e) => Failure(e);
  }

  // ---------------------------------------------------------------------------
  // Page records and the HTML fallback
  // ---------------------------------------------------------------------------

  /** The page record `get_page` returns (`pages.single`, or the scraped record of the same shape). */
  datatype Page = Page(
    id: Option<int>,
    path: string,
    title: Option<string>,
    content: Option<string>,
    description: Option<string>,
    contentType: Option<string>,
    tags: Option<seq<string>>,
    createdAt: Option<string>,
    updatedAt: Option<string>)

  /** `_CONTENT_SELECTORS`, in the order they are tried. */
  const ContentSelectors: seq<string> := ["div.contents", "div#page-contents", "div.page-content", "main article", "main"]

  /** The record `_scrape_page` builds around the rendered HTML of the content element. */
  function ScrapedRecord(path: string, meta: Meta, html: string): (p: Page)
    ensures p.contentType == Some("html") && p.content == Some(html) && p.path == path
    ensures p.description == Some("") && p.tags == Some([]) && p.createdAt == Some("")
    ensures p.id == Some(meta.id)
    ensures p.title == Some(OrElse(meta.title, "")) && p.updatedAt == Some(OrElse(meta.updatedAt, ""))
  {
    Page(Some(meta.id), path, Some(OrElse(meta.title, "")), Some(html), Some(""), Some("html"), Some([]),
      Some(""), Some(OrElse(meta.updatedAt, "")))
  }

  /** The element `_scrape_page` keeps: the first selector, from `j` on, that finds one, else `<body>`. */
  function SelectedFrom(html: string, selectOne: (string, string) -> Option<string>, body: Option<string>, j: nat)
    : Option<string>
    requires j <= |ContentSelectors|
    decreases |ContentSelectors| - j
  {
    if j == |ContentSelectors| then body
    else if selectOne(html, ContentSelectors[j]).Some? then selectOne(html, ContentSelectors[j])
    else SelectedFrom(html, selectOne, body, j + 1)
  }

  function Selected(html: string, selectOne: (string, string) -> Option<string>, body: Option<string>): Option<string> {
    SelectedFrom(html, selectOne, body, 0)
  }

  /**
   * The selector loop of `_scrape_page`: the first selector that finds an element wins, then `<body>`.
   * `selectOne(html, s)` is what `soup.select_one(s)` renders after the navigation noise is removed, and
   * `body` is `soup.body`; a found element is always truthy.
   */
  method SelectContent(html: string, selectOne: (string, string) -> Option<string>, body: Option<string>)
    returns (el: Option<string>, tried: nat)
    ensures el == Selected(html, selectOne, body)
    ensures tried <= |ContentSelectors|
    ensures forall j :: 0 <= j < tried ==> selectOne(html, ContentSelectors[j]).None?
    ensures tried < |ContentSelectors| ==> el == selectOne(html, ContentSelectors[tried]) && el.Some?
    ensures tried == |ContentSelectors| ==> el == body
  {
    tried := 0;
    while tried < |ContentSelectors|
      invariant tried <= |ContentSelectors|
      invariant forall j :: 0 <= j < tried ==> selectOne(html, ContentSelectors[j]).None?
      invariant SelectedFrom(html, selectOne, body, tried) == Selected(html, selectOne, body)
    {
      el := selectOne(html, ContentSelectors[tried]);
      if el.Some? {
        return;
      }
      tried := tried + 1;
    }
    el := body;
  }

  /**
   * `_scrape_page`: fetch the rendered page, pick its content element, and wrap it in a record.
   * `get(url)` is the HTML of a 2xx response or the text of the HTTP error; `selectOne(html, s)` and
   * `bodyOf(html)` stand for the parse.
   */
  method ScrapePage(c: Client, path: string, meta: Meta, get: string -> Result<string, string>,
                    selectOne: (string, string) -> Option<string>, bodyOf: string -> Option<string>)
    returns (r: Result<Option<Page>, WikiError>)
    ensures get(ScrapeUrl(c, path)).Failure? ==>
      r == Failure(ClientError("HTTP scrape failed for " + ScrapeUrl(c, path) + ": " + get(ScrapeUrl(c, path)).error))
    ensures get(ScrapeUrl(c, path)).Success? ==>
      var html := get(ScrapeUrl(c, path)).value;
      r == Success(match Selected(html, selectOne, bodyOf(html))
        case None => None
        case Some(el) => Some(ScrapedRecord(path, meta, el)))
    ensures get(ScrapeUrl(c, path)).Success? ==>
      var html := get(ScrapeUrl(c, path)).value;
      (r == Success(None) <==>
        bodyOf(html).None? && forall j :: 0 <= j < |ContentSelectors| ==> selectOne(html, ContentSelectors[j]).None?)
  {
    var url := ScrapeUrl(c, path);
    var fetched := get(url);
    if fetched.Failure? {
      return Failure(ClientError("HTTP scrape failed for " + url + ": " + fetched.error));
    }
    var html := fetched.value;
    var el, _ := SelectContent(html, selectOne, bodyOf(html));
    if el.None? {
      return Success(None);
    }
    r := Success(Some(ScrapedRecord(path, meta, el.value)));
  }

  /** `meta and meta.get("path")`: the metadata names a non-empty path to scrape. */
  predicate HasPath(meta: Option<Meta>) {
    meta.Some? && meta.value.path.Some? && meta.value.path.value != ""
  }

  /**
   * `get_page`: the `pages.single` query; when it is forbidden and the metadata names a path, the HTML
   * scrape replaces it, and any other failure is raised as it is.
   */
  method GetPage(c: Client, meta: Option<Meta>, transport: nat -> Outcome<Option<Page>>,
                 get: string -> Result<string, string>, selectOne: (string, string) -> Option<string>,
                 bodyOf: string -> Option<string>)
    returns (r: Result<Option<Page>, WikiError>)
    ensures var q := QueryResult(c.maxRetries, transport);
      !(q.Failure? && q.error.Forbidden? && HasPath(meta)) ==> r == q
    ensures var q := QueryResult(c.maxRetries, transport);
      q.Failure? && q.error.Forbidden? && HasPath(meta) ==>
        var url := ScrapeUrl(c, meta.value.path.value);
        (get(url).Failure? ==> r == Failure(ClientError("HTTP scrape failed for " + url + ": " + get(url).error))) &&
        (get(url).Success? ==>
          var html := get(url).value;
          r == Success(match Selected(html, selectOne, bodyOf(html))
            case None => None
            case Some(el) => Some(ScrapedRecord(meta.value.path.value, meta.value, el))))
  {
    var q, _, _ := Query(c.maxRetries, c.retryDelay, transport);
    if q.Failure? && q.error.Forbidden? && HasPath(meta) {
      r := ScrapePage(c, meta.value.path.value, meta.value, get, selectOne, bodyOf);
    } else {
      r := q;
    }
  }
}
