/**
 * The per-page loop of `run` in src/main.py: list the public pages, then fetch, chunk, embed and store
 * each page, counting it as stored, skipped or failed. The wiki, the embedder and the Qdrant calls are
 * arguments: what `get_page` returns for a page id, what the embedder returns for the chunk texts
 * (`None` when it raises), and how the delete and upsert calls of the k-th page end.
 */
module Sync {
  import opened Wrappers
  import opened Text
  import W = Windows
  import C = Chunker
  import WC = WikiClient
  import S = Store

  datatype Config = Config(wikiUrl: string, chunkSize: int, chunkOverlap: int)

  /** Settings for which the window loop advances: `0 <= CHUNK_OVERLAP < CHUNK_SIZE`. */
  predicate ValidChunking(cfg: Config) {
    0 <= cfg.chunkOverlap < cfg.chunkSize
  }

  /** Where a page ended up. */
  datatype Outcome = Stored | Skipped | Failed

  // ---------------------------------------------------------------------------
  // Deciding what to do with one page
  // ---------------------------------------------------------------------------

  /** A fetch error reads as an access restriction: "not authorized" in any case, or "6013". */
  predicate Restricted(message: string) {
    Contains(Lower(message), "not authorized") || Contains(message, "6013")
  }

  /**
   * "not authorized" in any letter case, or "6013", anywhere in the message makes it a restriction; a
   * message with no `6` and no `n` or `N` is none.
   */
  lemma RestrictedMessages(message: string, i: nat)
    ensures i + 14 <= |message| && Lower(message[i..i + 14]) == "not authorized" ==> Restricted(message)
    ensures i + 4 <= |message| && message[i..i + 4] == "6013" ==> Restricted(message)
    ensures (forall k :: 0 <= k < |message| ==> message[k] != '6' && message[k] != 'n' && message[k] != 'N') ==>
      !Restricted(message)
  {
    var low := Lower(message);
    if i + 14 <= |message| && Lower(message[i..i + 14]) == "not authorized" {
      assert low[i..i + 14] == Lower(message[i..i + 14]);
      ContainsAt(low, "not authorized", i);
    }
    if i + 4 <= |message| && message[i..i + 4] == "6013" {
      ContainsAt(message, "6013", i);
    }
    if forall k :: 0 <= k < |message| ==> message[k] != '6' && message[k] != 'n' && message[k] != 'N' {
      ContainsNot(message, "6013");
      ContainsNot(low, "not authorized");
    }
  }

  /** Every access denial the client raises reads as a restriction, so a denied page is skipped. */
  lemma ForbiddenIsRestricted(rendered: string)
    ensures Restricted("GraphQL error 6013 (PageViewForbidden): " + rendered)
  {
    var prefix := "GraphQL error 6013 (PageViewForbidden): ";
    var m := prefix + rendered;
    assert prefix[14] == '6' && prefix[15] == '0' && prefix[16] == '1' && prefix[17] == '3';
    assert m[14..18] == prefix[14..18];
    ContainsAt(m, "6013", 14);
  }

  /** `(page.get("contentType") or "markdown").lower()`. */
  function ContentTypeOf(page: WC.Page): (r: string)
    ensures page.contentType.None? || page.contentType == Some("") ==> r == "markdown"
    ensures page.contentType.Some? && page.contentType.value != "" ==> |r| == |page.contentType.value|
    ensures page.contentType.Some? && page.contentType.value != "" ==> r == Lower(page.contentType.value)
    ensures forall i :: 0 <= i < |r| ==> !('A' <= r[i] <= 'Z')
  {
    Lower(OrElse(page.contentType, "markdown"))
  }

  /** `f"{wiki_url.rstrip('/')}/{page['path'].lstrip('/')}"`. */
  function PageUrl(wikiUrl: string, path: string): string {
    RStripChar(wikiUrl, '/') + "/" + LStripChar(path, '/')
  }

  /** The page URL stored with the chunks is the URL the client scrapes for that path. */
  lemma PageUrlIsScrapeUrl(wikiUrl: string, path: string, apiKey: Option<string>, delay: real, retries: int)
    ensures PageUrl(wikiUrl, path) == WC.ScrapeUrl(WC.NewClient(wikiUrl, apiKey, delay, retries), path)
  {
  }

  function TagsOf(page: WC.Page): seq<string> {
    match page.tags
    case Some(ts) => ts
    case None => []
  }

  /** The payload of one chunk. */
  function ChunkPayload(c: W.Chunk, page: WC.Page, pageUrl: string): (p: S.Payload)
    ensures p.Keys == {"text", "chunk_index", "section", "page_path", "page_title", "page_url", "description", "tags", "updated_at"}
    ensures p["text"] == S.VStr(c.text) && p["chunk_index"] == S.VInt(c.chunkIndex) && p["section"] == S.VStr(c.section)
    ensures p["page_path"] == S.VStr(page.path) && p["page_url"] == S.VStr(pageUrl) && p["tags"] == S.VStrs(TagsOf(page))
    ensures p["page_title"] == S.VStr(if page.title.Some? then page.title.value else "")
    ensures p["description"] == S.VStr(if page.description.Some? then page.description.value else "")
    ensures p["updated_at"] == S.VStr(if page.updatedAt.Some? then page.updatedAt.value else "")
  {
    map[
      "text" := S.VStr(c.text),
      "chunk_index" := S.VInt(c.chunkIndex),
      "section" := S.VStr(c.section),
      "page_path" := S.VStr(page.path),
      "page_title" := S.VStr(OrElse(page.title, "")),
      "page_url" := S.VStr(pageUrl),
      "description" := S.VStr(OrElse(page.description, "")),
      "tags" := S.VStrs(TagsOf(page)),
      "updated_at" := S.VStr(OrElse(page.updatedAt, ""))]
  }

  /** One payload per chunk, in chunk order. */
  function Payloads(chunks: seq<W.Chunk>, page: WC.Page, pageUrl: string): (r: seq<S.Payload>)
    ensures |r| == |chunks|
    ensures forall k :: 0 <= k < |r| ==> r[k] == ChunkPayload(chunks[k], page, pageUrl)
  {
    seq(|chunks|, k requires 0 <= k < |chunks| => ChunkPayload(chunks[k], page, pageUrl))
  }

  function Texts(chunks: seq<W.Chunk>): (r: seq<string>)
    ensures |r| == |chunks| && forall k :: 0 <= k < |r| ==> r[k] == chunks[k].text
  {
    seq(|chunks|, k requires 0 <= k < |chunks| => chunks[k].text)
  }

  /** What the loop body decides before it calls the store. */
  datatype Plan = Skip | Fail | Write(vectors: seq<seq<real>>, payloads: seq<S.Payload>)

  /** The chunks of a fetched page whose content is not blank. */
  function PageChunksOf(cfg: Config, page: WC.Page, stripHtml: string -> string): seq<W.Chunk>
    requires ValidChunking(cfg)
  {
    C.PageChunks(OrElse(page.content, ""), ContentTypeOf(page), cfg.chunkSize, cfg.chunkOverlap, stripHtml)
  }

  /** The body of the loop for a page that was fetched: skip blank content and pages without chunks. */
  function PlanContent(cfg: Config, page: WC.Page, embed: seq<string> -> Option<seq<seq<real>>>,
                       stripHtml: string -> string): (r: Plan)
    requires ValidChunking(cfg)
    ensures AllSpace(OrElse(page.content, "")) ==> r == Skip
    ensures !AllSpace(OrElse(page.content, "")) ==> (var chunks := PageChunksOf(cfg, page, stripHtml);
      (chunks == [] ==> r == Skip) &&
      (chunks != [] ==> (r == Fail <==> embed(Texts(chunks)).None?) && (r.Write? <==> embed(Texts(chunks)).Some?)))
    ensures r.Write? ==> (var chunks := PageChunksOf(cfg, page, stripHtml);
      chunks != [] && embed(Texts(chunks)) == Some(r.vectors) &&
      r.payloads == Payloads(chunks, page, PageUrl(cfg.wikiUrl, page.path)))
  {
    if Strip(OrElse(page.content, "")) == "" then Skip
    else
      var chunks := PageChunksOf(cfg, page, stripHtml);
      if chunks == [] then Skip
      else
        match embed(Texts(chunks))
        case None => Fail
        case Some(vectors) => Write(vectors, Payloads(chunks, page, PageUrl(cfg.wikiUrl, page.path)))
  }

  /** The body of the loop up to the store call. */
  function PlanPage(cfg: Config, fetched: Result<Option<WC.Page>, WC.WikiError>,
                    embed: seq<string> -> Option<seq<seq<real>>>, stripHtml: string -> string): (r: Plan)
    requires ValidChunking(cfg)
    ensures fetched.Failure? ==> (r == Skip <==> Restricted(fetched.error.message)) && (r.Skip? || r.Fail?)
    ensures fetched == Success(None) ==> r == Skip
    ensures r.Write? ==> fetched.Success? && fetched.value.Some?
    ensures fetched.Success? && fetched.value.Some? ==> r == PlanContent(cfg, fetched.value.value, embed, stripHtml)
  {
    match fetched
    case Failure(e) => if Restricted(e.message) then Skip else Fail
    case Success(None) => Skip
    case Success(Some(page)) => PlanContent(cfg, page, embed, stripHtml)
  }

  /** How the page is counted once the store calls have ended as they did. */
  function OutcomeOf(plan: Plan, deleteCall: S.Call, upsertCall: S.Call): (r: Outcome)
    ensures r == Stored <==> plan.Write? && |plan.vectors| == |plan.payloads| && !deleteCall.Broken? && upsertCall.Applied?
    ensures r == Skipped <==> plan.Skip?
  {
    match plan
    case Skip => Skipped
    case Fail => Failed
    case Write(vectors, payloads) =>
      if |vectors| == |payloads| && !deleteCall.Broken? && upsertCall.Applied? then Stored else Failed
  }

  /** The collection after the page's store calls, as `upsert_page_chunks` leaves it. */
  function PointsAfter(pts: seq<S.Point>, nextId: nat, pageId: int, plan: Plan, deleteCall: S.Call, upsertCall: S.Call)
    : seq<S.Point>
  {
    if !plan.Write? || |plan.vectors| != |plan.payloads| || deleteCall.Broken? then pts
    else
      var kept := if deleteCall.Applied? then S.WithoutPage(pts, pageId) else pts;
      if upsertCall.Applied? then kept + S.NewPoints(nextId, pageId, plan.vectors, plan.payloads) else kept
  }

  /** The point carries no integer `page_id`: no page's delete filter matches it. */
  predicate Unpaged(pt: S.Point) {
    !("page_id" in pt.payload && pt.payload["page_id"].VInt?)
  }

  lemma UnpagedExactly(pt: S.Point)
    ensures Unpaged(pt) <==> forall p :: !S.OfPage(pt, p)
  {
    if !Unpaged(pt) {
      assert S.OfPage(pt, pt.payload["page_id"].i);
    }
  }

  /** A page's store calls neither add nor remove a point that carries no page id. */
  lemma PointsAfterKeepsUnpaged(pts: seq<S.Point>, nextId: nat, pageId: int, plan: Plan, deleteCall: S.Call,
                                upsertCall: S.Call, pt: S.Point)
    requires Unpaged(pt)
    ensures pt in PointsAfter(pts, nextId, pageId, plan, deleteCall, upsertCall) <==> pt in pts
  {
    if plan.Write? && |plan.vectors| == |plan.payloads| && !deleteCall.Broken? {
      S.WithoutPageExactly(pts, pageId, pt);
      var added := S.NewPoints(nextId, pageId, plan.vectors, plan.payloads);
      assert pt !in added;
    }
  }

  /** The points with no page id are those of `original`: the run as a whole only touches pages' points. */
  ghost predicate UnpagedKept(pts: seq<S.Point>, original: seq<S.Point>) {
    forall pt :: Unpaged(pt) ==> (pt in pts <==> pt in original)
  }

  lemma UnpagedKeptStep(pts: seq<S.Point>, nextId: nat, pageId: int, plan: Plan, deleteCall: S.Call,
                        upsertCall: S.Call, original: seq<S.Point>)
    requires UnpagedKept(pts, original)
    ensures UnpagedKept(PointsAfter(pts, nextId, pageId, plan, deleteCall, upsertCall), original)
  {
    forall pt | Unpaged(pt)
      ensures pt in PointsAfter(pts, nextId, pageId, plan, deleteCall, upsertCall) <==> pt in original
    {
      PointsAfterKeepsUnpaged(pts, nextId, pageId, plan, deleteCall, upsertCall, pt);
    }
  }

  /**
   * One page's store calls touch no other page; and a page stored after an applied delete holds exactly
   * its new points, one per chunk, each payload tagged with the page id.
   */
  lemma PointsAfterScoped(pts: seq<S.Point>, nextId: nat, pageId: int, plan: Plan, deleteCall: S.Call, upsertCall: S.Call)
    ensures forall q :: q != pageId ==>
      S.PagePoints(PointsAfter(pts, nextId, pageId, plan, deleteCall, upsertCall), q) == S.PagePoints(pts, q)
    ensures OutcomeOf(plan, deleteCall, upsertCall) == Stored && deleteCall.Applied? ==>
      S.PagePoints(PointsAfter(pts, nextId, pageId, plan, deleteCall, upsertCall), pageId) ==
        S.NewPoints(nextId, pageId, plan.vectors, plan.payloads)
  {
    if plan.Write? && |plan.vectors| == |plan.payloads| && !deleteCall.Broken? {
      var added := S.NewPoints(nextId, pageId, plan.vectors, plan.payloads);
      S.FiltersOfOnePage(added, pageId);
      if deleteCall.Applied? {
        S.FiltersOfOtherPages(pts, pageId);
        S.ReplacePage(pts, pageId, nextId, plan.vectors, plan.payloads);
      } else {
        forall q | q != pageId
          ensures S.PagePoints(PointsAfter(pts, nextId, pageId, plan, deleteCall, upsertCall), q) == S.PagePoints(pts, q)
        {
          S.PagePointsAppend(pts, added, q);
        }
      }
    }
  }

  /**
   * The points of the page itself after its store calls, from the points it had: a stored page holds
   * its new points, after the stale ones when the delete was refused and swallowed; a failed upsert
   * after an applied delete leaves it with none; otherwise it keeps what it had.
   */
  function PageAfter(own: seq<S.Point>, nextId: nat, pageId: int, plan: Plan, deleteCall: S.Call, upsertCall: S.Call)
    : (r: seq<S.Point>)
    ensures !plan.Write? ==> r == own
    ensures OutcomeOf(plan, deleteCall, upsertCall) == Stored && deleteCall.Applied? ==>
      r == S.NewPoints(nextId, pageId, plan.vectors, plan.payloads)
    ensures OutcomeOf(plan, deleteCall, upsertCall) == Stored && deleteCall.Rejected? ==>
      r == own + S.NewPoints(nextId, pageId, plan.vectors, plan.payloads)
    ensures OutcomeOf(plan, deleteCall, upsertCall) == Failed ==>
      r == (if plan.Write? && |plan.vectors| == |plan.payloads| && deleteCall.Applied? then [] else own)
  {
    if !plan.Write? || |plan.vectors| != |plan.payloads| || deleteCall.Broken? then own
    else
      var kept := if deleteCall.Applied? then [] else own;
      if upsertCall.Applied? then kept + S.NewPoints(nextId, pageId, plan.vectors, plan.payloads) else kept
  }

  /** The page's own points after its store calls depend only on the points it had. */
  lemma PageAfterOf(pts: seq<S.Point>, nextId: nat, pageId: int, plan: Plan, deleteCall: S.Call, upsertCall: S.Call)
    ensures S.PagePoints(PointsAfter(pts, nextId, pageId, plan, deleteCall, upsertCall), pageId) ==
      PageAfter(S.PagePoints(pts, pageId), nextId, pageId, plan, deleteCall, upsertCall)
  {
    if plan.Write? && |plan.vectors| == |plan.payloads| && !deleteCall.Broken? {
      var added := S.NewPoints(nextId, pageId, plan.vectors, plan.payloads);
      S.FiltersOfOnePage(added, pageId);
      var kept := if deleteCall.Applied? then S.WithoutPage(pts, pageId) else pts;
      S.FiltersOfOtherPages(pts, pageId);
      S.PagePointsAppend(kept, added, pageId);
    }
  }

  /** The stored payload of chunk `k` records its text, its index `k` on the page, and the page id. */
  lemma StoredPayloads(cfg: Config, page: WC.Page, stripHtml: string -> string, pageId: int, k: nat)
    requires ValidChunking(cfg) && k < |PageChunksOf(cfg, page, stripHtml)|
    ensures var chunks := PageChunksOf(cfg, page, stripHtml);
      var stored := S.Tagged(Payloads(chunks, page, PageUrl(cfg.wikiUrl, page.path))[k], pageId);
      stored["text"] == S.VStr(chunks[k].text) && stored["chunk_index"] == S.VInt(k) && stored["page_id"] == S.VInt(pageId)
  {
    var sections := C.PageSections(OrElse(page.content, ""), ContentTypeOf(page), stripHtml);
    C.ChunkIndicesContiguous(sections, cfg.chunkSize, cfg.chunkOverlap);
  }

  // ---------------------------------------------------------------------------
  // The loop
  // ---------------------------------------------------------------------------

  /**
   * The body of the loop for a fetched page: its chunks, their vectors and their payloads. The chunking
   * runs the loops of `C.ChunkPage`; `PlanContent` is its specification, the function that `Outcomes`
   * and the lemmas use, since a function cannot call a method.
   */
  method PrepareContent(cfg: Config, page: WC.Page, embed: seq<string> -> Option<seq<seq<real>>>,
                        stripHtml: string -> string)
    returns (plan: Plan)
    requires ValidChunking(cfg)
    ensures plan == PlanContent(cfg, page, embed, stripHtml)
  {
    var content := OrElse(page.content, "");
    if Strip(content) == "" {
      return Skip;
    }
    var chunks := C.ChunkPage(content, ContentTypeOf(page), cfg.chunkSize, cfg.chunkOverlap, stripHtml);
    assert chunks == PageChunksOf(cfg, page, stripHtml);
    if chunks == [] {
      return Skip;
    }
    var vectors := embed(Texts(chunks));
    if vectors.None? {
      return Fail;
    }
    plan := Write(vectors.value, Payloads(chunks, page, PageUrl(cfg.wikiUrl, page.path)));
  }

  /** The body of the loop up to the store call: classify a failed fetch, or prepare the page (`PlanPage`). */
  method PreparePage(cfg: Config, fetched: Result<Option<WC.Page>, WC.WikiError>,
                     embed: seq<string> -> Option<seq<seq<real>>>, stripHtml: string -> string)
    returns (plan: Plan)
    requires ValidChunking(cfg)
    ensures plan == PlanPage(cfg, fetched, embed, stripHtml)
  {
    match fetched
    case Failure(e) =>
      plan := if Restricted(e.message) then Skip else Fail;
    case Success(None) =>
      plan := Skip;
    case Success(Some(page)) =>
      plan := PrepareContent(cfg, page, embed, stripHtml);
  }

  /** The store call of the loop body, and how the page is counted. */
  method ApplyPlan(pageId: int, plan: Plan, deleteCall: S.Call, upsertCall: S.Call, store: S.VectorStore)
    returns (outcome: Outcome)
    requires store.Valid()
    modifies store
    ensures store.Valid()
    ensures outcome == OutcomeOf(plan, deleteCall, upsertCall)
    ensures store.points == PointsAfter(old(store.points), old(store.nextId), pageId, plan, deleteCall, upsertCall)
  {
    match plan
    case Skip => outcome := Skipped;
    case Fail => outcome := Failed;
    case Write(vectors, payloads) =>
      var raised := store.UpsertPageChunks(pageId, vectors, payloads, deleteCall, upsertCall);
      outcome := if raised.Some? then Failed else Stored;
  }

  /** The whole body of the loop for one listed page; other pages' points stay as they were. */
  method ProcessPage(cfg: Config, pageId: int, fetched: Result<Option<WC.Page>, WC.WikiError>,
                     embed: seq<string> -> Option<seq<seq<real>>>, deleteCall: S.Call, upsertCall: S.Call,
                     stripHtml: string -> string, store: S.VectorStore)
    returns (outcome: Outcome)
    requires ValidChunking(cfg) && store.Valid()
    modifies store
    ensures store.Valid()
    ensures outcome == OutcomeOf(PlanPage(cfg, fetched, embed, stripHtml), deleteCall, upsertCall)
    ensures store.points ==
      PointsAfter(old(store.points), old(store.nextId), pageId, PlanPage(cfg, fetched, embed, stripHtml), deleteCall, upsertCall)
    ensures forall q :: q != pageId ==> S.PagePoints(store.points, q) == S.PagePoints(old(store.points), q)
  {
    var plan := PreparePage(cfg, fetched, embed, stripHtml);
    outcome := ApplyPlan(pageId, plan, deleteCall, upsertCall, store);
    PointsAfterScoped(old(store.points), old(store.nextId), pageId, plan, deleteCall, upsertCall);
  }

  /** How many outcomes are `o`. */
  function Count(outcomes: seq<Outcome>, o: Outcome): (n: nat)
    ensures n <= |outcomes|
    decreases |outcomes|
  {
    if outcomes == [] then 0
    else Count(outcomes[..|outcomes| - 1], o) + (if outcomes[|outcomes| - 1] == o then 1 else 0)
  }

  /** Every page is counted exactly once. */
  lemma {:induction false} CountsCover(outcomes: seq<Outcome>)
    ensures Count(outcomes, Stored) + Count(outcomes, Skipped) + Count(outcomes, Failed) == |outcomes|
    decreases |outcomes|
  {
    if outcomes != [] {
      CountsCover(outcomes[..|outcomes| - 1]);
    }
  }

  /** The three counters of `run`. */
  datatype Tally = Tally(ok: nat, skipped: nat, errors: nat)

  /** The counter a page's outcome increments. */
  function Bump(t: Tally, o: Outcome): Tally {
    match o
    case Stored => t.(ok := t.ok + 1)
    case Skipped => t.(skipped := t.skipped + 1)
    case Failed => t.(errors := t.errors + 1)
  }

  /** The counters after the given outcomes, in order: each one counts its kind of outcome. */
  function TallyOf(outcomes: seq<Outcome>): (t: Tally)
    ensures t == Tally(Count(outcomes, Stored), Count(outcomes, Skipped), Count(outcomes, Failed))
    decreases |outcomes|
  {
    if outcomes == [] then Tally(0, 0, 0)
    else Bump(TallyOf(outcomes[..|outcomes| - 1]), outcomes[|outcomes| - 1])
  }

  lemma TallySnoc(outcomes: seq<Outcome>, x: Outcome)
    ensures TallyOf(outcomes + [x]) == Bump(TallyOf(outcomes), x)
  {
    assert (outcomes + [x])[..|outcomes|] == outcomes;
  }

  /** The pages of no listed id among the first `i` have the points they had. */
  ghost predicate Untouched(pts: seq<S.Point>, original: seq<S.Point>, pages: seq<WC.Meta>, i: nat)
    requires i <= |pages|
  {
    forall q :: (forall k :: 0 <= k < i ==> pages[k].id != q) ==> S.PagePoints(pts, q) == S.PagePoints(original, q)
  }

  lemma UntouchedStep(before: seq<S.Point>, after: seq<S.Point>, original: seq<S.Point>, pages: seq<WC.Meta>, i: nat)
    requires i < |pages| && Untouched(before, original, pages, i)
    requires forall q :: q != pages[i].id ==> S.PagePoints(after, q) == S.PagePoints(before, q)
    ensures Untouched(after, original, pages, i + 1)
  {
    forall q | forall k :: 0 <= k < i + 1 ==> pages[k].id != q
      ensures S.PagePoints(after, q) == S.PagePoints(original, q)
    {
      assert pages[i].id != q;
    }
  }

  /** The `k`-th listed page's id is listed nowhere else. */
  predicate ListedOnce(pages: seq<WC.Meta>, k: nat)
    requires k < |pages|
  {
    forall j :: 0 <= j < |pages| && j != k ==> pages[j].id != pages[k].id
  }

  /**
   * The `k`-th listed page holds the points its own store calls leave it, starting from the points it had
   * in `original`, with new ids from some start.
   */
  ghost predicate Synced(pts: seq<S.Point>, original: seq<S.Point>, cfg: Config, pages: seq<WC.Meta>, k: nat,
                         fetch: int -> Result<Option<WC.Page>, WC.WikiError>, embed: seq<string> -> Option<seq<seq<real>>>,
                         deleteCall: nat -> S.Call, upsertCall: nat -> S.Call, stripHtml: string -> string)
    requires ValidChunking(cfg) && k < |pages|
  {
    exists start: nat :: S.PagePoints(pts, pages[k].id) ==
      PageAfter(S.PagePoints(original, pages[k].id), start, pages[k].id,
                PlanPage(cfg, fetch(pages[k].id), embed, stripHtml), deleteCall(k), upsertCall(k))
  }

  /** Every page listed once among the first `i` is synced. */
  ghost predicate SyncedUpTo(pts: seq<S.Point>, original: seq<S.Point>, cfg: Config, pages: seq<WC.Meta>, i: nat,
                             fetch: int -> Result<Option<WC.Page>, WC.WikiError>, embed: seq<string> -> Option<seq<seq<real>>>,
                             deleteCall: nat -> S.Call, upsertCall: nat -> S.Call, stripHtml: string -> string)
    requires ValidChunking(cfg) && i <= |pages|
  {
    forall k :: 0 <= k < i && ListedOnce(pages, k) ==>
      Synced(pts, original, cfg, pages, k, fetch, embed, deleteCall, upsertCall, stripHtml)
  }

  lemma SyncedStep(before: seq<S.Point>, nextId: nat, original: seq<S.Point>, cfg: Config, pages: seq<WC.Meta>, i: nat,
                   fetch: int -> Result<Option<WC.Page>, WC.WikiError>, embed: seq<string> -> Option<seq<seq<real>>>,
                   deleteCall: nat -> S.Call, upsertCall: nat -> S.Call, stripHtml: string -> string)
    requires ValidChunking(cfg) && i < |pages|
    requires Untouched(before, original, pages, i)
    requires SyncedUpTo(before, original, cfg, pages, i, fetch, embed, deleteCall, upsertCall, stripHtml)
    ensures SyncedUpTo(PointsAfter(before, nextId, pages[i].id, PlanPage(cfg, fetch(pages[i].id), embed, stripHtml),
                                   deleteCall(i), upsertCall(i)),
                       original, cfg, pages, i + 1, fetch, embed, deleteCall, upsertCall, stripHtml)
  {
    var id := pages[i].id;
    var plan := PlanPage(cfg, fetch(id), embed, stripHtml);
    var after := PointsAfter(before, nextId, id, plan, deleteCall(i), upsertCall(i));
    PointsAfterScoped(before, nextId, id, plan, deleteCall(i), upsertCall(i));
    forall k | 0 <= k < i + 1 && ListedOnce(pages, k)
      ensures Synced(after, original, cfg, pages, k, fetch, embed, deleteCall, upsertCall, stripHtml)
    {
      if k < i {
        assert pages[k].id != id;
        var start: nat :| S.PagePoints(before, pages[k].id) ==
          PageAfter(S.PagePoints(original, pages[k].id), start, pages[k].id,
                    PlanPage(cfg, fetch(pages[k].id), embed, stripHtml), deleteCall(k), upsertCall(k));
        assert S.PagePoints(after, pages[k].id) == S.PagePoints(before, pages[k].id);
      } else {
        assert forall j :: 0 <= j < i ==> pages[j].id != id;
        assert S.PagePoints(before, id) == S.PagePoints(original, id);
        PageAfterOf(before, nextId, id, plan, deleteCall(i), upsertCall(i));
        assert S.PagePoints(after, id) == PageAfter(S.PagePoints(original, id), nextId, id, plan, deleteCall(i), upsertCall(i));
      }
    }
  }

  /**
   * What a synced page holds: after a store with an applied delete, exactly one new point per chunk,
   * tagged with the page id; after a skip, a failed fetch or a failed embedding, the points it had.
   */
  lemma SyncedMeans(pts: seq<S.Point>, original: seq<S.Point>, cfg: Config, pages: seq<WC.Meta>, k: nat,
                    fetch: int -> Result<Option<WC.Page>, WC.WikiError>, embed: seq<string> -> Option<seq<seq<real>>>,
                    deleteCall: nat -> S.Call, upsertCall: nat -> S.Call, stripHtml: string -> string)
    requires ValidChunking(cfg) && k < |pages|
    requires Synced(pts, original, cfg, pages, k, fetch, embed, deleteCall, upsertCall, stripHtml)
    ensures var plan := PlanPage(cfg, fetch(pages[k].id), embed, stripHtml);
      PageOutcome(cfg, pages, k, fetch, embed, deleteCall, upsertCall, stripHtml) == Stored && deleteCall(k).Applied? ==>
        |S.PagePoints(pts, pages[k].id)| == |plan.vectors| &&
        exists start: nat :: S.PagePoints(pts, pages[k].id) == S.NewPoints(start, pages[k].id, plan.vectors, plan.payloads)
    ensures !PlanPage(cfg, fetch(pages[k].id), embed, stripHtml).Write? ==>
      S.PagePoints(pts, pages[k].id) == S.PagePoints(original, pages[k].id)
  {
    var plan := PlanPage(cfg, fetch(pages[k].id), embed, stripHtml);
    var start: nat :| S.PagePoints(pts, pages[k].id) ==
      PageAfter(S.PagePoints(original, pages[k].id), start, pages[k].id, plan, deleteCall(k), upsertCall(k));
  }

  /** The exit status after the loop: 2 when a page failed, 0 otherwise. */
  function ExitStatus(errors: nat): (status: int)
    ensures status == 2 <==> errors > 0
    ensures status == 0 <==> errors == 0
  {
    if errors > 0 then 2 else 0
  }

  /** The outcome of the `k`-th listed page. */
  function PageOutcome(cfg: Config, pages: seq<WC.Meta>, k: nat, fetch: int -> Result<Option<WC.Page>, WC.WikiError>,
                       embed: seq<string> -> Option<seq<seq<real>>>, deleteCall: nat -> S.Call, upsertCall: nat -> S.Call,
                       stripHtml: string -> string): Outcome
    requires ValidChunking(cfg) && k < |pages|
  {
    OutcomeOf(PlanPage(cfg, fetch(pages[k].id), embed, stripHtml), deleteCall(k), upsertCall(k))
  }

  /** The loop body for the `i`-th listed page: the pages not yet reached keep their points. */
  method SyncPage(cfg: Config, pages: seq<WC.Meta>, i: nat, fetch: int -> Result<Option<WC.Page>, WC.WikiError>,
                  embed: seq<string> -> Option<seq<seq<real>>>, deleteCall: nat -> S.Call, upsertCall: nat -> S.Call,
                  stripHtml: string -> string, store: S.VectorStore, ghost original: seq<S.Point>)
    returns (outcome: Outcome)
    requires ValidChunking(cfg) && i < |pages| && store.Valid() && Untouched(store.points, original, pages, i)
    requires SyncedUpTo(store.points, original, cfg, pages, i, fetch, embed, deleteCall, upsertCall, stripHtml)
    modifies store
    ensures store.Valid() && Untouched(store.points, original, pages, i + 1)
    ensures SyncedUpTo(store.points, original, cfg, pages, i + 1, fetch, embed, deleteCall, upsertCall, stripHtml)
    ensures outcome == PageOutcome(cfg, pages, i, fetch, embed, deleteCall, upsertCall, stripHtml)
    ensures store.points == PointsAfter(old(store.points), old(store.nextId), pages[i].id,
                                        PlanPage(cfg, fetch(pages[i].id), embed, stripHtml), deleteCall(i), upsertCall(i))
  {
    var meta := pages[i];
    outcome := ProcessPage(cfg, meta.id, fetch(meta.id), embed, deleteCall(i), upsertCall(i), stripHtml, store);
    UntouchedStep(old(store.points), store.points, original, pages, i);
    SyncedStep(old(store.points), old(store.nextId), original, cfg, pages, i, fetch, embed, deleteCall, upsertCall, stripHtml);
  }

  /** The outcomes of the first `n` listed pages, in order. */
  function Outcomes(cfg: Config, pages: seq<WC.Meta>, n: nat, fetch: int -> Result<Option<WC.Page>, WC.WikiError>,
                    embed: seq<string> -> Option<seq<seq<real>>>, deleteCall: nat -> S.Call, upsertCall: nat -> S.Call,
                    stripHtml: string -> string): (r: seq<Outcome>)
    requires ValidChunking(cfg) && n <= |pages|
    ensures |r| == n
    ensures forall k :: 0 <= k < n ==> r[k] == PageOutcome(cfg, pages, k, fetch, embed, deleteCall, upsertCall, stripHtml)
  {
    if n == 0 then []
    else
      var prev := Outcomes(cfg, pages, n - 1, fetch, embed, deleteCall, upsertCall, stripHtml);
      prev + [PageOutcome(cfg, pages, n - 1, fetch, embed, deleteCall, upsertCall, stripHtml)]
  }

  /**
   * `run` from the page listing on. `fetch(id)` is `get_page(id)`, called without metadata, so the HTML
   * fallback of the client is never taken here. Settings outside `0 <= CHUNK_OVERLAP < CHUNK_SIZE` end the
   * run with status 1 before anything is fetched: an overlap at least the size stalls the window loop, and
   * a negative overlap, which the loop would run with (skipping words between windows), is rejected too.
   * Every page listed once ends up synced: it holds the points its own store calls leave it (`SyncedMeans`).
   */
  method Run(cfg: Config, listing: Result<seq<WC.Meta>, WC.WikiError>,
             fetch: int -> Result<Option<WC.Page>, WC.WikiError>,
             embed: seq<string> -> Option<seq<seq<real>>>,
             deleteCall: nat -> S.Call, upsertCall: nat -> S.Call,
             stripHtml: string -> string, store: S.VectorStore)
    returns (status: int, ok: nat, skipped: nat, errors: nat, outcomes: seq<Outcome>)
    requires store.Valid()
    modifies store
    ensures store.Valid()
    ensures !ValidChunking(cfg) || listing.Failure? ==> status == 1 && outcomes == [] && store.points == old(store.points)
    ensures ValidChunking(cfg) && listing.Success? ==>
      |outcomes| == |listing.value| &&
      outcomes == Outcomes(cfg, listing.value, |listing.value|, fetch, embed, deleteCall, upsertCall, stripHtml) &&
      Untouched(store.points, old(store.points), listing.value, |listing.value|) &&
      SyncedUpTo(store.points, old(store.points), cfg, listing.value, |listing.value|,
                 fetch, embed, deleteCall, upsertCall, stripHtml) &&
      status == ExitStatus(errors)
    ensures ok == Count(outcomes, Stored) && skipped == Count(outcomes, Skipped) && errors == Count(outcomes, Failed)
    ensures ok + skipped + errors == |outcomes|
    ensures UnpagedKept(store.points, old(store.points))
  {
    ok, skipped, errors, outcomes := 0, 0, 0, [];
    if !ValidChunking(cfg) || listing.Failure? {
      return 1, ok, skipped, errors, outcomes;
    }
    var pages := listing.value;
    if pages == [] {
      return 0, ok, skipped, errors, outcomes;
    }
    var tally := Tally(0, 0, 0);
    var i := 0;
    while i < |pages|
      invariant 0 <= i <= |pages| && |outcomes| == i
      invariant store.Valid()
      invariant outcomes == Outcomes(cfg, pages, i, fetch, embed, deleteCall, upsertCall, stripHtml)
      invariant Untouched(store.points, old(store.points), pages, i)
      invariant SyncedUpTo(store.points, old(store.points), cfg, pages, i, fetch, embed, deleteCall, upsertCall, stripHtml)
      invariant tally == TallyOf(outcomes)
      invariant UnpagedKept(store.points, old(store.points))
    {
      ghost var before, beforeId := store.points, store.nextId;
      var outcome := SyncPage(cfg, pages, i, fetch, embed, deleteCall, upsertCall, stripHtml, store, old(store.points));
      UnpagedKeptStep(before, beforeId, pages[i].id, PlanPage(cfg, fetch(pages[i].id), embed, stripHtml),
                      deleteCall(i), upsertCall(i), old(store.points));
      TallySnoc(outcomes, outcome);
      tally := Bump(tally, outcome);
      outcomes := outcomes + [outcome];
      i := i + 1;
    }
    CountsCover(outcomes);
    ok, skipped, errors := tally.ok, tally.skipped, tally.errors;
    status := ExitStatus(errors);
  }
}
