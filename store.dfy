/**
 * src/store.py: the Qdrant collection holding every page's chunks. The collection is a sequence of
 * points; the Qdrant calls `delete`, `upsert` and `get_collection` act on it directly, and each call's
 * own success or failure is an argument. Point ids come from a counter: `uuid4` is only relied on for
 * giving ids no stored point has.
 */
module Store {
  import opened Wrappers

  /** A payload value: the page id and chunk index, a text field, or the tag list. */
  datatype Value = VInt(i: int) | VStr(s: string) | VStrs(ss: seq<string>)

  type Payload = map<string, Value>

  datatype Point = Point(id: nat, vector: seq<real>, payload: Payload)

  datatype Distance = Cosine | Dot | Euclid

  datatype VectorParams = VectorParams(size: int, distance: Distance)

  datatype Collection = Collection(params: VectorParams, points: seq<Point>)

  /** How a Qdrant call ended: applied, refused with `UnexpectedResponse`, or failed with another exception. */
  datatype Call = Applied | Rejected(message: string) | Broken(message: string)

  // ---------------------------------------------------------------------------
  // The collection catalogue
  // ---------------------------------------------------------------------------

  /** `_ensure_collection`: create the collection, cosine distance, only when no collection has its name. */
  function EnsureCollection(catalog: map<string, Collection>, name: string, size: int): (r: map<string, Collection>)
    ensures name in r
    ensures name in catalog ==> r == catalog
    ensures name !in catalog ==> r[name] == Collection(VectorParams(size, Cosine), []) && r.Keys == catalog.Keys + {name}
    ensures forall n :: n in catalog ==> n in r && r[n] == catalog[n]
  {
    if name in catalog then catalog else catalog[name := Collection(VectorParams(size, Cosine), [])]
  }

  /**
   * Ensuring twice is ensuring once, and an existing collection is reused as it is even when its
   * vector size differs from the embedder's.
   */
  lemma EnsureCollectionIdempotent(catalog: map<string, Collection>, name: string, size: int, size2: int)
    ensures EnsureCollection(EnsureCollection(catalog, name, size), name, size2) == EnsureCollection(catalog, name, size)
    ensures name in catalog ==> EnsureCollection(catalog, name, size2)[name].params == catalog[name].params
  {
  }

  // ---------------------------------------------------------------------------
  // Points of a page
  // ---------------------------------------------------------------------------

  /** The point carries `page_id == p` in its payload: what the delete filter matches. */
  predicate OfPage(pt: Point, p: int) {
    "page_id" in pt.payload && pt.payload["page_id"] == VInt(p)
  }

  /** The points of page `p`, in order. */
  function PagePoints(pts: seq<Point>, p: int): (r: seq<Point>)
    ensures forall i :: 0 <= i < |r| ==> OfPage(r[i], p) && r[i] in pts
    decreases |pts|
  {
    if pts == [] then []
    else (if OfPage(pts[0], p) then [pts[0]] else []) + PagePoints(pts[1..], p)
  }

  /** The points not of page `p`, in order: what deleting page `p` leaves. */
  function WithoutPage(pts: seq<Point>, p: int): (r: seq<Point>)
    ensures forall i :: 0 <= i < |r| ==> !OfPage(r[i], p) && r[i] in pts
    decreases |pts|
  {
    if pts == [] then []
    else (if OfPage(pts[0], p) then [] else [pts[0]]) + WithoutPage(pts[1..], p)
  }

  /** `{**payload, "page_id": page_id}`. */
  function Tagged(payload: Payload, p: int): (r: Payload)
    ensures "page_id" in r && r["page_id"] == VInt(p)
    ensures forall k :: k != "page_id" ==> (k in r <==> k in payload)
    ensures forall k :: k in payload && k != "page_id" ==> r[k] == payload[k]
  {
    payload["page_id" := VInt(p)]
  }

  /** The points built from the vectors and payloads, with ids `start`, `start + 1`, ... */
  function NewPoints(start: nat, p: int, vectors: seq<seq<real>>, payloads: seq<Payload>): (r: seq<Point>)
    requires |vectors| == |payloads|
    ensures |r| == |vectors|
    ensures forall k :: 0 <= k < |r| ==>
      r[k].id == start + k && r[k].vector == vectors[k] && r[k].payload == Tagged(payloads[k], p) && OfPage(r[k], p)
  {
    seq(|vectors|, k requires 0 <= k < |vectors| => Point(start + k, vectors[k], Tagged(payloads[k], p)))
  }

  lemma {:induction false} PagePointsAppend(a: seq<Point>, b: seq<Point>, p: int)
    ensures PagePoints(a + b, p) == PagePoints(a, p) + PagePoints(b, p)
    decreases |a|
  {
    if a == [] {
      assert a + b == b;
    } else {
      assert (a + b)[0] == a[0] && (a + b)[1..] == a[1..] + b;
      PagePointsAppend(a[1..], b, p);
      var head := if OfPage(a[0], p) then [a[0]] else [];
      assert head + (PagePoints(a[1..], p) + PagePoints(b, p)) == (head + PagePoints(a[1..], p)) + PagePoints(b, p);
    }
  }

  lemma {:induction false} WithoutPageAppend(a: seq<Point>, b: seq<Point>, p: int)
    ensures WithoutPage(a + b, p) == WithoutPage(a, p) + WithoutPage(b, p)
    decreases |a|
  {
    if a == [] {
      assert a + b == b;
    } else {
      assert (a + b)[0] == a[0] && (a + b)[1..] == a[1..] + b;
      WithoutPageAppend(a[1..], b, p);
      var head := if OfPage(a[0], p) then [] else [a[0]];
      assert head + (WithoutPage(a[1..], p) + WithoutPage(b, p)) == (head + WithoutPage(a[1..], p)) + WithoutPage(b, p);
    }
  }

  /** Filtering by `page_id` keeps a point set made only of page `p`'s points whole, and drops it otherwise. */
  lemma {:induction false} FiltersOfOnePage(pts: seq<Point>, p: int)
    requires forall i :: 0 <= i < |pts| ==> OfPage(pts[i], p)
    ensures PagePoints(pts, p) == pts && WithoutPage(pts, p) == []
    ensures forall q :: q != p ==> PagePoints(pts, q) == []
    decreases |pts|
  {
    if pts != [] {
      FiltersOfOnePage(pts[1..], p);
      assert [pts[0]] + pts[1..] == pts;
    }
  }

  /** A page's points and the points of other pages are separated by the filters. */
  lemma {:induction false} FiltersOfOtherPages(pts: seq<Point>, p: int)
    ensures PagePoints(WithoutPage(pts, p), p) == []
    ensures WithoutPage(WithoutPage(pts, p), p) == WithoutPage(pts, p)
    ensures forall q :: q != p ==> PagePoints(WithoutPage(pts, p), q) == PagePoints(pts, q)
    decreases |pts|
  {
    if pts != [] {
      FiltersOfOtherPages(pts[1..], p);
      var head := if OfPage(pts[0], p) then [] else [pts[0]];
      PagePointsAppend(head, WithoutPage(pts[1..], p), p);
      WithoutPageAppend(head, WithoutPage(pts[1..], p), p);
      forall q | q != p ensures PagePoints(WithoutPage(pts, p), q) == PagePoints(pts, q) {
        PagePointsAppend(head, WithoutPage(pts[1..], p), q);
      }
    }
  }

  /** The delete filter matches exactly: a point is among page `p`'s points iff it is stored and of page `p`. */
  lemma {:induction false} PagePointsExactly(pts: seq<Point>, p: int, pt: Point)
    ensures pt in PagePoints(pts, p) <==> pt in pts && OfPage(pt, p)
    decreases |pts|
  {
    if pts != [] {
      PagePointsExactly(pts[1..], p, pt);
      assert pt in pts <==> pt == pts[0] || pt in pts[1..];
    }
  }

  /** And what deleting page `p` leaves is exactly the stored points not of page `p`. */
  lemma {:induction false} WithoutPageExactly(pts: seq<Point>, p: int, pt: Point)
    ensures pt in WithoutPage(pts, p) <==> pt in pts && !OfPage(pt, p)
    decreases |pts|
  {
    if pts != [] {
      WithoutPageExactly(pts[1..], p, pt);
      assert pt in pts <==> pt == pts[0] || pt in pts[1..];
    }
  }

  /**
   * The page-scoped replace: after deleting page `p` and inserting its new points, page `p` has exactly
   * the new points, every other page has exactly the points it had, and the points of no page `p` are
   * the ones there were, in order.
   */
  lemma ReplacePage(pts: seq<Point>, p: int, start: nat, vectors: seq<seq<real>>, payloads: seq<Payload>)
    requires |vectors| == |payloads|
    ensures var after := WithoutPage(pts, p) + NewPoints(start, p, vectors, payloads);
      PagePoints(after, p) == NewPoints(start, p, vectors, payloads) &&
      WithoutPage(after, p) == WithoutPage(pts, p) &&
      forall q :: q != p ==> PagePoints(after, q) == PagePoints(pts, q)
  {
    var added := NewPoints(start, p, vectors, payloads);
    FiltersOfOtherPages(pts, p);
    FiltersOfOnePage(added, p);
    PagePointsAppend(WithoutPage(pts, p), added, p);
    WithoutPageAppend(WithoutPage(pts, p), added, p);
    forall q | q != p ensures PagePoints(WithoutPage(pts, p) + added, q) == PagePoints(pts, q) {
      PagePointsAppend(WithoutPage(pts, p), added, q);
    }
  }

  /** When the delete is refused and swallowed, the insert still happens and the stale points stay. */
  lemma SwallowedDeleteKeepsStale(pts: seq<Point>, p: int, start: nat, vectors: seq<seq<real>>, payloads: seq<Payload>)
    requires |vectors| == |payloads|
    ensures PagePoints(pts + NewPoints(start, p, vectors, payloads), p) == PagePoints(pts, p) + NewPoints(start, p, vectors, payloads)
  {
    FiltersOfOnePage(NewPoints(start, p, vectors, payloads), p);
    PagePointsAppend(pts, NewPoints(start, p, vectors, payloads), p);
  }

  // ---------------------------------------------------------------------------
  // The store
  // ---------------------------------------------------------------------------

  /** One more than the largest id among the points. */
  function IdBound(pts: seq<Point>): (n: nat)
    ensures forall i :: 0 <= i < |pts| ==> pts[i].id < n
    decreases |pts|
  {
    if pts == [] then 0
    else
      var rest := IdBound(pts[1..]);
      if pts[0].id < rest then rest else pts[0].id + 1
  }

  const LengthMismatch := "vectors and payloads must have the same length"

  class VectorStore {
    var name: string
    var vectorSize: int
    var params: VectorParams
    var points: seq<Point>
    /** The id generator: every id handed out so far is below it. */
    var nextId: nat

    predicate Valid()
      reads this
    {
      forall i :: 0 <= i < |points| ==> points[i].id < nextId
    }

    /** `VectorStore.__init__`: the named collection of the server's catalogue, created when absent. */
    constructor (catalog: map<string, Collection>, collection: string, vectorSize: int)
      ensures Valid()
      ensures name == collection && this.vectorSize == vectorSize
      ensures var c := EnsureCollection(catalog, collection, vectorSize)[collection]; params == c.params && points == c.points
    {
      var c := EnsureCollection(catalog, collection, vectorSize)[collection];
      name := collection;
      this.vectorSize := vectorSize;
      params := c.params;
      points := c.points;
      nextId := IdBound(c.points);
    }

    /**
     * `delete_page`: remove the points of page `p`. A refused call is logged and swallowed; any other
     * failure is raised (returned) and the collection is unchanged.
     */
    method DeletePage(p: int, call: Call) returns (raised: Option<string>)
      requires Valid()
      modifies this
      ensures Valid() && unchanged(this`name, this`vectorSize, this`params, this`nextId)
      ensures call.Applied? ==> points == WithoutPage(old(points), p) && raised == None
      ensures call.Rejected? ==> points == old(points) && raised == None
      ensures call.Broken? ==> points == old(points) && raised == Some(call.message)
    {
      match call
      case Applied =>
        points := WithoutPage(points, p);
        raised := None;
      case Rejected(_) =>
        raised := None;
      case Broken(msg) =>
        raised := Some(msg);
    }

    /**
     * `upsert_page_chunks`: check the lengths agree, delete the page's points, then insert one point per
     * payload with a fresh id, its vector, and the payload tagged with the page id.
     */
    method UpsertPageChunks(p: int, vectors: seq<seq<real>>, payloads: seq<Payload>, deleteCall: Call, upsertCall: Call)
      returns (raised: Option<string>)
      requires Valid()
      modifies this
      ensures Valid() && unchanged(this`name, this`vectorSize, this`params)
      ensures |vectors| != |payloads| ==> raised == Some(LengthMismatch) && points == old(points)
      ensures |vectors| == |payloads| && deleteCall.Broken? ==> raised == Some(deleteCall.message) && points == old(points)
      ensures |vectors| == |payloads| && !deleteCall.Broken? ==>
        var kept := if deleteCall.Applied? then WithoutPage(old(points), p) else old(points);
        if upsertCall.Applied? then
          raised == None && points == kept + NewPoints(old(nextId), p, vectors, payloads)
        else
          raised == Some(upsertCall.message) && points == kept
      ensures forall k :: 0 <= k < |points| && points[k] !in old(points) ==> points[k].id >= old(nextId)
    {
      if |vectors| != |payloads| {
        return Some(LengthMismatch);
      }
      raised := DeletePage(p, deleteCall);
      if raised.Some? {
        return;
      }
      var added := NewPoints(nextId, p, vectors, payloads);
      assert forall k :: 0 <= k < |points| ==> points[k] in old(points);
      AppendFreshPoints(old(points), points, nextId, p, vectors, payloads);
      nextId := nextId + |vectors|;
      if !upsertCall.Applied? {
        return Some(upsertCall.message);
      }
      points := points + added;
    }

    /** `collection_info`: the name, the counts and the status of the collection. */
    function Info(reported: ServerInfo): (r: InfoReport)
      reads this
      ensures r.name == name && r.pointsCount == reported.pointsCount && r.status == reported.status
      ensures r.vectorsCount.Some? ==> r.vectorsCount == reported.vectorsCount || r.vectorsCount == reported.pointsCount
      ensures reported.vectorsCount.Some? && reported.vectorsCount.value != 0 ==> r.vectorsCount == reported.vectorsCount
      ensures reported.vectorsCount.None? || reported.vectorsCount == Some(0) ==> r.vectorsCount == reported.pointsCount
    {
      InfoReport(name, VectorsCountReported(reported), reported.pointsCount, reported.status)
    }
  }

  /**
   * Fresh points appended to points drawn from `before`, all of whose ids are below `start`: every id is
   * below the new bound, and a point not in `before` has an id of at least `start`.
   */
  lemma AppendFreshPoints(before: seq<Point>, kept: seq<Point>, start: nat, p: int, vectors: seq<seq<real>>,
                          payloads: seq<Payload>)
    requires |vectors| == |payloads|
    requires forall i :: 0 <= i < |before| ==> before[i].id < start
    requires forall i :: 0 <= i < |kept| ==> kept[i] in before
    ensures forall i :: 0 <= i < |kept| ==> kept[i].id < start
    ensures var all := kept + NewPoints(start, p, vectors, payloads);
      (forall i :: 0 <= i < |all| ==> all[i].id < start + |vectors|) &&
      (forall k :: 0 <= k < |all| && all[k] !in before ==> all[k].id >= start)
  {
    var added := NewPoints(start, p, vectors, payloads);
    var all := kept + added;
    forall i | 0 <= i < |all|
      ensures all[i].id < start + |vectors|
      ensures all[i] !in before ==> all[i].id >= start
    {
      if i >= |kept| {
        assert all[i] == added[i - |kept|];
      }
    }
  }

  /** What `get_collection` reports; either count may be missing. */
  datatype ServerInfo = ServerInfo(vectorsCount: Option<int>, pointsCount: Option<int>, status: string)

  datatype InfoReport = InfoReport(name: string, vectorsCount: Option<int>, pointsCount: Option<int>, status: string)

  /** `vectors_count or points_count`: a missing or zero vector count gives way to the point count. */
  function VectorsCountReported(info: ServerInfo): (r: Option<int>)
    ensures info.vectorsCount.Some? && info.vectorsCount.value != 0 ==> r == info.vectorsCount
    ensures info.vectorsCount.None? || info.vectorsCount == Some(0) ==> r == info.pointsCount
  {
    if info.vectorsCount.Some? && info.vectorsCount.value != 0 then info.vectorsCount else info.pointsCount
  }
}
