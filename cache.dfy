/**
  The random-page sampling cache of cache.go (duplicated in main.go).

  The cache hands out one photo per call. When its queue is empty it makes up
  to ten attempts, each asking the photo server for one record of a random
  page, and enqueues the first record whose ID it has not shown in the
  current cycle. It remembers every dispatched ID and forgets them all once
  their number reaches `maxPage * 10`, which starts a new cycle.

  The random page numbers and the server's answers are not visible to the
  model: each call takes the ten `rand.Intn(maxPage)` draws and the ten
  per-attempt outcomes as inputs.
 */
module Cache {
  import opened Wrappers
  import opened Format
  import opened Immich
  import opened Configuration
  import opened Sequences

  /** Attempts made by one refill of the queue. */
  const MaxAttempts := 10
  /** The page size of every refill request. */
  const SearchPageSize := 1
  /** Assumed photos per page; the cycle ends after `maxPage * PhotosPerPage` dispatches. */
  const PhotosPerPage := 10
  const ImageType := "IMAGE"

  /** The JSON body of one metadata-search request. */
  datatype SearchRequest = SearchRequest(assetType: string, page: int, size: int, model: string)

  // ---------------------------------------------------------------------
  // The post-decode part of `fetchPage`: drop screenshots, keep the rest.

  function LowerChar(c: char): char {
    if 'A' <= c <= 'Z' then (c as int + 32) as char else c
  }

  /** `strings.ToLower` on the letters A to Z. */
  function ToLower(s: string): (r: string)
    ensures |r| == |s| && forall i :: 0 <= i < |s| ==> r[i] == LowerChar(s[i])
  {
    if s == [] then [] else [LowerChar(s[0])] + ToLower(s[1..])
  }

  /** `strings.Contains`: `sub` occurs somewhere in `s`. */
  predicate Contains(s: string, sub: string) {
    |sub| <= |s| && (s[..|sub|] == sub || Contains(s[1..], sub))
  }

  predicate IsScreenshot(fileName: string) {
    Contains(ToLower(fileName), "screenshot")
  }

  /** `sub` occurs in `s` starting at index `i`. */
  predicate OccursAt(s: string, sub: string, i: nat) {
    i + |sub| <= |s| && s[i..i + |sub|] == sub
  }

  /** `Contains` holds exactly when `sub` occurs at some index. */
  lemma {:induction false} ContainsIff(s: string, sub: string)
    ensures Contains(s, sub) <==> exists i: nat :: OccursAt(s, sub, i)
  {
    if |sub| <= |s| {
      if s[..|sub|] == sub {
        assert OccursAt(s, sub, 0);
      } else {
        ContainsIff(s[1..], sub);
        if Contains(s[1..], sub) {
          var i: nat :| OccursAt(s[1..], sub, i);
          assert s[i + 1..i + 1 + |sub|] == s[1..][i..i + |sub|];
          assert OccursAt(s, sub, i + 1);
        }
        if exists i: nat :: OccursAt(s, sub, i) {
          var i: nat :| OccursAt(s, sub, i);
          assert i != 0;
          assert s[1..][i - 1..i - 1 + |sub|] == s[i..i + |sub|];
          assert OccursAt(s[1..], sub, i - 1);
        }
      }
    }
  }

  lemma ToLowerIdempotent(s: string)
    ensures ToLower(ToLower(s)) == ToLower(s)
  {
  }

  /** The screenshot test ignores letter case. */
  lemma ScreenshotIgnoresCase(fileName: string)
    ensures IsScreenshot(ToLower(fileName)) == IsScreenshot(fileName)
  {
    ToLowerIdempotent(fileName);
  }

  /** A record as the cache builds it: location unresolved, no position in a cycle. */
  predicate Unresolved(p: PhotoInfo) {
    p.city == "" && !p.cityDone && p.index == 0 && p.total == 0
  }

  function ToPhoto(a: SearchAsset): (p: PhotoInfo)
    ensures p.id == a.id && p.date == FormatDate(a.fileCreatedAt) && Unresolved(p)
  {
    PhotoInfo(a.id, FormatDate(a.fileCreatedAt), "", 0, 0, false)
  }

  predicate IsScreenshotAsset(a: SearchAsset) {
    IsScreenshot(a.originalFileName)
  }

  /** The items `fetchPage` keeps, in item order: those whose file name marks no screenshot. */
  function KeptItems(items: seq<SearchAsset>): seq<SearchAsset> {
    Without(items, IsScreenshotAsset)
  }

  /** One more item: it is kept exactly when it is no screenshot. */
  lemma KeptItemsSnoc(items: seq<SearchAsset>, a: SearchAsset)
    ensures KeptItems(items + [a]) == KeptItems(items) + (if IsScreenshot(a.originalFileName) then [] else [a])
  {
    WithoutAppend(items, [a], IsScreenshotAsset);
    WithoutSingle(a, IsScreenshotAsset);
  }

  /** The records `fetchPage` builds from the decoded items: one per kept item. */
  function KeptPhotos(items: seq<SearchAsset>): seq<PhotoInfo> {
    MapSeq(KeptItems(items), ToPhoto)
  }

  /** The records one search attempt yields; a failed request yields none. */
  function PagePhotos(outcome: Option<SearchResponse>): seq<PhotoInfo> {
    match outcome
    case None => []
    case Some(response) => KeptPhotos(response.assets.items)
  }

  /** Every record a search attempt yields is unresolved. */
  lemma PagePhotosUnresolved(outcome: Option<SearchResponse>)
    ensures forall i :: 0 <= i < |PagePhotos(outcome)| ==> Unresolved(PagePhotos(outcome)[i])
  {
    if outcome.Some? {
      var kept := KeptItems(outcome.value.assets.items);
      forall i | 0 <= i < |PagePhotos(outcome)|
        ensures Unresolved(PagePhotos(outcome)[i])
      {
        MapSeqAt(kept, ToPhoto, i);
      }
    }
  }

  /** The records of every attempt, attempt by attempt. */
  function Pages(outcomes: seq<Option<SearchResponse>>): (pages: seq<seq<PhotoInfo>>)
    ensures |pages| == |outcomes|
  {
    seq(|outcomes|, i requires 0 <= i < |outcomes| => PagePhotos(outcomes[i]))
  }

  /**
    The filter in full: the kept records are, in order, the records of the
    items that are no screenshot; each keeps its item's ID, carries its
    formatted date and is unresolved.
   */
  lemma KeptPhotosCharacterized(items: seq<SearchAsset>)
    ensures forall j :: 0 <= j < |KeptPhotos(items)| ==>
              KeptItems(items)[j] in items && !IsScreenshot(KeptItems(items)[j].originalFileName) &&
              KeptPhotos(items)[j] == ToPhoto(KeptItems(items)[j])
    ensures forall i :: 0 <= i < |items| && !IsScreenshot(items[i].originalFileName) ==> items[i] in KeptItems(items)
    ensures forall a, b :: KeptItems(a + b) == KeptItems(a) + KeptItems(b)
  {
    var kept := KeptItems(items);
    forall j | 0 <= j < |KeptPhotos(items)|
      ensures kept[j] in items && !IsScreenshot(kept[j].originalFileName) && KeptPhotos(items)[j] == ToPhoto(kept[j])
    {
      WithoutSound(items, IsScreenshotAsset, j);
      MapSeqAt(kept, ToPhoto, j);
      assert !IsScreenshotAsset(kept[j]);
    }
    forall i | 0 <= i < |items| && !IsScreenshot(items[i].originalFileName)
      ensures items[i] in KeptItems(items)
    {
      assert !IsScreenshotAsset(items[i]);
      WithoutComplete(items, IsScreenshotAsset, i);
    }
    forall a, b ensures KeptItems(a + b) == KeptItems(a) + KeptItems(b) {
      WithoutAppend(a, b, IsScreenshotAsset);
    }
  }

  /** A page without screenshots is kept whole; a page of screenshots only yields nothing. */
  lemma KeptPhotosExtremes(items: seq<SearchAsset>)
    ensures (forall i :: 0 <= i < |items| ==> !IsScreenshot(items[i].originalFileName)) ==> KeptItems(items) == items
    ensures (forall i :: 0 <= i < |items| ==> IsScreenshot(items[i].originalFileName)) ==> KeptPhotos(items) == []
  {
    if forall i :: 0 <= i < |items| ==> !IsScreenshot(items[i].originalFileName) {
      assert forall i :: 0 <= i < |items| ==> !IsScreenshotAsset(items[i]);
      WithoutNothingDropped(items, IsScreenshotAsset);
    }
    if forall i :: 0 <= i < |items| ==> IsScreenshot(items[i].originalFileName) {
      assert forall i :: 0 <= i < |items| ==> IsScreenshotAsset(items[i]);
      WithoutAllDropped(items, IsScreenshotAsset);
    }
  }

  // ---------------------------------------------------------------------
  // The specification of one refill: the first usable attempt.

  /** An attempt is usable when it yields a record whose ID was not shown. */
  predicate Usable(shown: set<string>, page: seq<PhotoInfo>) {
    page != [] && page[0].id !in shown
  }

  /** The attempt that ends a refill and the record it enqueues. */
  datatype Hit = Hit(attempt: nat, photo: PhotoInfo)

  /** The first usable attempt from attempt `k` on, if any. */
  function FirstFresh(shown: set<string>, pages: seq<seq<PhotoInfo>>, k: nat): (r: Option<Hit>)
    requires k <= |pages|
    ensures r.Some? ==> k <= r.value.attempt < |pages| && Usable(shown, pages[r.value.attempt])
    ensures r.Some? ==> r.value.photo == pages[r.value.attempt][0] && r.value.photo.id !in shown
    decreases |pages| - k
  {
    if k == |pages| then None
    else if Usable(shown, pages[k]) then Some(Hit(k, pages[k][0]))
    else FirstFresh(shown, pages, k + 1)
  }

  /** Every attempt before the one that ends a refill was unusable. */
  lemma {:induction false} FirstFreshSkipsOnlyUnusable(shown: set<string>, pages: seq<seq<PhotoInfo>>, k: nat)
    requires k <= |pages| && FirstFresh(shown, pages, k).Some?
    ensures forall j :: k <= j < FirstFresh(shown, pages, k).value.attempt ==> !Usable(shown, pages[j])
    decreases |pages| - k
  {
    if !Usable(shown, pages[k]) {
      FirstFreshSkipsOnlyUnusable(shown, pages, k + 1);
    }
  }

  /** A refill finds nothing exactly when every remaining attempt is unusable. */
  lemma {:induction false} FirstFreshNoneIff(shown: set<string>, pages: seq<seq<PhotoInfo>>, k: nat)
    requires k <= |pages|
    ensures FirstFresh(shown, pages, k).None? <==> forall j :: k <= j < |pages| ==> !Usable(shown, pages[j])
    decreases |pages| - k
  {
    if k < |pages| {
      FirstFreshNoneIff(shown, pages, k + 1);
    }
  }

  /** The number of request bodies one refill builds: up to and including the first usable attempt. */
  function AttemptsMade(shown: set<string>, pages: seq<seq<PhotoInfo>>): (n: nat)
    requires |pages| == MaxAttempts
    ensures 1 <= n <= MaxAttempts
  {
    match FirstFresh(shown, pages, 0)
    case None => MaxAttempts
    case Some(hit) => hit.attempt + 1
  }

  /** Request `i` asks for one record of page `draws[i] + 1`. */
  predicate RequestsFor(requests: seq<SearchRequest>, draws: seq<int>, model: string) {
    |requests| <= |draws| &&
    forall i :: 0 <= i < |requests| ==> requests[i] == SearchRequest(ImageType, draws[i] + 1, SearchPageSize, model)
  }

  /** Attempt `k` ends the refill when it is usable; otherwise the search goes on with attempt `k + 1`. */
  lemma FirstFreshStep(shown: set<string>, pages: seq<seq<PhotoInfo>>, k: nat)
    requires k < |pages|
    ensures Usable(shown, pages[k]) ==> FirstFresh(shown, pages, k) == Some(Hit(k, pages[k][0]))
    ensures !Usable(shown, pages[k]) ==> FirstFresh(shown, pages, k) == FirstFresh(shown, pages, k + 1)
  {
  }

  /** One more request, for the next draw. */
  lemma RequestsForSnoc(requests: seq<SearchRequest>, draws: seq<int>, model: string)
    requires RequestsFor(requests, draws, model) && |requests| < |draws|
    ensures RequestsFor(requests + [SearchRequest(ImageType, draws[|requests|] + 1, SearchPageSize, model)], draws, model)
  {
  }

  /** Every request of a refill asks for one record of a page in `[1, maxPage]`. */
  lemma RequestsInRange(requests: seq<SearchRequest>, draws: seq<int>, maxPage: int, model: string)
    requires RequestsFor(requests, draws, model)
    requires forall i :: 0 <= i < |draws| ==> 0 <= draws[i] < maxPage
    ensures forall i :: 0 <= i < |requests| ==> 1 <= requests[i].page <= maxPage && requests[i].size == 1
  {
  }

  /** The queue `next` dispatches from: the queue itself, or what a refill of an empty queue leaves. */
  function Refilled(queue: seq<PhotoInfo>, shown: set<string>, pages: seq<seq<PhotoInfo>>): seq<PhotoInfo> {
    if queue != [] then queue
    else match FirstFresh(shown, pages, 0)
      case None => []
      case Some(hit) => [hit.photo]
  }

  predicate DistinctIds(q: seq<PhotoInfo>) {
    forall i, j :: 0 <= i < j < |q| ==> q[i].id != q[j].id
  }

  predicate Distinct(s: seq<string>) {
    forall i, j :: 0 <= i < j < |s| ==> s[i] != s[j]
  }

  /** The queued records are unresolved, pairwise distinct and not yet shown. */
  predicate PendingOk(queue: seq<PhotoInfo>, shown: set<string>) {
    DistinctIds(queue) &&
    forall i :: 0 <= i < |queue| ==> queue[i].id !in shown && Unresolved(queue[i])
  }

  /**
    The cache invariant: `shown` holds exactly the IDs dispatched in this
    cycle, none of them twice, fewer than the threshold `maxPage * 10`; the
    queue holds only records that may still be dispatched.
   */
  ghost predicate CacheInvariant(maxPage: int, queue: seq<PhotoInfo>, shown: set<string>, dispatched: seq<string>) {
    maxPage > 0 &&
    shown == (set id | id in dispatched) &&
    Distinct(dispatched) &&
    |shown| < maxPage * PhotosPerPage &&
    PendingOk(queue, shown)
  }

  /** A refill of an empty queue with an unresolved, unshown record keeps the invariant. */
  lemma RefillKeepsInvariant(maxPage: int, shown: set<string>, dispatched: seq<string>, p: PhotoInfo)
    requires CacheInvariant(maxPage, [], shown, dispatched)
    requires Unresolved(p) && p.id !in shown
    ensures CacheInvariant(maxPage, [p], shown, dispatched)
  {
  }

  /**
    Dispatching the head keeps the invariant: the head is unresolved and new
    to this cycle; afterwards it counts as shown, or the cycle starts over
    once the threshold is reached.
   */
  lemma DispatchKeepsInvariant(maxPage: int, queue: seq<PhotoInfo>, shown: set<string>, dispatched: seq<string>)
    requires CacheInvariant(maxPage, queue, shown, dispatched) && queue != []
    ensures Unresolved(queue[0]) && queue[0].id !in shown
    ensures |shown + {queue[0].id}| >= maxPage * PhotosPerPage ==> CacheInvariant(maxPage, queue[1..], {}, [])
    ensures |shown + {queue[0].id}| < maxPage * PhotosPerPage ==>
              CacheInvariant(maxPage, queue[1..], shown + {queue[0].id}, dispatched + [queue[0].id])
  {
    var p := queue[0];
    var d := dispatched + [p.id];
    assert (set id | id in d) == shown + {p.id};
    assert Distinct(d) by {
      forall i, j | 0 <= i < j < |d| ensures d[i] != d[j] {
        if j == |d| - 1 {
          assert d[i] == dispatched[i] && dispatched[i] in shown;
        }
      }
    }
    assert PendingOk(queue[1..], shown + {p.id}) by {
      forall i | 0 <= i < |queue[1..]| ensures queue[1..][i].id != p.id {
        assert queue[1..][i] == queue[i + 1];
      }
    }
  }

  class PhotoCache {
    var queue: seq<PhotoInfo>
    var shown: set<string>
    const maxPage: int
    const cfg: Config
    /** The IDs dispatched in the current cycle, in dispatch order. */
    ghost var dispatched: seq<string>

    /** The number of shown IDs at which a new cycle starts. */
    function Threshold(): int {
      maxPage * PhotosPerPage
    }

    /** The cache invariant, on the current fields. */
    ghost predicate Valid()
      reads this
    {
      CacheInvariant(maxPage, queue, shown, dispatched)
    }

    /** The struct literal in `main`: empty queue, empty shown set. */
    constructor (maxPage: int, cfg: Config)
      requires maxPage > 0
      ensures Valid()
      ensures this.maxPage == maxPage && this.cfg == cfg
      ensures queue == [] && shown == {} && dispatched == []
    {
      this.maxPage := maxPage;
      this.cfg := cfg;
      queue := [];
      shown := {};
      dispatched := [];
    }

    /**
      The post-decode part of `fetchPage(page, pageSize)`: `None` stands for
      any failure before a response was decoded. The records are the kept
      items; `hasMore` needs a next page and a full page of items.
     */
    method FetchPage(outcome: Option<SearchResponse>, pageSize: int) returns (photos: seq<PhotoInfo>, hasMore: bool)
      ensures photos == PagePhotos(outcome)
      ensures forall i :: 0 <= i < |photos| ==> Unresolved(photos[i])
      ensures hasMore <==> outcome.Some? && |outcome.value.assets.items| > 0 &&
                           outcome.value.assets.nextPage != "" && |outcome.value.assets.items| >= pageSize
    {
      if outcome.None? {
        return [], false;
      }
      var items := outcome.value.assets.items;
      if |items| == 0 {
        return [], false;
      }
      photos := [];
      ghost var kept := [];
      for i := 0 to |items|
        invariant kept == KeptItems(items[..i])
        invariant photos == MapSeq(kept, ToPhoto)
      {
        var a := items[i];
        assert items[..i + 1] == items[..i] + [a];
        KeptItemsSnoc(items[..i], a);
        if IsScreenshot(a.originalFileName) {
          continue;
        }
        MapSeqSnoc(kept, a, ToPhoto);
        kept := kept + [a];
        photos := photos + [ToPhoto(a)];
      }
      assert items[..|items|] == items;
      PagePhotosUnresolved(outcome);
      hasMore := outcome.value.assets.nextPage != "" && |items| >= pageSize;
    }

    /**
      `fillQueue`: up to ten attempts, each a request for one record of page
      `draws[i] + 1`; the first record not yet shown is appended and ends the
      loop. The shown set is only read.
     */
    method FillQueue(draws: seq<int>, outcomes: seq<Option<SearchResponse>>) returns (requests: seq<SearchRequest>)
      requires |draws| == MaxAttempts && |outcomes| == MaxAttempts
      requires forall i :: 0 <= i < |draws| ==> 0 <= draws[i] < maxPage
      modifies this`queue
      ensures shown == old(shown)
      ensures FirstFresh(shown, Pages(outcomes), 0).None? ==> queue == old(queue)
      ensures FirstFresh(shown, Pages(outcomes), 0).Some? ==>
                queue == old(queue) + [FirstFresh(shown, Pages(outcomes), 0).value.photo]
      ensures queue != old(queue) ==> Unresolved(queue[|queue| - 1])
      ensures |requests| == AttemptsMade(shown, Pages(outcomes)) && RequestsFor(requests, draws, cfg.deviceModel)
      ensures forall i :: 0 <= i < |requests| ==> 1 <= requests[i].page <= maxPage && requests[i].size == 1
    {
      requests := [];
      ghost var pages := Pages(outcomes);
      for retries := 0 to MaxAttempts
        invariant queue == old(queue)
        invariant |requests| == retries && RequestsFor(requests, draws, cfg.deviceModel)
        invariant FirstFresh(shown, pages, retries) == FirstFresh(shown, pages, 0)
      {
        var page := draws[retries] + 1;
        RequestsForSnoc(requests, draws, cfg.deviceModel);
        requests := requests + [SearchRequest(ImageType, page, SearchPageSize, cfg.deviceModel)];
        var photos, _ := FetchPage(outcomes[retries], SearchPageSize);
        assert photos == pages[retries];
        FirstFreshStep(shown, pages, retries);
        if |photos| == 0 {
          continue;
        }
        var p := photos[0];
        if p.id !in shown {
          assert AttemptsMade(shown, pages) == retries + 1;
          queue := queue + [p];
          RequestsInRange(requests, draws, maxPage, cfg.deviceModel);
          return;
        }
      }
      assert FirstFresh(shown, pages, 0).None?;
      RequestsInRange(requests, draws, maxPage, cfg.deviceModel);
    }

    /**
      `next`: refill only an empty queue; report `None` when that fails;
      otherwise dequeue the head, mark its ID shown, and clear the shown set
      once it has reached the threshold.
     */
    method Next(draws: seq<int>, outcomes: seq<Option<SearchResponse>>) returns (r: Option<PhotoInfo>, requests: seq<SearchRequest>)
      requires Valid()
      requires |draws| == MaxAttempts && |outcomes| == MaxAttempts
      requires forall i :: 0 <= i < |draws| ==> 0 <= draws[i] < maxPage
      modifies this
      ensures Valid()
      ensures old(queue) != [] ==> requests == []
      ensures old(queue) == [] ==> |requests| == AttemptsMade(old(shown), Pages(outcomes))
      ensures RequestsFor(requests, draws, cfg.deviceModel)
      ensures Refilled(old(queue), old(shown), Pages(outcomes)) == [] ==>
                r == None && queue == [] && shown == old(shown) && dispatched == old(dispatched)
      ensures Refilled(old(queue), old(shown), Pages(outcomes)) != [] ==>
                var p := Refilled(old(queue), old(shown), Pages(outcomes))[0];
                r == Some(p) && queue == Refilled(old(queue), old(shown), Pages(outcomes))[1..] &&
                if |old(shown) + {p.id}| >= Threshold() then shown == {} && dispatched == []
                else shown == old(shown) + {p.id} && dispatched == old(dispatched) + [p.id]
      ensures old(queue) == [] ==> queue == []
      ensures r.Some? ==> r.value.id !in old(shown) && (r.value.id in shown || shown == {})
      ensures r.Some? ==> Unresolved(r.value)
    {
      requests := [];
      if |queue| == 0 {
        requests := FillQueue(draws, outcomes);
      }
      assert queue == Refilled(old(queue), old(shown), Pages(outcomes));
      if |queue| == 0 {
        return None, requests;
      }
      var p := queue[0];
      queue := queue[1..];
      shown := shown + {p.id};
      dispatched := dispatched + [p.id];
      if |shown| >= Threshold() {
        shown := {};
        dispatched := [];
      }
      r := Some(p);
    }
  }

  /**
    A caller's view: when the queue is empty and every attempt is a failure,
    an empty page, a screenshot-only page or an already shown record, `next`
    reports that nothing is available after building ten request bodies, and
    changes nothing.
   */
  method NextWhenEveryAttemptFails(cache: PhotoCache, draws: seq<int>, outcomes: seq<Option<SearchResponse>>)
    returns (r: Option<PhotoInfo>, requests: seq<SearchRequest>)
    requires cache.Valid() && cache.queue == []
    requires |draws| == MaxAttempts && |outcomes| == MaxAttempts
    requires forall i :: 0 <= i < |draws| ==> 0 <= draws[i] < cache.maxPage
    requires forall j :: 0 <= j < |outcomes| ==> !Usable(cache.shown, PagePhotos(outcomes[j]))
    modifies cache
    ensures r == None && cache.queue == [] && cache.shown == old(cache.shown)
    ensures |requests| == MaxAttempts
  {
    FirstFreshNoneIff(cache.shown, Pages(outcomes), 0);
    r, requests := cache.Next(draws, outcomes);
  }

  /**
    A caller's view of two consecutive dispatches: unless the first one ended
    the cycle, the second never repeats the first one's photo.
   */
  method ConsecutiveDispatchesDiffer(cache: PhotoCache, draws1: seq<int>, outcomes1: seq<Option<SearchResponse>>,
                                     draws2: seq<int>, outcomes2: seq<Option<SearchResponse>>)
    returns (r1: Option<PhotoInfo>, sameCycle: bool, r2: Option<PhotoInfo>)
    requires cache.Valid()
    requires |draws1| == MaxAttempts && |outcomes1| == MaxAttempts && |draws2| == MaxAttempts && |outcomes2| == MaxAttempts
    requires forall i :: 0 <= i < MaxAttempts ==> 0 <= draws1[i] < cache.maxPage && 0 <= draws2[i] < cache.maxPage
    modifies cache
    ensures cache.Valid()
    ensures r1.Some? && sameCycle && r2.Some? ==> r1.value.id != r2.value.id
  {
    var requests;
    r1, requests := cache.Next(draws1, outcomes1);
    sameCycle := cache.shown != {};
    r2, requests := cache.Next(draws2, outcomes2);
  }
}
