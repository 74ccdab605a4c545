/**
 * The second crawler (project3/mcrawl.py): the queue keeps its pages in a set, each worker keeps
 * its own cookie, and an exception inside a turn is swallowed, which drops the page being
 * fetched. The model runs a single worker, identified by its thread number.
 */
module Crawl {
  import opened Base
  import opened Text
  import opened Links
  import opened Http
  import Crawl1

  /** What `crawl_page` gives back, or the exception that ends the turn. */
  datatype Fetch = NoLinks | Found(links: set<string>) | Raised

  /** A queue that holds each page at most once: `put` adds to a set and `get` takes any member. */
  class UniqueQueue {
    var items: set<string>

    constructor ()
      ensures items == {}
    {
      items := {};
    }

    method Put(x: string)
      modifies this
      ensures items == old(items) + {x}
      ensures x in old(items) ==> items == old(items)
    {
      items := items + {x};
    }

    /** Blocks while the queue is empty; the model asks for a non-empty queue instead. */
    method Get() returns (x: string)
      requires items != {}
      modifies this
      ensures x in old(items) && items == old(items) - {x}
    {
      x :| x in items;
      items := items - {x};
    }
  }

  // ---------------------------------------------------------------------------
  // Cookies

  /** No two workers hold the same cookie. */
  predicate Injective(cookies: map<int, string>) {
    forall a, b :: a in cookies && b in cookies && cookies[a] == cookies[b] ==> a == b
  }

  /** A worker takes a cookie only when no worker already holds that value. */
  function UpdateCookies(cookies: map<int, string>, worker: int, c: string): map<int, string> {
    if c in cookies.Values then cookies else cookies[worker := c]
  }

  /**
   * After the update exactly one worker holds the new value; the worker's entry changes only when
   * the value was new, and no other worker's entry changes.
   */
  lemma UpdateCookiesKeeps(cookies: map<int, string>, worker: int, c: string)
    requires Injective(cookies)
    ensures var r := UpdateCookies(cookies, worker, c);
      Injective(r) && c in r.Values &&
      (c !in cookies.Values ==> worker in r && r[worker] == c) &&
      (c in cookies.Values ==> r == cookies) &&
      forall w :: w in cookies && w != worker ==> w in r && r[w] == cookies[w]
  {
    var r := UpdateCookies(cookies, worker, c);
    if c !in cookies.Values {
      forall a, b | a in r && b in r && r[a] == r[b] ensures a == b {
        if a != worker && b != worker {
          assert r[a] == cookies[a] && r[b] == cookies[b];
        }
      }
      assert r[worker] == c;
    }
  }

  // ---------------------------------------------------------------------------
  // One page

  /** The result of a page whose header held a cookie: only an HTML file name is parsed. */
  function PageLinks(page: string, events: seq<Event>): Fetch {
    if !IsHtml(LocalName(page)) then NoLinks
    else
      var scan := FeedLinks(events, true);
      if scan.raised then Raised else Found(scan.links)
  }

  /**
   * `crawl_page`: a first read that does not split in two, or a header without a Set-Cookie
   * value, raises before the cookies change; otherwise the cookie map is updated first, and
   * parsing may still raise afterwards. There is no status handling.
   */
  function FetchPage(cookies: map<int, string>, worker: int, page: string, resp: Crawl1.Response)
    : (map<int, string>, Fetch)
  {
    match SplitHead(resp.first)
    case None => (cookies, Raised)
    case Some(parts) =>
      match SetCookie(parts.0)
      case None => (cookies, Raised)
      case Some(c) => (UpdateCookies(cookies, worker, c), PageLinks(page, resp.events))
  }

  /** A page that yields links is an HTML page; its links are the parser's, each one normal. */
  lemma FetchPageLinks(cookies: map<int, string>, worker: int, page: string, resp: Crawl1.Response)
    ensures var (after, out) := FetchPage(cookies, worker, page, resp);
      (out.Found? ==> IsHtml(page) && out.links == FeedLinks(resp.events, true).links &&
                      forall l :: l in out.links ==> Normal(l)) &&
      (Injective(cookies) ==> Injective(after))
  {
    HtmlUnderRename(page);
    match SplitHead(resp.first)
    case None =>
    case Some(parts) =>
      match SetCookie(parts.0)
      case None =>
      case Some(c) =>
        if Injective(cookies) {
          UpdateCookiesKeeps(cookies, worker, c);
        }
  }

  /** A header without a Set-Cookie value makes the turn raise and leaves the cookies alone. */
  lemma NoCookieRaises(cookies: map<int, string>, worker: int, page: string, resp: Crawl1.Response)
    requires SplitHead(resp.first).Some? && forall i :: !CookieAt(SplitHead(resp.first).value.0, i)
    ensures FetchPage(cookies, worker, page, resp) == (cookies, Raised)
  {
    SetCookieValue(SplitHead(resp.first).value.0);
  }

  // ---------------------------------------------------------------------------
  // The worklist

  /** The worker's view of the shared state. */
  datatype World = World(queued: set<string>, crawled: seq<string>, cookies: map<int, string>)

  /** One turn of `crawl_web` after `get` returned `page`. */
  function VisitPage(w: World, page: string, worker: int, resp: Crawl1.Response): World
    requires page in w.queued
  {
    var rest := w.queued - {page};
    var (cookies, out) := FetchPage(w.cookies, worker, page, resp);
    match out
    case Raised => World(rest, w.crawled, cookies)
    case NoLinks => World(rest, w.crawled + [page], cookies)
    case Found(links) => World(rest + (links - Elems(w.crawled + [page])), w.crawled + [page], cookies)
  }

  /**
   * No page is crawled twice, no crawled page is queued, every page is the seed or a normal link,
   * and no two workers share a cookie.
   */
  predicate Good(w: World) {
    NoDuplicates(w.crawled) &&
    (forall p :: p in w.queued ==> p !in w.crawled) &&
    (forall p :: p in w.queued ==> p == Crawl1.Seed || Normal(p)) &&
    (forall p :: p in w.crawled ==> p == Crawl1.Seed || Normal(p)) &&
    Injective(w.cookies)
  }

  lemma VisitGood(w: World, page: string, worker: int, resp: Crawl1.Response)
    requires Good(w) && page in w.queued
    ensures Good(VisitPage(w, page, worker, resp))
  {
    FetchPageLinks(w.cookies, worker, page, resp);
    var after := VisitPage(w, page, worker, resp);
    if after.crawled != w.crawled {
      assert after.crawled == w.crawled + [page];
      forall i, j | 0 <= i < j < |after.crawled| ensures after.crawled[i] != after.crawled[j] {
        if j == |w.crawled| {
          assert after.crawled[i] == w.crawled[i];
        }
      }
    }
  }

  /**
   * The fetched page leaves the queue for good in this turn; the crawled list grows by it, except
   * when the turn raised, which drops it.
   */
  lemma VisitOutcome(w: World, page: string, worker: int, resp: Crawl1.Response)
    requires page in w.queued
    ensures page !in VisitPage(w, page, worker, resp).queued
    ensures var after := VisitPage(w, page, worker, resp);
      var out := FetchPage(w.cookies, worker, page, resp).1;
      (out == Raised <==> after.crawled == w.crawled) &&
      (out != Raised ==> after.crawled == w.crawled + [page]) &&
      (out == Raised ==> after.queued == w.queued - {page})
  {
    var after := VisitPage(w, page, worker, resp);
    if FetchPage(w.cookies, worker, page, resp).1 != Raised {
      assert |after.crawled| == |w.crawled| + 1;
    }
  }

  /** `after` follows `w` by one turn of the worker that took `page` and got the reply `resp`. */
  predicate Turn(w: World, page: string, worker: int, resp: Crawl1.Response, after: World) {
    page in w.queued && after == VisitPage(w, page, worker, resp)
  }

  /** The crawler: the queue object and the lists `crawl_web` shares, for a single worker. */
  class Crawler {
    const hostname: string
    const toCrawl: UniqueQueue
    var crawled: seq<string>
    var cookies: map<int, string>

    constructor (hostname: string)
      ensures this.hostname == hostname && fresh(toCrawl)
      ensures toCrawl.items == {Crawl1.Seed} && crawled == [] && cookies == map[]
    {
      this.hostname := hostname;
      var q := new UniqueQueue();
      q.Put(Crawl1.Seed);
      toCrawl := q;
      crawled := [];
      cookies := map[];
    }

    function Snapshot(): World
      reads this, toCrawl
    {
      World(toCrawl.items, crawled, cookies)
    }

    ghost predicate Valid()
      reads this, toCrawl
    {
      Good(Snapshot())
    }

    /** `crawl_page` for the worker with thread number `worker`. */
    method CrawlPage(worker: int, page: string, resp: Crawl1.Response) returns (request: string, out: Fetch)
      modifies this
      ensures request ==
        Request("HTTP/1.1", page, hostname, if worker in old(cookies) then Some(old(cookies)[worker]) else None)
      ensures (cookies, out) == FetchPage(old(cookies), worker, page, resp)
      ensures crawled == old(crawled)
    {
      request := Request("HTTP/1.1", page, hostname, if worker in cookies then Some(cookies[worker]) else None);
      var split := SplitHead(resp.first);
      if split.None? {
        return request, Raised;
      }
      var header := split.value.0;
      var found := SetCookie(header);
      if found.None? {
        return request, Raised;
      }
      var cookie := found.value;
      if cookie !in cookies.Values {
        cookies := cookies[worker := cookie];
      }
      var fname := LocalName(page);
      if !IsHtml(fname) {
        return request, NoLinks;
      }
      var parser := new OutlinkParser(hostname, true);
      var raised := parser.Feed(resp.events);
      if raised {
        return request, Raised;
      }
      out := Found(parser.outlinks);
      assert out == PageLinks(page, resp.events);
    }

    /** Put every link that is not already crawled on the queue. */
    method QueueLinks(links: set<string>)
      modifies toCrawl
      ensures toCrawl.items == old(toCrawl.items) + (links - Elems(crawled))
    {
      var left := links;
      while left != {}
        invariant left <= links
        invariant toCrawl.items == old(toCrawl.items) + ((links - left) - Elems(crawled))
        decreases left
      {
        var link :| link in left;
        if link !in crawled {
          toCrawl.Put(link);
        }
        left := left - {link};
      }
    }

    /** One turn of the worker loop; the page is whichever one `get` returns. */
    method Visit(worker: int, resp: Crawl1.Response) returns (page: string, out: Fetch)
      requires toCrawl.items != {}
      modifies this, toCrawl
      ensures page in old(toCrawl.items)
      ensures Snapshot() == VisitPage(old(Snapshot()), page, worker, resp)
      ensures old(Valid()) ==> Valid()
    {
      ghost var w := Snapshot();
      page := toCrawl.Get();
      var request;
      request, out := CrawlPage(worker, page, resp);
      if out != Raised {
        crawled := crawled + [page];
        if out.Found? {
          QueueLinks(out.links);
        }
      }
      if old(Valid()) {
        VisitGood(w, page, worker, resp);
      }
    }

    /**
     * The worker loop, given the replies the server sends, one per fetch. It stops when the
     * queue is empty or the replies run out. `trace` holds the state before each turn and the
     * final state, `pages` the page each turn took; each turn is a `VisitPage` step.
     */
    method CrawlWeb(worker: int, replies: seq<Crawl1.Response>)
      returns (fetched: nat, ghost trace: seq<World>, ghost pages: seq<string>)
      requires Valid()
      modifies this, toCrawl
      ensures Valid()
      ensures fetched <= |replies| && (fetched == |replies| || toCrawl.items == {})
      ensures |crawled| >= |old(crawled)| && crawled[..|old(crawled)|] == old(crawled)
      ensures |trace| == fetched + 1 && |pages| == fetched
      ensures trace[0] == old(Snapshot()) && trace[fetched] == Snapshot()
      ensures forall i :: 0 <= i < fetched ==> Turn(trace[i], pages[i], worker, replies[i], trace[i + 1])
    {
      fetched := 0;
      trace, pages := [Snapshot()], [];
      while fetched < |replies| && toCrawl.items != {}
        invariant Valid() && fetched <= |replies|
        invariant |crawled| >= |old(crawled)| && crawled[..|old(crawled)|] == old(crawled)
        invariant |trace| == fetched + 1 && |pages| == fetched
        invariant trace[0] == old(Snapshot()) && trace[fetched] == Snapshot()
        invariant forall i :: 0 <= i < fetched ==> Turn(trace[i], pages[i], worker, replies[i], trace[i + 1])
        decreases |replies| - fetched
      {
        ghost var w := Snapshot();
        var page, out := Visit(worker, replies[fetched]);
        assert Turn(w, page, worker, replies[fetched], Snapshot());
        trace, pages := trace + [Snapshot()], pages + [page];
        fetched := fetched + 1;
      }
    }
  }
}
