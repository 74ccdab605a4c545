/**
 * The first crawler (project3/mcrawl1.py): one shared cookie list, a first-in first-out queue of
 * pages seeded with "index.html", and a list of crawled pages. A 402 reply drops the cookie and
 * puts the page back at the end of the queue. The model runs a single worker, so the queue and
 * the lists are plain fields changed one step at a time.
 */
module Crawl1 {
  import opened Base
  import opened Text
  import opened Links
  import opened Http

  const Seed: string := "index.html"

  /**
   * What the server sends for one fetch: the first read of the reply (at most 330 bytes, as text)
   * and the tokenizer's events for the whole body.
   */
  datatype Response = Response(first: string, events: seq<Event>)

  /**
   * What `crawl_page` gives back: None, -1, a set of links, or the end of the worker (an
   * uncaught exception or `sys.exit`).
   */
  datatype Fetch = NoLinks | Retry | Found(links: set<string>) | Halt

  /** `cookie.pop()` when a cookie is held. */
  function Drop(cookie: seq<string>): seq<string> {
    if cookie == [] then [] else cookie[..|cookie| - 1]
  }

  /** The cookie list once a header is accepted: a cookie is captured only when none is held. */
  function Capture(cookie: seq<string>, header: string): seq<string> {
    if cookie != [] then cookie
    else match SetCookie(header) case None => [] case Some(c) => [c]
  }

  /** The result for an accepted page: only a page whose file name looks like HTML is parsed. */
  function PageLinks(page: string, events: seq<Event>): Fetch {
    if !IsHtml(LocalName(page)) then NoLinks
    else
      var scan := FeedLinks(events, false);
      if scan.raised then Halt else Found(scan.links)
  }

  /** The status decides: 404 gives nothing, 402 a retry, 500 the end, anything else the page. */
  function AfterHeader(cookie: seq<string>, page: string, header: string, events: seq<Event>): (seq<string>, Fetch) {
    var status := StatusCode(header);
    if status == Some(404) then (cookie, NoLinks)
    else if status == Some(402) then (Drop(cookie), Retry)
    else if status == Some(500) then (cookie, Halt)
    else (Capture(cookie, header), PageLinks(page, events))
  }

  /** The outcome of fetching `page` holding `cookie`, and the cookie list afterwards. */
  function Fetch1(cookie: seq<string>, page: string, resp: Response): (seq<string>, Fetch) {
    match SplitHead(resp.first)
    case None => (cookie, Halt)
    case Some(parts) => AfterHeader(cookie, page, parts.0, resp.events)
  }

  /**
   * The cookie list only changes in two ways: a 402 drops its last entry, and a page fetched
   * without a cookie captures the Set-Cookie value, so it never holds more than one cookie.
   */
  lemma CookieChanges(cookie: seq<string>, page: string, resp: Response)
    ensures var (held, out) := Fetch1(cookie, page, resp);
      held == cookie ||
      (out == Retry && cookie != [] && held == cookie[..|cookie| - 1]) ||
      (out != Retry && cookie == [] && exists c :: held == [c] && c != [])
    ensures |cookie| <= 1 ==> |Fetch1(cookie, page, resp).0| <= 1
  {
    match SplitHead(resp.first)
    case None =>
    case Some(parts) =>
      SetCookieValue(parts.0);
  }

  /**
   * A first read made of a status line, a blank line and a body is classified by the code alone:
   * 404 gives no links, 402 a retry without the cookie, 500 the end of the worker.
   */
  lemma OutcomeOfStatus(cookie: seq<string>, page: string, v: string, d: string, rest: string,
                        body: string, events: seq<Event>)
    requires |v| > 0 && forall k :: 0 <= k < |v| ==> !IsSpace(v[k])
    requires |d| > 0 && AllDigits(d) && (rest == [] || !IsDigit(rest[0]))
    requires var h := "HTTP/" + v + " " + d + rest;
      !Contains(h, BlankLine) && !EndsWith(h, "\r\n") && !Contains(body, BlankLine)
    ensures var resp := Response("HTTP/" + v + " " + d + rest + BlankLine + body, events);
      var code := DecimalValue(d);
      (code == 404 ==> Fetch1(cookie, page, resp) == (cookie, NoLinks)) &&
      (code == 402 ==> Fetch1(cookie, page, resp) == (Drop(cookie), Retry)) &&
      (code == 500 ==> Fetch1(cookie, page, resp) == (cookie, Halt))
  {
    var h := "HTTP/" + v + " " + d + rest;
    SplitHeadOf(h, body);
    assert h == "" + "HTTP/" + v + " " + d + rest;
    StatusOfLine("", v, d, rest);
  }

  /**
   * A page that is not refused by its status and names an HTML file yields exactly the links the
   * parser finds, each one normal, or ends the worker when the parser raises.
   */
  lemma FoundLinks(cookie: seq<string>, page: string, resp: Response)
    ensures Fetch1(cookie, page, resp).1.Found? ==>
      IsHtml(page) && Fetch1(cookie, page, resp).1.links == FeedLinks(resp.events, false).links &&
      forall l :: l in Fetch1(cookie, page, resp).1.links ==> Normal(l)
    ensures Fetch1(cookie, page, resp).1 == NoLinks ==>
      SplitHead(resp.first).Some? &&
      (StatusCode(SplitHead(resp.first).value.0) == Some(404) || !IsHtml(page))
  {
    HtmlUnderRename(page);
  }

  /** A cookie is captured only by a page fetched without one, from the header's Set-Cookie. */
  lemma CookieCaptured(page: string, resp: Response, header: string, body: string, c: string)
    requires SplitHead(resp.first) == Some((header, body))
    requires StatusCode(header) !in {Some(402), Some(404), Some(500)}
    requires SetCookie(header) == Some(c)
    ensures Fetch1([], page, resp).0 == [c]
    ensures forall held :: held != [] ==> Fetch1(held, page, resp).0 == held
  {
  }

  // ---------------------------------------------------------------------------
  // The worklist

  /** The worker's view of the shared state: cookie list, queue, crawled list, and whether it ended. */
  datatype World = World(cookie: seq<string>, toCrawl: seq<string>, crawled: seq<string>, halted: bool)

  /**
   * One turn of `crawl_web`: take the page at the front, fetch it, and record the result. The
   * second component is the set of links to append to the queue, in any order.
   */
  function Visit1(w: World, resp: Response): (World, set<string>)
    requires w.toCrawl != []
  {
    var page := w.toCrawl[0];
    var rest := w.toCrawl[1..];
    var (held, out) := Fetch1(w.cookie, page, resp);
    match out
    case NoLinks => (World(held, rest, w.crawled + [page], false), {})
    case Retry => (World(held, rest + [page], w.crawled, false), {})
    case Found(links) => (World(held, rest, w.crawled + [page], false), links - Elems(w.crawled + [page]))
    case Halt => (World(held, rest, w.crawled, true), {})
  }

  /** `after` is `base` with the links of `news` appended to the queue, once each. */
  predicate Appended(after: World, base: World, news: set<string>) {
    after.cookie == base.cookie && after.crawled == base.crawled && after.halted == base.halted &&
    |after.toCrawl| >= |base.toCrawl| && after.toCrawl[..|base.toCrawl|] == base.toCrawl &&
    Elems(after.toCrawl[|base.toCrawl|..]) == news && NoDuplicates(after.toCrawl[|base.toCrawl|..])
  }

  /** `after` follows `w` by one turn of the worker on the reply `resp`. */
  predicate Turn(w: World, resp: Response, after: World) {
    w.toCrawl != [] && !w.halted && Appended(after, Visit1(w, resp).0, Visit1(w, resp).1)
  }

  /** Everything queued or crawled is the seed or a normal link, and at most one cookie is held. */
  predicate Good(w: World) {
    |w.cookie| <= 1 &&
    (forall p :: p in w.toCrawl ==> p == Seed || Normal(p)) &&
    (forall p :: p in w.crawled ==> p == Seed || Normal(p))
  }

  lemma VisitGood(w: World, resp: Response, after: World)
    requires Good(w) && w.toCrawl != []
    requires Appended(after, Visit1(w, resp).0, Visit1(w, resp).1)
    ensures Good(after)
  {
    CookieChanges(w.cookie, w.toCrawl[0], resp);
    FoundLinks(w.cookie, w.toCrawl[0], resp);
    var base := Visit1(w, resp).0;
    forall p | p in after.toCrawl ensures p == Seed || Normal(p) {
      var k :| 0 <= k < |after.toCrawl| && after.toCrawl[k] == p;
      if k < |base.toCrawl| {
        assert p == base.toCrawl[k];
        assert p in w.toCrawl;
      } else {
        var q := after.toCrawl[|base.toCrawl|..];
        assert q[k - |base.toCrawl|] == p;
        assert p in Elems(q);
      }
    }
  }

  /** Unless the worker ended, no queued or crawled page is lost. */
  lemma PagesKept(w: World, resp: Response, after: World)
    requires w.toCrawl != [] && Appended(after, Visit1(w, resp).0, Visit1(w, resp).1)
    ensures !after.halted ==>
      Elems(w.toCrawl) + Elems(w.crawled) <= Elems(after.toCrawl) + Elems(after.crawled)
    ensures after.halted ==> Elems(w.toCrawl[1..]) <= Elems(after.toCrawl) && after.crawled == w.crawled
  {
    var base := Visit1(w, resp).0;
    assert w.toCrawl == [w.toCrawl[0]] + w.toCrawl[1..];
    forall p | p in base.toCrawl ensures p in after.toCrawl {
      var k :| 0 <= k < |base.toCrawl| && base.toCrawl[k] == p;
      assert after.toCrawl[k] == p;
    }
  }

  /** A 402 sends the page to the back of the queue and leaves it out of the crawled list. */
  lemma RetryRequeues(w: World, resp: Response)
    requires w.toCrawl != [] && Fetch1(w.cookie, w.toCrawl[0], resp).1 == Retry
    ensures var (after, news) := Visit1(w, resp);
      after.toCrawl == w.toCrawl[1..] + [w.toCrawl[0]] && after.crawled == w.crawled && news == {}
  {
  }

  /** A fetched page is crawled, and neither it nor any crawled page is queued again by its links. */
  lemma CrawledNotRequeued(w: World, resp: Response)
    requires w.toCrawl != []
    ensures var (after, news) := Visit1(w, resp);
      forall p :: p in news ==> p !in after.crawled && p != w.toCrawl[0]
  {
  }

  /** The crawled list only grows, by the fetched page. */
  lemma CrawledGrows(w: World, resp: Response)
    requires w.toCrawl != []
    ensures var after := Visit1(w, resp).0;
      after.crawled == w.crawled || after.crawled == w.crawled + [w.toCrawl[0]]
  {
  }

  /** The crawler: the state `crawl_web` shares between calls, for a single worker. */
  class Crawler1 {
    const hostname: string
    var cookie: seq<string>
    var toCrawl: seq<string>
    var crawled: seq<string>
    var halted: bool

    constructor (hostname: string)
      ensures this.hostname == hostname
      ensures cookie == [] && toCrawl == [Seed] && crawled == [] && !halted
    {
      this.hostname := hostname;
      cookie := [];
      toCrawl := [Seed];
      crawled := [];
      halted := false;
    }

    function Snapshot(): World
      reads this
    {
      World(cookie, toCrawl, crawled, halted)
    }

    ghost predicate Valid()
      reads this
    {
      Good(Snapshot())
    }

    /** `crawl_page`: send the request, classify the reply, and parse an HTML page for links. */
    method CrawlPage(page: string, resp: Response) returns (request: string, out: Fetch)
      modifies this
      ensures request ==
        Request("HTTP/1.0", page, hostname, if old(cookie) == [] then None else Some(old(cookie)[0]))
      ensures (cookie, out) == Fetch1(old(cookie), page, resp)
      ensures toCrawl == old(toCrawl) && crawled == old(crawled) && halted == old(halted)
    {
      request := Request("HTTP/1.0", page, hostname, if cookie == [] then None else Some(cookie[0]));
      var split := SplitHead(resp.first);
      if split.None? {
        return request, Halt;
      }
      var header := split.value.0;
      assert Fetch1(old(cookie), page, resp) == AfterHeader(old(cookie), page, header, resp.events);
      var status := StatusCode(header);
      if status.Some? && status.value != 200 {
        if status.value == 404 {
          return request, NoLinks;
        } else if status.value == 402 {
          if cookie != [] {
            cookie := cookie[..|cookie| - 1];
          }
          return request, Retry;
        } else if status.value == 500 {
          return request, Halt;
        }
      }
      if cookie == [] {
        var c := SetCookie(header);
        if c.Some? {
          cookie := cookie + [c.value];
        }
      }
      assert cookie == Capture(old(cookie), header);
      var fname := LocalName(page);
      if !IsHtml(fname) {
        return request, NoLinks;
      }
      var parser := new OutlinkParser(hostname, false);
      var raised := parser.Feed(resp.events);
      if raised {
        return request, Halt;
      }
      out := Found(parser.outlinks);
      assert out == PageLinks(page, resp.events);
    }

    /** Queue every link that is not already crawled, one at a time in the set's order. */
    method QueueLinks(links: set<string>)
      modifies this
      ensures cookie == old(cookie) && crawled == old(crawled) && halted == old(halted)
      ensures |toCrawl| >= |old(toCrawl)| && toCrawl[..|old(toCrawl)|] == old(toCrawl)
      ensures Elems(toCrawl[|old(toCrawl)|..]) == links - Elems(crawled)
      ensures NoDuplicates(toCrawl[|old(toCrawl)|..])
    {
      var start := |toCrawl|;
      var left := links;
      while left != {}
        invariant left <= links
        invariant cookie == old(cookie) && crawled == old(crawled) && halted == old(halted)
        invariant |toCrawl| >= start && toCrawl[..start] == old(toCrawl)
        invariant Elems(toCrawl[start..]) == (links - left) - Elems(crawled)
        invariant NoDuplicates(toCrawl[start..])
        decreases left
      {
        var link :| link in left;
        if link !in crawled {
          ghost var before := toCrawl[start..];
          assert link !in Elems(before);
          toCrawl := toCrawl + [link];
          assert toCrawl[start..] == before + [link];
          assert Elems(before + [link]) == Elems(before) + {link};
        }
        left := left - {link};
      }
    }

    /** One turn of the worker loop. */
    method Visit(resp: Response) returns (out: Fetch)
      requires toCrawl != [] && !halted
      modifies this
      ensures Appended(Snapshot(), Visit1(old(Snapshot()), resp).0, Visit1(old(Snapshot()), resp).1)
      ensures old(Valid()) ==> Valid()
    {
      ghost var w := Snapshot();
      var page := toCrawl[0];
      toCrawl := toCrawl[1..];
      var request;
      request, out := CrawlPage(page, resp);
      if out == Halt {
        halted := true;
      } else {
        crawled := crawled + [page];
        if out == Retry {
          crawled := crawled[..|crawled| - 1];
          toCrawl := toCrawl + [page];
        } else if out.Found? {
          QueueLinks(out.links);
        }
      }
      if !out.Found? {
        assert toCrawl[|toCrawl|..] == [];
      }
      if old(Valid()) {
        VisitGood(w, resp, Snapshot());
      }
    }

    /**
     * The worker loop, given the replies the server sends, one per fetch. It stops when the queue
     * is empty, the worker has ended, or the replies run out. `trace` holds the state before
     * each turn and the final state; each turn is a `Visit1` step on the reply it consumed.
     */
    method CrawlWeb(replies: seq<Response>) returns (fetched: nat, ghost trace: seq<World>)
      requires Valid()
      modifies this
      ensures Valid()
      ensures fetched <= |replies|
      ensures fetched == |replies| || toCrawl == [] || halted
      ensures |crawled| >= |old(crawled)| && crawled[..|old(crawled)|] == old(crawled)
      ensures |trace| == fetched + 1 && trace[0] == old(Snapshot()) && trace[fetched] == Snapshot()
      ensures forall i :: 0 <= i < fetched ==> Turn(trace[i], replies[i], trace[i + 1])
    {
      fetched := 0;
      trace := [Snapshot()];
      while fetched < |replies| && toCrawl != [] && !halted
        invariant Valid() && fetched <= |replies|
        invariant |crawled| >= |old(crawled)| && crawled[..|old(crawled)|] == old(crawled)
        invariant |trace| == fetched + 1 && trace[0] == old(Snapshot()) && trace[fetched] == Snapshot()
        invariant forall i :: 0 <= i < fetched ==> Turn(trace[i], replies[i], trace[i + 1])
        decreases |replies| - fetched
      {
        ghost var w := Snapshot();
        CrawledGrows(w, replies[fetched]);
        var out := Visit(replies[fetched]);
        assert Turn(w, replies[fetched], Snapshot());
        trace := trace + [Snapshot()];
        fetched := fetched + 1;
      }
    }
  }
}
