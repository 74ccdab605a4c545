# Network clients: FTP download, web crawlers, and the netcat argument check

This project models in Dafny the core of three small network programs.

- **pftp** (`project2/pftp.py`) downloads one file over FTP, following a fixed dialogue:
  - It reads the banner, then sends `USER`, `PASS`, `PASV`, `SIZE` and `RETR`.
  - It checks the reply codes 220, 331, 230, 227 and 150.
  - It takes the data port from the last two numbers of the PASV reply and the file size from the
    last number of the SIZE reply.
  - It copies the data channel to the file until a read comes back empty.
  - A mismatched code exits with a status from a small table. A reply that does not start with a
    number raises.
  - The model treats the control channel as a script of replies and the data channel as a script
    of chunks.
  - `Pftp.Run` is the specification: a six-reply state machine. `Pftp.HandleSession` is the
    straight-line procedure, proved equal to it.
- **mcrawl1** (`project3/mcrawl1.py`) is a crawler with one shared cookie list and a
  first-in-first-out queue seeded with `index.html`:
  - Status 404 gives nothing.
  - Status 402 drops the cookie and requeues the page at the back.
  - Status 500 ends the worker.
  - Any other status captures a cookie when none is held, then parses HTML pages for links.
  - Links not yet crawled are queued.
- **mcrawl** (`project3/mcrawl.py`) is the second crawler:
  - A queue class keeps its pages in a set.
  - Each worker thread holds its own cookie, and no two workers hold the same one.
  - There is no status handling.
  - A header without `Set-Cookie`, or any other exception, is swallowed, and the page is dropped.
- **The link parser** is shared by both crawlers:
  - It lowercases tag and attribute names.
  - It keeps `href`/`src` of `a`, `img`, `link` and `script`.
  - It deletes `./`, `http(s)://` and `#` up to the end of the line.
  - It drops links naming `.com`, `.edu`, `.org` or `.gov`.
  - It trims one trailing `/` and one leading `.`.
  - It parses comments recursively.
  - In mcrawl it also rewrites `dynamics` to `dynamics.html`.
- **snc** (`project1/snc.c`, `main`) validates the command line:
  - Options appear only in `argv[1]` and `argv[2]`.
  - The host is the argument before the last.
  - The port must lie in 1024..65535.
  - A server needs `-l`; a client needs a host.

Python's behaviour is written out where the code depends on it:

- `int()` accepts surrounding whitespace, a sign and `_` between digits, and anything else raises.
- `str()` is modelled for integers.
- `re.findall(r'\d+')` returns maximal digit runs.
- For `r'HTTP/\S+ (\d+)'` and `r'Set-Cookie: (.+?);'`, the first match is the leftmost one.
- `split('\r\n\r\n')` must give exactly two pieces, or the unpacking raises.
- `#.*` stops at a newline.
- `.lower()` is modelled on ASCII letters.

The crawlers each run as a single worker, and state that Python shares between threads is a field
of a class:

- `Crawl1.Crawler1` keeps the cookie list, the queue and the crawled list.
- `Crawl.Crawler` keeps a `Crawl.UniqueQueue`, the crawled list and the cookie map.
- The link parser is `Links.OutlinkParser`.

Each class method is proved against a function on values:

- `Crawl1.Fetch1` and `Crawl1.Visit1` for mcrawl1.
- `Crawl.FetchPage` and `Crawl.VisitPage` for mcrawl.
- `Links.FeedLinks` for the parser.

The invariants proved on those functions are:

- Every queued and crawled page is the seed or a normal link.
- At most one cookie is held in mcrawl1.
- Cookies are injective in mcrawl.
- No page is crawled twice in mcrawl.

The tokenizer's output is an input to the model: a sequence of start-tag and comment events.

Details of the code that the model keeps as they are:

- **Reply 500:** `serv_resps` maps it to exit status 4 (`project2/pftp.py:16-20`).
- **Reply codes:** `int(response[:3])` raises on a reply that does not start with a number, and
  nothing catches it, so the session ends with that exception.
- **Transfer:** the data channel is copied as it arrives until a read comes back empty; the size
  from the SIZE reply is not compared with what arrives.

## Model

| member | source | states |
|---|---|---|
| Pftp.NewSession | project2/pftp.py:22-30 | file and hostname as given; port 21, user "anonymous" and password "user@localhost.localnet" when not given, the given value otherwise |
| Pftp.ExitMessage | project2/pftp.py:5-14 | statuses 0..7 print their own message; any other status prints the text of 7, "Generic error" |
| Pftp.ExitLineReadsBack | project2/pftp.py:32-35 | the exit line is "Exit Code: " then a number that reads back as the status, then " - " and its message |
| Pftp.CheckCode | project2/pftp.py:16-20 | no exit exactly when the code equals the expected one; otherwise 530→2, 550→3, 500→4, anything else→7 |
| Pftp.MismatchExitCodes | project2/pftp.py:37-40 | a failed check exits with 2, 3, 4 or 7, and with 4 exactly for reply 500 |
| Pftp.ReplyCodeIs | project2/pftp.py:88 | `int(response[:3])` is a three-digit code c exactly when the reply starts with the digits of c |
| Pftp.PasvPortOfReply | project2/pftp.py:121-122 | a PASV reply ending in p1, a separator, p2 and digit-free text gives data port p1*256+p2 whatever precedes it |
| Pftp.PasvPortExample | project2/pftp.py:121-122 | "227 Entering Passive Mode (127,0,0,1,4,1)" gives port 1025 |
| Pftp.FileSizeOfReply | project2/pftp.py:133 | the size is the last number of the SIZE reply |
| Pftp.Expect | project2/pftp.py:97-100 | receiving a reply and checking its code: a non-number raises, a mismatch exits with CheckCode's status, a match goes on |
| Pftp.UntilClosedIsConcat | project2/pftp.py:147-151 | the file holds, in order, every chunk read before the first empty read |
| Pftp.ReceiveFile | project2/pftp.py:145-151 | the data loop writes exactly the chunks before the first empty read |
| Pftp.StepPhase | project2/pftp.py:86-143 | each reply moves the dialogue one phase on or stops it |
| Pftp.Settles | project2/pftp.py:86-143 | after n ≤ 6 replies the session waits for reply n, is transferring (n = 6) or has stopped |
| Pftp.StoppedStays | project2/pftp.py:32-35 | once the session has exited, later replies change nothing |
| Pftp.StoppedRun | project2/pftp.py:32-35 | a session that stopped ends with that status and writes nothing |
| Pftp.AfterBanner | project2/pftp.py:86-95 | the banner is checked against 220, logged as "S->C: <code> Server <host>", and USER is sent and logged |
| Pftp.AfterLogin | project2/pftp.py:97-115 | the USER and PASS replies are logged, checked against 331 and 230, and followed by PASS and PASV |
| Pftp.AfterPasv | project2/pftp.py:117-129 | the PASV reply is logged and checked against 227; fewer than two numbers raise; an unreachable data port exits 1; otherwise SIZE is sent unlogged |
| Pftp.AfterSize | project2/pftp.py:131-138 | a SIZE reply without a number raises; otherwise RETR is sent and logged |
| Pftp.AfterRetr | project2/pftp.py:140-143 | the RETR reply is logged and checked against 150 before the transfer |
| Pftp.TransferRun | project2/pftp.py:145-157 | after the dialogue the session exits 0 with the received bytes, or 7 if the file cannot be opened |
| Pftp.StepAccepts | project2/pftp.py:86-143 | in each waiting phase a reply moves the dialogue on exactly when it is accepted and stops it otherwise |
| Pftp.Progress | project2/pftp.py:86-143 | the session reaches the phase of its n-th step exactly when every earlier reply was accepted |
| Pftp.CheckedFails | project2/pftp.py:37-40 | a failed code check ends with an exception or a non-zero status |
| Pftp.StepFails | project2/pftp.py:86-143 | a step that stops the session ends it with a failure |
| Pftp.StopsWithFailure | project2/pftp.py:75-157 | a stopped session never ends with status 0 |
| Pftp.SessionSucceedsIff | project2/pftp.py:75-157 | status 0 exactly when the control connection opens, all six replies are accepted and the file opens; every other end is a failure |
| Pftp.StepChecked | project2/pftp.py:37-40 | a failing check stops the session with its end and sends nothing more |
| Pftp.MismatchStops | project2/pftp.py:97-143 | the first mismatched code decides the exit status; only the commands before it were sent; nothing is written |
| Pftp.NonNumericRaises | project2/pftp.py:88 | a reply that does not start with a number where a code is checked ends the session with an exception |
| Pftp.StopsAt | project2/pftp.py:86-143 | the first failing check fixes the end, the commands sent and the empty output |
| Pftp.LoginState | project2/pftp.py:86-115 | after a successful login the log holds the banner line and both exchanges, and USER, PASS and PASV were sent |
| Pftp.AcceptedReplies | project2/pftp.py:86-143 | six accepted replies carry the five codes, a PASV reply with a reachable port and a SIZE reply with a number |
| Pftp.AcceptedState | project2/pftp.py:86-143 | after six accepted replies the session transfers, has logged the success log and sent all five commands |
| Pftp.SuccessTranscript | project2/pftp.py:75-157 | a successful session logs banner, USER, PASS, PASV and RETR with the replies to the last four (SIZE is not logged), sends all five commands, and uses the PASV port and the SIZE number |
| Pftp.SentIsPrefix | project2/pftp.py:93-137 | whatever happens, the commands sent are the session's first commands in order |
| Pftp.SendsNext | project2/pftp.py:93-137 | each step sends at most the next command |
| Pftp.Login | project2/pftp.py:86-110 | banner, USER and PASS as the program performs them equal the specification's first three steps |
| Pftp.HandleSession | project2/pftp.py:75-157 | the step-by-step session equals the specification `Run` |
| Text.NatToDecimal | project2/pftp.py:33 | `str(n)`: digits with no leading zero |
| Text.DecimalRoundTrip | project2/pftp.py:33 | reading back what `str` printed gives the number |
| Text.CanonicalDecimal | project2/pftp.py:122 | a digit string without a leading zero is what `str` prints for its value |
| Text.DecimalBound | project2/pftp.py:88 | k digits denote less than 10^k |
| Text.StripShape | project2/pftp.py:88 | `strip()` returns text that neither starts nor ends with whitespace and sits in the input with only whitespace around it |
| Text.StripPadded | project2/pftp.py:88 | whitespace of any length around a text that neither starts nor ends with whitespace is exactly what `strip()` removes |
| Text.PyIntPadded | project2/pftp.py:88 | `int` ignores whitespace added before and after its argument |
| Text.PyIntRoundTrip | project2/pftp.py:33 | `int(str(n)) == n` |
| Text.PyIntOfDigits | project2/pftp.py:122 | `int` of a run of digits is its value |
| Text.PyIntOfNegativeDigits | project2/pftp.py:88 | `int` of "-" and digits is the negated value |
| Text.UnsignedLiteral | project2/pftp.py:88 | `int` reads digits grouped by single underscores as their value |
| Text.NegativeLiteral | project2/pftp.py:88 | `int` reads a minus sign and grouped digits as the negated value |
| Text.PyIntOfStripped | project2/pftp.py:88 | on text without surrounding whitespace `int` is the literal reading |
| Text.ThreeDigitCode | project2/pftp.py:88 | at most three characters read by `int` as a number ≥ 100 are exactly its three digits |
| Text.DigitRuns | project2/pftp.py:121 | `re.findall(r'\d+')`: non-empty runs of digits, left to right |
| Text.DigitRunsAppend | project2/pftp.py:121 | runs do not merge across a non-digit boundary |
| Text.DigitRunsOfDecimal | project2/pftp.py:122 | a printed number is found as a single run |
| Text.Contains | project3/mcrawl1.py:30 | `re.search` of a literal: true exactly when the text occurs somewhere |
| Text.ContainsInside | project3/mcrawl1.py:30 | a text found in a piece is found in every text holding that piece |
| Text.Lower | project3/mcrawl1.py:24 | `.lower()` keeps the length and leaves no upper-case ASCII letter in the result |
| Links.LowerIdempotent | project3/mcrawl1.py:24 | lowering a lowered name changes nothing |
| Links.CaseInsensitive | project3/mcrawl1.py:24-28 | tag and attribute names are compared without regard to case |
| Links.Clean | project3/mcrawl1.py:29 | the substitution never lengthens a link and leaves no '#' |
| Links.CleanInterior | project3/mcrawl1.py:29 | every "./", "http://" and "https://" is deleted wherever it stands, after any text free of the patterns |
| Links.CleanAfterPlain | project3/mcrawl1.py:29 | text free of the patterns is kept as it is, whatever follows, unless what follows could complete a pattern begun in it |
| Links.CleanPlain | project3/mcrawl1.py:29 | text without "./", a scheme or '#' is unchanged |
| Links.SchemeDropped | project3/mcrawl1.py:29 | a leading "http://", "https://" or "./" is deleted |
| Links.FragmentDropped | project3/mcrawl1.py:29 | a '#' deletes the rest of its line: `a#b` cleans like `a` |
| Links.DotsBeforeH | project3/mcrawl1.py:30 | text whose every '.' starts ".h" is not refused as another site |
| Links.NotBlacklistedInside | project3/mcrawl1.py:30 | a refused piece makes every text holding it refused |
| Links.Trim | project3/mcrawl1.py:31-34 | the link is recovered by putting back the "." removed from its front (when the text started with '.' and was more than a trailing '/') and the "/" removed from its end; trimming keeps it free of '#' and of other sites' names |
| Links.Normalize | project3/mcrawl1.py:29-36 | a kept link is non-empty, free of '#' and of ".com/.edu/.org/.gov" |
| Links.NormalizeResult | project3/mcrawl1.py:29-36 | a value is dropped exactly when its cleaned text is empty, names another site, or is emptied by the trim; a kept link is the trimmed text, or "dynamics.html" for "dynamics" under the rewrite |
| Links.DynamicsRewrite | project3/mcrawl.py:32-33 | with the rewrite, only the link "dynamics" changes, to "dynamics.html" |
| Links.DynamicsPageNormal | project3/mcrawl.py:32-33 | the rewritten link "dynamics.html" is itself a link the crawler keeps |
| Links.NormalizeKeeps | project3/mcrawl1.py:29-36 | a plain relative link is kept exactly as written |
| Links.AttrLinksFound | project3/mcrawl1.py:26-36 | with no valueless href/src, a tag's attributes yield exactly the normalised values of their href/src attributes, and nothing raises |
| Links.AttrLinksRaise | project3/mcrawl1.py:26-29 | the first valueless href/src raises, keeping exactly the links of the attributes before it |
| Links.EventFound | project3/mcrawl1.py:22-42 | a start tag of a, img, link or script without a valueless href/src yields exactly its attributes' links; any other tag yields nothing; a comment whose contents do not raise yields exactly the links of the events inside it |
| Links.FeedLinksFound | project3/mcrawl1.py:22-42 | when no event raises, a page yields exactly the links its events yield, and does not raise |
| Links.FeedLinksRaise | project3/mcrawl1.py:22-42 | the first raising event ends the page, which raises with the links of the events before it and those that event found |
| Links.FeedLinks | project3/mcrawl1.py:38-42 | every link found in a page, comments included, is normal |
| Links.OtherTagsIgnored | project3/mcrawl1.py:25-28 | only href/src of a, img, link and script contribute links |
| Links.NoLinkKeys | project3/mcrawl1.py:26-28 | attributes other than href/src contribute nothing |
| Links.PrefixRaised | project3/mcrawl1.py:26-29 | once a valueless href/src raised, the rest of the tag is not looked at |
| Links.FeedPrefixRaised | project3/mcrawl1.py:38-42 | once an event raised, the rest of the page is not looked at |
| Links.OutlinkParser.constructor | project3/mcrawl1.py:17-20 | a parser starts with no links |
| Links.OutlinkParser.HandleStartTag | project3/mcrawl1.py:22-36 | adds exactly the links `TagLinks` gives for the tag (characterised by EventFound), and reports whether it raised |
| Links.OutlinkParser.HandleComment | project3/mcrawl1.py:38-42 | adds exactly what a fresh parser finds in the comment |
| Links.OutlinkParser.HandleEvent | project3/mcrawl1.py:22-42 | adds exactly the event's links as `EventLinks` gives them (characterised by EventFound) |
| Links.OutlinkParser.Feed | project3/mcrawl1.py:22-42 | adds exactly the page's links as `FeedLinks` gives them (characterised by FeedLinksFound and FeedLinksRaise), stopping at the first raise, and keeps every link normal |
| Http.Request | project3/mcrawl1.py:71-75 | the request starts with the request line and Host header and ends with a blank line |
| Http.CookieLineInserted | project3/mcrawl1.py:71-75 | a held cookie adds exactly the line "Cookie:<c> \r\n" before the final CRLF |
| Http.FindFrom | project3/mcrawl1.py:80 | the first occurrence of the separator at or after a position |
| Http.SplitHead | project3/mcrawl1.py:80 | a successful split gives pieces that join back around the blank line |
| Http.SplitHeadExact | project3/mcrawl1.py:80 | the split fails exactly when there is no blank line or a second one; neither piece holds a blank line |
| Http.SplitHeadOf | project3/mcrawl1.py:80 | a header and a body without blank lines split back into themselves |
| Http.StatusCodeNone | project3/mcrawl1.py:85-86 | no status exactly when `HTTP/\S+ (\d+)` matches nowhere |
| Http.LeftmostStatus | project3/mcrawl1.py:85-87 | the status is the number of the leftmost match |
| Http.StatusOfLine | project3/mcrawl1.py:85-87 | a status line "HTTP/<version> <digits>" yields those digits' value |
| Http.SetCookieValue | project3/mcrawl1.py:100-103 | no cookie exactly when `Set-Cookie: (.+?);` matches nowhere; a cookie is non-empty, without newline, with ';' only first |
| Http.LeftmostCookie | project3/mcrawl1.py:101-103 | the cookie is the value of the leftmost match |
| Http.CookieOfLine | project3/mcrawl1.py:101-103 | "Set-Cookie: <c>;" yields c |
| Http.LocalName | project3/mcrawl1.py:118 | every '/' becomes '_', nothing else changes |
| Http.NameRoundTrip | project3/mcrawl1.py:118 | a page without '_' is recovered from its file name |
| Http.NamesCollide | project3/mcrawl1.py:118 | two pages can share one file name |
| Http.HtmlUnderRename | project3/mcrawl1.py:118-120 | the file name looks like HTML exactly when the page does |
| Crawl1.CookieChanges | project3/mcrawl1.py:92-103 | the cookie list changes only by a 402 dropping its last entry or by a capture when empty, so it never holds more than one cookie |
| Crawl1.OutcomeOfStatus | project3/mcrawl1.py:85-99 | 404 gives no links, 402 a retry without the cookie, 500 the end of the worker |
| Crawl1.FoundLinks | project3/mcrawl1.py:118-130 | links come only from an HTML page and are the parser's, each normal; no links means 404 or not HTML |
| Crawl1.CookieCaptured | project3/mcrawl1.py:100-103 | a cookie is captured only by a page fetched without one |
| Crawl1.VisitGood | project3/mcrawl1.py:132-149 | a turn keeps every queued and crawled page the seed or normal, and at most one cookie |
| Crawl1.PagesKept | project3/mcrawl1.py:134-148 | unless the worker ended, no queued or crawled page is lost |
| Crawl1.RetryRequeues | project3/mcrawl1.py:141-144 | a 402 moves the page to the back of the queue and not into the crawled list |
| Crawl1.CrawledNotRequeued | project3/mcrawl1.py:139-148 | no crawled page, and not the fetched one, is queued by its links |
| Crawl1.CrawledGrows | project3/mcrawl1.py:138-144 | the crawled list only grows, by the fetched page |
| Crawl1.Crawler1.constructor | project3/mcrawl1.py:158-162 | the queue holds "index.html"; no cookie, nothing crawled |
| Crawl1.Crawler1.CrawlPage | project3/mcrawl1.py:62-130 | sends the HTTP/1.0 request with the held cookie and ends as `Fetch1` says |
| Crawl1.Crawler1.QueueLinks | project3/mcrawl1.py:146-148 | appends each link not crawled exactly once, keeping the queue's front |
| Crawl1.Crawler1.Visit | project3/mcrawl1.py:134-149 | one turn equals `Visit1` and keeps the invariant |
| Crawl1.Crawler1.CrawlWeb | project3/mcrawl1.py:132-149 | the run is a trace of states from the initial to the final one in which each turn is a `Visit1` step on the reply it consumed; the loop keeps the invariant, stops on an empty queue, the end of the worker or the end of the replies, and only extends the crawled list |
| Crawl.UniqueQueue.constructor | project3/mcrawl.py:45-46 | the queue starts empty |
| Crawl.UniqueQueue.Put | project3/mcrawl.py:47-48 | adds the item; a present item leaves the queue unchanged |
| Crawl.UniqueQueue.Get | project3/mcrawl.py:49-50 | removes and returns some item |
| Crawl.UpdateCookiesKeeps | project3/mcrawl.py:91-92 | no two workers share a cookie, the new value is held, the worker's entry changes only for a new value, others never |
| Crawl.FetchPageLinks | project3/mcrawl.py:89-114 | links come only from an HTML page and are the parser's, each normal; the cookie map stays injective |
| Crawl.NoCookieRaises | project3/mcrawl.py:90 | a header without Set-Cookie raises before the cookies change |
| Crawl.VisitGood | project3/mcrawl.py:116-131 | no page crawled twice, no crawled page queued, every page the seed or normal, cookies injective |
| Crawl.VisitOutcome | project3/mcrawl.py:119-131 | the fetched page leaves the queue; it is crawled unless the turn raised, which drops it |
| Crawl.Crawler.constructor | project3/mcrawl.py:140-144 | the queue holds "index.html"; nothing crawled, no cookies |
| Crawl.Crawler.CrawlPage | project3/mcrawl.py:70-114 | sends the HTTP/1.1 request with the worker's cookie and ends as `FetchPage` says |
| Crawl.Crawler.QueueLinks | project3/mcrawl.py:126-128 | adds to the queue exactly the links not crawled |
| Crawl.Crawler.Visit | project3/mcrawl.py:119-131 | one turn takes a queued page and equals `VisitPage`, keeping the invariant |
| Crawl.Crawler.CrawlWeb | project3/mcrawl.py:116-131 | the run is a trace of states from the initial to the final one in which each turn is `VisitPage` on a page queued at that point and the reply it consumed; the loop keeps the invariant, stops on an empty queue or the end of the replies, and only extends the crawled list |
| Snc.ParseArgs | project1/snc.c:122-148 | refuses exactly the bad command lines; otherwise server, UDP, host and port as given, port in 1024..65535, and a host unless serving |
| Snc.ClientExample | project1/snc.c:128-129 | `./snc localhost 9999` runs a client to localhost |
| Snc.ServerExample | project1/snc.c:128-129 | `./snc -l 9999` runs a server without a host |
| Snc.MisplacedOptionExample | project1/snc.c:144 | `./snc hello -l 9999` is refused |

## Left out

- Sockets: the replies and chunks each `recv` returns are inputs; `send` is recorded as the
  commands or request it sends. Receive buffer sizes (255, 330, 1024, 2048 bytes) are not modelled.
- Byte decoding and encoding are left out; text is a sequence of characters, and written bytes
  are `byte`s.
- `int()`, `\d`, `\s` and `.lower()` are modelled on ASCII only; other Unicode digits, spaces and
  letters are not.
- The HTML tokenizer is not modelled: a page is the sequence of start-tag and comment events it
  produces, so a page that does not decode is not modelled.
- Files:
  - The downloaded page files and the `../debut.txt` debug log of the crawlers are not modelled.
  - Writing the FTP log (`print_log`) is not modelled; the log is returned as a list of lines.
  - For pftp only whether the file opens is modelled; a write error during the transfer is not.
- `argparse` (`parse_args`) and each `main` are not modelled: the options become parameters,
  and the crawlers' directory handling and thread start-up are left out.
- Printing: all `print` output is left out except the exit line (`Pftp.ExitLineReadsBack`).
- Threads: each crawler runs a single worker.
  - `task_done`, `join`, the `None` sentinel that ends the workers and `time.sleep` are left out.
  - The worker loops take a finite script of replies, so they stop when the script runs out.
  - The real loop runs until the queue is drained, which may never happen.
- Crawl.UniqueQueue.Get: requires a non-empty queue; the real `get` blocks until an item arrives.
- Crawl1.Crawler1.CrawlPage: `sys.exit(1)` and uncaught exceptions end the worker (`Halt`), as
  they do in a thread. The connect and recv failures that raise are not modelled.
- Crawl.Crawler.CrawlPage: a failing connect is not modelled; the other raises (split, missing
  cookie, parser) are.
- Links.Normalize: the final `val is not ''` identity test is modelled as inequality with the
  empty string.
- Links.FeedLinks: a link `set` is iterated in an unspecified order, so queueing is specified
  relationally (which links, each once) rather than in a fixed order.
- Crawl1.Crawler1.QueueLinks: tests only the crawled list, as the source does, so a page can be
  queued twice; no uniqueness of the whole queue is claimed.
- Snc.ParseArgs:
  - The port is a parameter standing for `atoi(argv[argc-1])`.
  - `gethostbyname` and the server and client routines (`server_func`, `client_func`,
    `othererr`) are not modelled.
  - An empty argument is read as not starting with '-' (C reads its terminating NUL).
- Pftp.HandleSession: the data socket is modelled as a finite list of chunks.
