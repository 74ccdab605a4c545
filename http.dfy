/**
 * The HTTP pieces the two crawlers share: the request text, the split of the first read at the
 * blank line, the status code and Set-Cookie value found in the header, the local file name of
 * a page and the test that decides whether a page is parsed for links.
 *
 * The two regular expressions the crawlers search headers with are hand-written scanners whose
 * predicates say where a match starts; each search returns the leftmost match, as `re.findall(..)[0]`.
 */
module Http {
  import opened Base
  import opened Text

  const BlankLine: string := "\r\n\r\n"

  // ---------------------------------------------------------------------------
  // Request

  /** The request line, the Host header, a Cookie header when a cookie is held, and a blank line. */
  function Request(version: string, page: string, host: string, cookie: Option<string>): (r: string)
    ensures StartsWith(r, "GET /" + page + " " + version + "\r\nHost: " + host + "\r\n")
    ensures EndsWith(r, BlankLine)
  {
    var head := "GET /" + page + " " + version + "\r\nHost: " + host + "\r\n";
    var extra := match cookie case None => "" case Some(c) => "Cookie:" + c + " \r\n";
    var body := head + extra;
    assert body[|body| - 2..] == "\r\n";
    var r := body + "\r\n";
    assert r[..|head|] == head;
    assert r[|r| - 4..] == body[|body| - 2..] + "\r\n";
    r
  }

  /** A held cookie adds exactly one header line, just before the final CRLF. */
  lemma CookieLineInserted(version: string, page: string, host: string, c: string)
    ensures var plain := Request(version, page, host, None);
      |plain| >= 2 &&
      Request(version, page, host, Some(c)) == plain[..|plain| - 2] + "Cookie:" + c + " \r\n" + "\r\n"
  {
    var head := "GET /" + page + " " + version + "\r\nHost: " + host + "\r\n";
    var plain := Request(version, page, host, None);
    assert plain == head + "" + "\r\n";
    assert plain[..|plain| - 2] == head;
  }

  // ---------------------------------------------------------------------------
  // Splitting the first read at the blank line

  /** The first occurrence of `p` in `s` at or after `i`. */
  function FindFrom(s: string, p: string, i: nat): (r: Option<nat>)
    requires i <= |s|
    ensures r.Some? ==> i <= r.value && OccursAt(s, p, r.value)
    ensures forall j :: i <= j && (r.None? || j < r.value) ==> !OccursAt(s, p, j)
    decreases |s| - i
  {
    if OccursAt(s, p, i) then Some(i)
    else if i == |s| then None
    else FindFrom(s, p, i + 1)
  }

  /**
   * `header, content = text.split('\r\n\r\n')`: there must be exactly two pieces, so the blank
   * line must occur, and not again after its first occurrence; otherwise the unpacking raises.
   */
  function SplitHead(s: string): (r: Option<(string, string)>)
    ensures r.Some? ==> s == r.value.0 + BlankLine + r.value.1
  {
    match FindFrom(s, BlankLine, 0)
    case None => None
    case Some(i) =>
      assert s == s[..i] + s[i..i + 4] + s[i + 4..];
      if Contains(s[i + 4..], BlankLine) then None else Some((s[..i], s[i + 4..]))
  }

  /**
   * The split succeeds exactly when the blank line occurs and does not occur again after its
   * first occurrence, and then neither piece holds a blank line.
   */
  lemma SplitHeadExact(s: string)
    ensures SplitHead(s).Some? ==>
      !Contains(SplitHead(s).value.0, BlankLine) && !Contains(SplitHead(s).value.1, BlankLine)
    ensures SplitHead(s).None? <==>
      !Contains(s, BlankLine) ||
      exists k, j :: OccursAt(s, BlankLine, k) && k + 4 <= j && OccursAt(s, BlankLine, j)
  {
    var f := FindFrom(s, BlankLine, 0);
    if f.Some? {
      SplitAt(s, f.value);
    }
  }

  /** Cutting at the first blank line: no blank line before it, and a later one is a second one. */
  lemma SplitAt(s: string, i: nat)
    requires OccursAt(s, BlankLine, i) && forall j :: 0 <= j < i ==> !OccursAt(s, BlankLine, j)
    ensures s == s[..i] + BlankLine + s[i + 4..]
    ensures !Contains(s[..i], BlankLine)
    ensures Contains(s[i + 4..], BlankLine) <==>
      exists k, j :: OccursAt(s, BlankLine, k) && k + 4 <= j && OccursAt(s, BlankLine, j)
  {
    assert s == s[..i] + s[i..i + 4] + s[i + 4..];
    forall j | 0 <= j ensures !OccursAt(s[..i], BlankLine, j) {
      if j + 4 <= i {
        assert s[..i][j..j + 4] == s[j..j + 4];
        assert !OccursAt(s, BlankLine, j);
      }
    }
    var c := s[i + 4..];
    forall j | OccursAt(c, BlankLine, j) ensures OccursAt(s, BlankLine, i + 4 + j) {
      assert c == s[i + 4..|s|];
      OccursInSlice(s, i + 4, |s|, BlankLine, j);
    }
    forall k, j | OccursAt(s, BlankLine, k) && k + 4 <= j && OccursAt(s, BlankLine, j)
      ensures OccursAt(c, BlankLine, j - i - 4)
    {
      assert c[j - i - 4..j - i] == s[j..j + 4];
    }
  }

  /**
   * A header with no blank line in it and not ending in CRLF, followed by a blank line and a body
   * with no blank line, splits back into that header and body.
   */
  lemma SplitHeadOf(h: string, c: string)
    requires !Contains(h, BlankLine) && !EndsWith(h, "\r\n") && !Contains(c, BlankLine)
    ensures SplitHead(h + BlankLine + c) == Some((h, c))
  {
    var s := h + BlankLine + c;
    assert OccursAt(s, BlankLine, |h|);
    forall j | 0 <= j < |h| ensures !OccursAt(s, BlankLine, j) {
      if j + 4 <= |h| {
        assert !OccursAt(h, BlankLine, j);
        assert s[j..j + 4] == h[j..j + 4];
      } else {
        NoBlankStraddle(h, c, j);
      }
    }
    var f := FindFrom(s, BlankLine, 0);
    assert f == Some(|h|);
    assert s[..|h|] == h && s[|h| + 4..] == c;
  }

  lemma NoBlankStraddle(h: string, c: string, j: nat)
    requires !EndsWith(h, "\r\n") && j < |h| < j + 4
    ensures !OccursAt(h + BlankLine + c, BlankLine, j)
  {
    var s := h + BlankLine + c;
    if j + 2 == |h| {
      assert s[j..j + 4][..2] == h[|h| - 2..] && BlankLine[..2] == "\r\n";
    } else {
      assert s[j..j + 4][|h| - j] == s[|h|] == '\r' && BlankLine[|h| - j] == '\n';
    }
  }

  // ---------------------------------------------------------------------------
  // Status code: the first match of `HTTP/\S+ (\d+)`

  /** The first index at or after `j` holding whitespace, or the end. */
  function SpaceFrom(h: string, j: nat): (e: nat)
    requires j <= |h|
    ensures j <= e <= |h| && (e < |h| ==> IsSpace(h[e]))
    ensures forall m :: j <= m < e ==> !IsSpace(h[m])
    decreases |h| - j
  {
    if j == |h| || IsSpace(h[j]) then j else SpaceFrom(h, j + 1)
  }

  /**
   * The pattern matches at `i`: "HTTP/", a non-empty run of non-whitespace, a space and a digit.
   * The greedy run takes every non-whitespace character, and giving some back cannot help, since
   * a space must follow it.
   */
  predicate StatusAt(h: string, i: nat) {
    OccursAt(h, "HTTP/", i) &&
    var e := SpaceFrom(h, i + 5);
    i + 5 < e && e + 1 < |h| && h[e] == ' ' && IsDigit(h[e + 1])
  }

  /** The digits captured by a match at `i`. */
  function StatusDigits(h: string, i: nat): (d: string)
    requires StatusAt(h, i)
    ensures |d| > 0 && AllDigits(d)
  {
    var t := h[SpaceFrom(h, i + 5) + 1..];
    t[..LeadingDigits(t)]
  }

  function StatusFrom(h: string, i: nat): (r: Option<nat>)
    requires i <= |h|
    decreases |h| - i
  {
    if StatusAt(h, i) then Some(DecimalValue(StatusDigits(h, i)))
    else if i == |h| then None
    else StatusFrom(h, i + 1)
  }

  /** `int(re.findall(r'HTTP/\S+ (\d+)', header)[0])`, or None when nothing matches. */
  function StatusCode(h: string): Option<nat> {
    StatusFrom(h, 0)
  }

  /** No code exactly when the pattern matches nowhere. */
  lemma StatusCodeNone(h: string)
    ensures StatusCode(h).None? <==> forall i :: !StatusAt(h, i)
  {
    StatusFromNone(h, 0);
  }

  lemma {:induction false} StatusFromNone(h: string, i: nat)
    requires i <= |h|
    ensures StatusFrom(h, i).None? <==> forall j :: i <= j ==> !StatusAt(h, j)
    decreases |h| - i
  {
    if !StatusAt(h, i) && i < |h| {
      StatusFromNone(h, i + 1);
    }
  }

  /** The code is the one captured by the leftmost match. */
  lemma {:induction false} LeftmostStatus(h: string, i: nat, k: nat)
    requires k <= i && StatusAt(h, i) && forall j :: k <= j < i ==> !StatusAt(h, j)
    ensures StatusFrom(h, k) == Some(DecimalValue(StatusDigits(h, i)))
    decreases i - k
  {
    if k < i {
      LeftmostStatus(h, i, k + 1);
    }
  }

  /** "H" opens "HTTP/" and appears nowhere else in it, so no occurrence straddles its start. */
  lemma NoStraddle(pre: string, p: string, rest: string, c: char, j: nat)
    requires |p| > 0 && p[0] == c && forall k :: 0 < k < |p| ==> p[k] != c
    requires !Contains(pre, p) && j < |pre|
    ensures !OccursAt(pre + p + rest, p, j)
  {
    var s := pre + p + rest;
    if j + |p| <= |pre| {
      assert s[j..j + |p|] == pre[j..j + |p|];
      assert !OccursAt(pre, p, j);
    } else if j + |p| <= |s| {
      assert s[j..j + |p|][|pre| - j] == s[|pre|] == c;
    }
  }

  /** The status line "HTTP/<version> <digits>" after text holding no "HTTP/" yields those digits. */
  lemma StatusOfLine(pre: string, v: string, d: string, rest: string)
    requires !Contains(pre, "HTTP/")
    requires |v| > 0 && forall k :: 0 <= k < |v| ==> !IsSpace(v[k])
    requires |d| > 0 && AllDigits(d) && (rest == [] || !IsDigit(rest[0]))
    ensures StatusCode(pre + "HTTP/" + v + " " + d + rest) == Some(DecimalValue(d))
  {
    var tail := v + " " + (d + rest);
    var h := pre + "HTTP/" + tail;
    assert pre + "HTTP/" + v + " " + d + rest == h;
    NoStatusBefore(pre, tail);
    Seams(pre, "HTTP/", tail);
    StatusAfter(h, |pre|, v, d, rest);
  }

  /** A status line at `i` with no match before it gives the code. */
  lemma StatusAfter(h: string, i: nat, v: string, d: string, rest: string)
    requires forall j :: 0 <= j < i ==> !StatusAt(h, j)
    requires i + 5 <= |h| && h[i..i + 5] == "HTTP/" && h[i + 5..] == v + " " + (d + rest)
    requires |v| > 0 && forall k :: 0 <= k < |v| ==> !IsSpace(v[k])
    requires |d| > 0 && AllDigits(d) && (rest == [] || !IsDigit(rest[0]))
    ensures StatusCode(h) == Some(DecimalValue(d))
  {
    StatusAtTail(h, i, v, d, rest);
    LeftmostStatus(h, i, 0);
    assert StatusCode(h) == StatusFrom(h, 0);
  }

  lemma NoStatusBefore(pre: string, tail: string)
    requires !Contains(pre, "HTTP/")
    ensures forall j :: 0 <= j < |pre| ==> !StatusAt(pre + "HTTP/" + tail, j)
  {
    forall j | 0 <= j < |pre| ensures !OccursAt(pre + "HTTP/" + tail, "HTTP/", j) {
      NoStraddle(pre, "HTTP/", tail, 'H', j);
    }
  }

  lemma StatusAtTail(h: string, i: nat, v: string, d: string, rest: string)
    requires i + 5 <= |h| && h[i..i + 5] == "HTTP/" && h[i + 5..] == v + " " + (d + rest)
    requires |v| > 0 && forall k :: 0 <= k < |v| ==> !IsSpace(v[k])
    requires |d| > 0 && AllDigits(d) && (rest == [] || !IsDigit(rest[0]))
    ensures StatusAt(h, i) && StatusDigits(h, i) == d
  {
    var e := i + 5 + |v|;
    VersionRun(h, i + 5, v, d + rest);
    TailDigits(h, e + 1, d, rest);
    assert OccursAt(h, "HTTP/", i);
  }

  /** Digits followed by a non-digit, read from position `k`. */
  lemma TailDigits(h: string, k: nat, d: string, rest: string)
    requires k <= |h| && h[k..] == d + rest
    requires |d| > 0 && AllDigits(d) && (rest == [] || !IsDigit(rest[0]))
    ensures k < |h| && IsDigit(h[k])
    ensures LeadingDigits(h[k..]) == |d| && h[k..][..|d|] == d
  {
    assert h[k] == h[k..][0] == d[0];
    DigitsBeforeRest(d, rest);
  }

  lemma VersionRun(h: string, j: nat, v: string, tail: string)
    requires j <= |h| && h[j..] == v + " " + tail
    requires forall k :: 0 <= k < |v| ==> !IsSpace(v[k])
    ensures SpaceFrom(h, j) == j + |v| && h[j + |v|] == ' ' && h[j + |v| + 1..] == tail
  {
    forall m | j <= m < j + |v| ensures !IsSpace(h[m]) {
      assert h[m] == h[j..][m - j];
    }
    assert h[j + |v|] == h[j..][|v|];
    assert h[j + |v| + 1..] == h[j..][|v| + 1..];
    SpaceFromIs(h, j, j + |v|);
  }

  lemma DigitsBeforeRest(d: string, rest: string)
    requires |d| > 0 && AllDigits(d) && (rest == [] || !IsDigit(rest[0]))
    ensures var t := d + rest; LeadingDigits(t) == |d| && t[..|d|] == d
  {
    var t := d + rest;
    assert t[..|d|] == d;
    LeadingDigitsIs(t, |d|);
  }

  lemma {:induction false} SpaceFromIs(h: string, j: nat, e: nat)
    requires j <= e < |h| && IsSpace(h[e]) && forall m :: j <= m < e ==> !IsSpace(h[m])
    ensures SpaceFrom(h, j) == e
    decreases e - j
  {
    if j < e {
      SpaceFromIs(h, j + 1, e);
    }
  }

  // ---------------------------------------------------------------------------
  // Cookie: the first match of `Set-Cookie: (.+?);`

  /** The first index at or after `j` holding ';' or a newline, or the end. */
  function StopFrom(h: string, j: nat): (e: nat)
    requires j <= |h|
    ensures j <= e <= |h| && (e < |h| ==> h[e] == ';' || h[e] == '\n')
    ensures forall m :: j <= m < e ==> h[m] != ';' && h[m] != '\n'
    decreases |h| - j
  {
    if j == |h| || h[j] == ';' || h[j] == '\n' then j else StopFrom(h, j + 1)
  }

  /**
   * The pattern matches at `i`: "Set-Cookie: ", one character other than a newline (which may be
   * ';'), then the shortest run without a newline up to a ';'.
   */
  predicate CookieAt(h: string, i: nat) {
    OccursAt(h, "Set-Cookie: ", i) && i + 12 < |h| && h[i + 12] != '\n' &&
    var e := StopFrom(h, i + 13);
    e < |h| && h[e] == ';'
  }

  function CookieValue(h: string, i: nat): (c: string)
    requires CookieAt(h, i)
    ensures |c| > 0 && c[0] != '\n'
    ensures forall k :: 1 <= k < |c| ==> c[k] != ';' && c[k] != '\n'
  {
    h[i + 12..StopFrom(h, i + 13)]
  }

  function CookieFrom(h: string, i: nat): (r: Option<string>)
    requires i <= |h|
    decreases |h| - i
  {
    if CookieAt(h, i) then Some(CookieValue(h, i))
    else if i == |h| then None
    else CookieFrom(h, i + 1)
  }

  /** `re.findall(r'Set-Cookie: (.+?);', header)[0]`, or None when nothing matches. */
  function SetCookie(h: string): Option<string> {
    CookieFrom(h, 0)
  }

  /**
   * No value exactly when the pattern matches nowhere; a value is non-empty, holds no newline,
   * and holds ';' at most as its first character.
   */
  lemma SetCookieValue(h: string)
    ensures SetCookie(h).None? <==> forall i :: !CookieAt(h, i)
    ensures SetCookie(h).Some? ==> |SetCookie(h).value| > 0 && '\n' !in SetCookie(h).value
    ensures SetCookie(h).Some? ==> forall k :: 1 <= k < |SetCookie(h).value| ==> SetCookie(h).value[k] != ';'
  {
    CookieFromNone(h, 0);
    CookieFromValue(h, 0);
  }

  lemma {:induction false} CookieFromNone(h: string, i: nat)
    requires i <= |h|
    ensures CookieFrom(h, i).None? <==> forall j :: i <= j ==> !CookieAt(h, j)
    decreases |h| - i
  {
    if !CookieAt(h, i) && i < |h| {
      CookieFromNone(h, i + 1);
    }
  }

  lemma {:induction false} CookieFromValue(h: string, i: nat)
    requires i <= |h|
    ensures CookieFrom(h, i).Some? ==> exists j :: i <= j && CookieAt(h, j) && CookieFrom(h, i).value == CookieValue(h, j)
    decreases |h| - i
  {
    if !CookieAt(h, i) && i < |h| {
      CookieFromValue(h, i + 1);
    }
  }

  lemma {:induction false} LeftmostCookie(h: string, i: nat, k: nat)
    requires k <= i && CookieAt(h, i) && forall j :: k <= j < i ==> !CookieAt(h, j)
    ensures CookieFrom(h, k) == Some(CookieValue(h, i))
    decreases i - k
  {
    if k < i {
      LeftmostCookie(h, i, k + 1);
    }
  }

  lemma {:induction false} StopFromIs(h: string, j: nat, e: nat)
    requires j <= e < |h| && h[e] == ';' && forall m :: j <= m < e ==> h[m] != ';' && h[m] != '\n'
    ensures StopFrom(h, j) == e
    decreases e - j
  {
    if j < e {
      StopFromIs(h, j + 1, e);
    }
  }

  /**
   * "Set-Cookie: <c>;" after text holding no "Set-Cookie: " yields `c`, for every `c` of the
   * form the search can return.
   */
  lemma CookieOfLine(pre: string, c: string, rest: string)
    requires !Contains(pre, "Set-Cookie: ")
    requires |c| > 0 && c[0] != '\n' && forall k :: 1 <= k < |c| ==> c[k] != ';' && c[k] != '\n'
    ensures SetCookie(pre + "Set-Cookie: " + c + ";" + rest) == Some(c)
  {
    var tail := c + ";" + rest;
    var h := pre + "Set-Cookie: " + tail;
    assert h == pre + "Set-Cookie: " + c + ";" + rest;
    NoCookieBefore(pre, tail);
    assert h[|pre|..|pre| + 12] == "Set-Cookie: " && h[|pre| + 12..] == tail;
    CookieAtTail(h, |pre|, c, rest);
    LeftmostCookie(h, |pre|, 0);
  }

  lemma NoCookieBefore(pre: string, tail: string)
    requires !Contains(pre, "Set-Cookie: ")
    ensures forall j :: 0 <= j < |pre| ==> !CookieAt(pre + "Set-Cookie: " + tail, j)
  {
    forall j | 0 <= j < |pre| ensures !OccursAt(pre + "Set-Cookie: " + tail, "Set-Cookie: ", j) {
      NoStraddle(pre, "Set-Cookie: ", tail, 'S', j);
    }
  }

  lemma CookieAtTail(h: string, i: nat, c: string, rest: string)
    requires i + 12 <= |h| && h[i..i + 12] == "Set-Cookie: " && h[i + 12..] == c + ";" + rest
    requires |c| > 0 && c[0] != '\n' && forall k :: 1 <= k < |c| ==> c[k] != ';' && c[k] != '\n'
    ensures CookieAt(h, i) && CookieValue(h, i) == c
  {
    var e := i + 12 + |c|;
    forall m | i + 13 <= m < e ensures h[m] != ';' && h[m] != '\n' {
      assert h[m] == h[i + 12..][m - i - 12];
    }
    assert h[i + 12] == h[i + 12..][0];
    assert h[e] == h[i + 12..][|c|];
    StopFromIs(h, i + 13, e);
    assert h[i + 12..e] == h[i + 12..][..|c|];
  }

  // ---------------------------------------------------------------------------
  // Local file name

  /** `re.sub(r'/', '_', page)`. */
  function LocalName(page: string): (r: string)
    ensures |r| == |page| && '/' !in r
    ensures forall i :: 0 <= i < |page| ==> r[i] == (if page[i] == '/' then '_' else page[i])
  {
    seq(|page|, i requires 0 <= i < |page| => if page[i] == '/' then '_' else page[i])
  }

  /** Turns every '_' back into '/'. */
  function PageOfName(name: string): (r: string)
    ensures |r| == |name|
  {
    seq(|name|, i requires 0 <= i < |name| => if name[i] == '_' then '/' else name[i])
  }

  /** A page without '_' is recovered from its file name. */
  lemma NameRoundTrip(page: string)
    requires '_' !in page
    ensures PageOfName(LocalName(page)) == page
  {
  }

  /** Two pages can share a file name: the mapping is not one-to-one. */
  lemma NamesCollide()
    ensures LocalName("a/b") == LocalName("a_b") && "a/b" != "a_b"
  {
    assert "a/b"[1] != "a_b"[1];
  }

  /** `re.search(r'\.html?', name)`: the optional 'l' makes it the same as finding ".htm". */
  predicate IsHtml(name: string) {
    Contains(name, ".htm")
  }

  /** Renaming a page to its file does not change whether it is parsed. */
  lemma HtmlUnderRename(page: string)
    ensures IsHtml(LocalName(page)) <==> IsHtml(page)
  {
    var r := LocalName(page);
    forall j | OccursAt(r, ".htm", j) ensures OccursAt(page, ".htm", j) {
      forall k | 0 <= k < 4 ensures page[j + k] == ".htm"[k] {
        assert r[j..j + 4][k] == r[j + k];
      }
      assert page[j..j + 4] == ".htm";
    }
    forall j | OccursAt(page, ".htm", j) ensures OccursAt(r, ".htm", j) {
      forall k | 0 <= k < 4 ensures r[j + k] == ".htm"[k] {
        assert page[j..j + 4][k] == page[j + k];
      }
      assert r[j..j + 4] == ".htm";
    }
  }
}
