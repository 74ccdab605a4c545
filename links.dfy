/**
 * Link extraction shared by both crawlers: the clean-up of an href/src value, the filter on
 * tags and attribute names, and the parser object that collects the links of a page,
 * including those inside comments. The HTML tokenizer itself is not modelled: a page is
 * given as the sequence of events (start tags with their attributes, comments with the
 * events of their contents) that the tokenizer reports.
 */
module Links {
  import opened Base
  import opened Text

  // ---------------------------------------------------------------------------
  // re.sub(r'\./|https?://|#.*', '', val)

  /** Length of the text up to the first newline: how far `.*` reaches. */
  function LineEnd(s: string): (k: nat)
    ensures k <= |s| && (k < |s| ==> s[k] == '\n')
    ensures forall i :: 0 <= i < k ==> s[i] != '\n'
  {
    if s == [] || s[0] == '\n' then 0 else 1 + LineEnd(s[1..])
  }

  /**
   * How many characters the pattern at the start of `s` deletes: "./", "http://",
   * "https://", or a '#' with the rest of its line; 0 when no pattern starts there.
   */
  function Cut(s: string): (k: nat)
    requires s != []
    ensures k <= |s| && (s[0] == '#' ==> k > 0)
  {
    if StartsWith(s, "./") then 2
    else if StartsWith(s, "http://") then 7
    else if StartsWith(s, "https://") then 8
    else if s[0] == '#' then LineEnd(s)
    else 0
  }

  /**
   * One left-to-right pass that deletes every "./", "http://" and "https://", and each '#'
   * together with the rest of its line; all other characters are kept.
   */
  function Clean(s: string): (r: string)
    ensures |r| <= |s| && '#' !in r
    decreases |s|
  {
    if s == [] then []
    else
      var k := Cut(s);
      if k > 0 then Clean(s[k..]) else [s[0]] + Clean(s[1..])
  }

  /** Text in which none of the deleted patterns occurs. */
  predicate Plain(s: string) {
    '#' !in s && !Contains(s, "./") && !Contains(s, "http://") && !Contains(s, "https://")
  }

  lemma ContainsTail(s: string, p: string)
    requires s != [] && Contains(s[1..], p)
    ensures Contains(s, p)
  {
    ContainsInside([s[0]], s[1..], [], p);
    assert [s[0]] + s[1..] + [] == s;
  }

  /** Text without any of the patterns passes through unchanged. */
  lemma {:induction false} CleanPlain(s: string)
    requires Plain(s)
    ensures Clean(s) == s
  {
    if s != [] {
      if Contains(s[1..], "./") { ContainsTail(s, "./"); }
      if Contains(s[1..], "http://") { ContainsTail(s, "http://"); }
      if Contains(s[1..], "https://") { ContainsTail(s, "https://"); }
      CleanPlain(s[1..]);
      assert !StartsWith(s, "./") && !StartsWith(s, "http://") && !StartsWith(s, "https://");
      assert s[0] != '#';
    }
  }

  lemma PlainTail(a: string)
    requires a != [] && Plain(a)
    ensures Plain(a[1..])
  {
    if Contains(a[1..], "./") { ContainsTail(a, "./"); }
    if Contains(a[1..], "http://") { ContainsTail(a, "http://"); }
    if Contains(a[1..], "https://") { ContainsTail(a, "https://"); }
    assert forall i :: 0 <= i < |a| - 1 ==> a[1..][i] == a[i + 1];
  }

  /** Past its first character, no deleted pattern holds a '.', an 'h' or a '#'. */
  lemma PatternTail(p: string)
    requires p == "./" || p == "http://" || p == "https://"
    ensures |p| >= 2 && forall k :: 1 <= k < |p| ==> p[k] != '.' && p[k] != 'h' && p[k] != '#'
  {
  }

  /**
   * A pattern that does not occur in `a` cannot start inside `a` when what follows `a` begins
   * with '.', 'h' or '#'.
   */
  lemma NotStartingAt(a: string, t: string, p: string)
    requires a != [] && !Contains(a, p) && (p == "./" || p == "http://" || p == "https://")
    requires t == [] || t[0] == '.' || t[0] == 'h' || t[0] == '#'
    ensures !StartsWith(a + t, p)
  {
    PatternTail(p);
    var s := a + t;
    if |p| <= |a| {
      assert !OccursAt(a, p, 0);
      assert s[..|p|] == a[..|p|];
    } else if |p| <= |s| {
      assert s[..|p|][|a|] == t[0];
      assert p[|a|] != t[0];
    }
  }

  /**
   * Text free of the patterns is kept as it is, whatever follows it, as long as what follows
   * cannot complete a pattern begun inside it.
   */
  lemma {:induction false} CleanAfterPlain(a: string, t: string)
    requires Plain(a)
    requires t == [] || t[0] == '.' || t[0] == 'h' || t[0] == '#'
    ensures Clean(a + t) == a + Clean(t)
  {
    if a == [] {
      assert a + t == t;
    } else {
      KeptFirst(a, t);
      PlainTail(a);
      CleanAfterPlain(a[1..], t);
      ConsOfAppend(a, Clean(t));
    }
  }

  lemma ConsOfAppend(a: string, u: string)
    requires a != []
    ensures [a[0]] + (a[1..] + u) == a + u
  {
  }

  /** The first character of plain text is kept, with the cleaning going on after it. */
  lemma KeptFirst(a: string, t: string)
    requires a != [] && Plain(a)
    requires t == [] || t[0] == '.' || t[0] == 'h' || t[0] == '#'
    ensures Clean(a + t) == [a[0]] + Clean(a[1..] + t)
  {
    var s := a + t;
    NotStartingAt(a, t, "./");
    NotStartingAt(a, t, "http://");
    NotStartingAt(a, t, "https://");
    assert s[0] == a[0];
    NoCutHere(s);
    TailOfAppend(a, t);
  }

  lemma TailOfAppend(a: string, t: string)
    requires a != []
    ensures (a + t)[1..] == a[1..] + t
  {
  }

  lemma NoCutHere(s: string)
    requires s != [] && s[0] != '#'
    requires !StartsWith(s, "./") && !StartsWith(s, "http://") && !StartsWith(s, "https://")
    ensures Clean(s) == [s[0]] + Clean(s[1..])
  {
  }

  /** Every "./", "http://" and "https://" is deleted wherever it stands, not only at the start. */
  lemma CleanInterior(a: string, b: string)
    requires Plain(a)
    ensures Clean(a + "./" + b) == a + Clean(b)
    ensures Clean(a + "http://" + b) == a + Clean(b)
    ensures Clean(a + "https://" + b) == a + Clean(b)
  {
    DeletedInside(a, "./", b);
    DeletedInside(a, "http://", b);
    DeletedInside(a, "https://", b);
  }

  lemma DeletedInside(a: string, p: string, b: string)
    requires Plain(a) && (p == "./" || p == "http://" || p == "https://")
    ensures Clean(a + p + b) == a + Clean(b)
  {
    assert a + p + b == a + (p + b);
    assert p[0] == '.' || p[0] == 'h';
    CleanAfterPlain(a, p + b);
    SchemeDropped(b);
  }

  /** A leading scheme or "./" is deleted. */
  lemma SchemeDropped(s: string)
    ensures Clean("http://" + s) == Clean(s) && Clean("https://" + s) == Clean(s)
    ensures Clean("./" + s) == Clean(s)
  {
    var h, hs, d := "http://" + s, "https://" + s, "./" + s;
    assert h[..2] == "ht" && h[..7] == "http://" && h[7..] == s;
    assert hs[..7][4] == 's' && "http://"[4] == ':';
    assert hs[..2] == "ht" && hs[..7] != "http://" && hs[..8] == "https://" && hs[8..] == s;
    assert d[..2] == "./" && d[2..] == s;
  }

  lemma {:induction false} LineEndAppend(a: string, t: string)
    ensures LineEnd(a + t) == if LineEnd(a) < |a| then LineEnd(a) else |a| + LineEnd(t)
  {
    if a != [] && a[0] != '\n' {
      assert (a + t)[1..] == a[1..] + t;
      LineEndAppend(a[1..], t);
    } else if a == [] {
      assert a + t == t;
    }
  }

  /** A pattern without '#' is seen at the start of `a + "#" + b` exactly when it is seen at the start of `a`. */
  lemma StartsBeforeHash(a: string, b: string, p: string)
    requires '#' !in p
    ensures StartsWith(a + "#" + b, p) <==> StartsWith(a, p)
  {
    var s := a + "#" + b;
    if |p| <= |a| {
      assert s[..|p|] == a[..|p|];
    } else {
      assert |p| <= |s| ==> s[..|p|][|a|] == '#';
    }
  }

  /**
   * Appending "#" and a line to `a` leaves the cut at its start as it was, unless `a` is a
   * '#' with no newline, whose cut then takes the whole text.
   */
  lemma CutBeforeHash(a: string, b: string)
    requires a != [] && '\n' !in b
    ensures var s := a + "#" + b;
      Cut(s) == Cut(a) || (a[0] == '#' && Cut(a) == |a| && Cut(s) == |s|)
  {
    var s := a + "#" + b;
    StartsBeforeHash(a, b, "./");
    StartsBeforeHash(a, b, "http://");
    StartsBeforeHash(a, b, "https://");
    assert s[0] == a[0];
    if a[0] == '#' {
      assert LineEnd(b) == |b|;
      LineEndAppend("#", b);
      LineEndAppend(a, "#" + b);
      assert a + "#" + b == a + ("#" + b);
    }
  }

  /**
   * A '#' ends what is kept of its line: `a + "#" + b`, where `b` holds no newline, cleans
   * to what `a` alone cleans to.
   */
  lemma {:induction false} FragmentDropped(a: string, b: string)
    requires '\n' !in b
    ensures Clean(a + "#" + b) == Clean(a)
    decreases |a|
  {
    var s := a + "#" + b;
    if a == [] {
      assert s == "#" + b;
      CutBeforeHash("#", b[..0]);
      assert LineEnd(b) == |b|;
      LineEndAppend("#", b);
      assert s[Cut(s)..] == [];
    } else {
      CutBeforeHash(a, b);
      var k := Cut(a);
      if Cut(s) == k {
        if k > 0 {
          HashTail(a, b, k);
          FragmentDropped(a[k..], b);
        } else {
          HashTail(a, b, 1);
          assert s[0] == a[0];
          FragmentDropped(a[1..], b);
        }
      } else {
        assert s[Cut(s)..] == [] && a[k..] == [];
      }
    }
  }

  lemma HashTail(a: string, b: string, k: nat)
    requires k <= |a|
    ensures (a + "#" + b)[k..] == a[k..] + "#" + b
  {
  }

  // ---------------------------------------------------------------------------
  // Normalising one attribute value

  /** The value names another site (`re.search(r'\.com|\.edu|\.org|\.gov', val)`). */
  predicate Blacklisted(s: string) {
    Contains(s, ".com") || Contains(s, ".edu") || Contains(s, ".org") || Contains(s, ".gov")
  }

  /** Text whose every '.' starts ".h" names no other site. */
  lemma DotsBeforeH(s: string)
    requires forall i :: 0 <= i < |s| && s[i] == '.' ==> i + 1 < |s| && s[i + 1] == 'h'
    ensures !Blacklisted(s)
  {
    NoDotName(s, ".com");
    NoDotName(s, ".edu");
    NoDotName(s, ".org");
    NoDotName(s, ".gov");
  }

  lemma NoDotName(s: string, p: string)
    requires forall i :: 0 <= i < |s| && s[i] == '.' ==> i + 1 < |s| && s[i + 1] == 'h'
    requires |p| == 4 && p[0] == '.' && p[1] != 'h'
    ensures !Contains(s, p)
  {
  }

  /** What a link kept by the crawler looks like. */
  predicate Normal(l: string) {
    l != [] && '#' !in l && !Blacklisted(l)
  }

  /** A piece of text that names no other site cuts out no name of one. */
  lemma NotBlacklistedInside(a: string, s: string, b: string)
    ensures Blacklisted(s) ==> Blacklisted(a + s + b)
  {
    if Contains(s, ".com") { ContainsInside(a, s, b, ".com"); }
    if Contains(s, ".edu") { ContainsInside(a, s, b, ".edu"); }
    if Contains(s, ".org") { ContainsInside(a, s, b, ".org"); }
    if Contains(s, ".gov") { ContainsInside(a, s, b, ".gov"); }
  }

  /**
   * At most one trailing '/' and then at most one leading '.' removed: `c` is the result with
   * "." in front when `c` starts with '.' and more than a trailing '/' is left, and "/" behind
   * when `c` ends with '/'.
   */
  function Trim(c: string): (t: string)
    ensures var y := if EndsWith(c, "/") then "/" else "";
      var x := if |c| > |y| && c[0] == '.' then "." else "";
      c == x + t + y
    ensures '#' !in c ==> '#' !in t
    ensures !Blacklisted(c) ==> !Blacklisted(t)
  {
    var e := if EndsWith(c, "/") then |c| - 1 else |c|;
    var b := if e > 0 && c[0] == '.' then 1 else 0;
    assert c == c[..b] + c[b..e] + c[e..];
    NotBlacklistedInside(c[..b], c[b..e], c[e..]);
    c[b..e]
  }

  /**
   * The link an href/src value contributes, if any: the cleaned value, unless it is empty or
   * names another site, trimmed; with `rewriteDynamics`, "dynamics" becomes "dynamics.html".
   */
  function Normalize(val: string, rewriteDynamics: bool): (r: Option<string>)
    ensures r.Some? ==> Normal(r.value)
  {
    var c := Clean(val);
    if c == [] || Blacklisted(c) then None
    else
      var t := Trim(c);
      var t' := if rewriteDynamics && t == "dynamics" then "dynamics.html" else t;
      DynamicsPageNormal();
      if t' == [] then None else Some(t')
  }

  /**
   * A value is dropped exactly when its cleaned text is empty, names another site, or is
   * emptied by the trim; otherwise the link is the trimmed text, or "dynamics.html" in place
   * of "dynamics" under the rewrite.
   */
  lemma NormalizeResult(val: string, rewriteDynamics: bool)
    ensures var c := Clean(val);
      Normalize(val, rewriteDynamics).None? <==> c == [] || Blacklisted(c) || Trim(c) == []
    ensures var r, t := Normalize(val, rewriteDynamics), Trim(Clean(val));
      r.Some? ==> r.value == t || (rewriteDynamics && t == "dynamics" && r.value == "dynamics.html")
  {
  }

  /** The rewritten link is itself a link the crawler keeps. */
  lemma DynamicsPageNormal()
    ensures Normal("dynamics.html")
  {
    DynamicsPageChars("dynamics.html");
    DotsBeforeH("dynamics.html");
  }

  /** Its only '.' starts ".h", and it holds no '#'. */
  lemma DynamicsPageChars(s: string)
    requires s == "dynamics.html"
    ensures forall i :: 0 <= i < |s| && s[i] == '.' ==> i + 1 < |s| && s[i + 1] == 'h'
    ensures '#' !in s
  {
  }

  /** The 'dynamics' rewrite changes one link only: "dynamics" becomes "dynamics.html". */
  lemma DynamicsRewrite(val: string)
    ensures Normalize(val, true) ==
      if Normalize(val, false) == Some("dynamics") then Some("dynamics.html") else Normalize(val, false)
  {
  }

  /** A plain relative link is kept exactly as written. */
  lemma NormalizeKeeps(val: string, rewriteDynamics: bool)
    requires Plain(val) && val != [] && !Blacklisted(val)
    requires !EndsWith(val, "/") && !StartsWith(val, ".")
    requires rewriteDynamics ==> val != "dynamics"
    ensures Normalize(val, rewriteDynamics) == Some(val)
  {
    CleanPlain(val);
    assert val[0] != '.';
    assert val[0..|val|] == val;
  }

  // ---------------------------------------------------------------------------
  // The parser

  /** An attribute as the tokenizer reports it; a bare attribute has no value. */
  datatype Attr = Attr(key: string, value: Option<string>)

  /** What the tokenizer reports: a start tag, or a comment whose text is parsed again. */
  datatype Event = StartTag(tag: string, attrs: seq<Attr>) | Comment(body: seq<Event>)

  /** Links found so far, and whether an exception has stopped the parse. */
  datatype Scan = Scan(links: set<string>, raised: bool)

  predicate LinkTag(tag: string) {
    Lower(tag) in {"a", "img", "link", "script"}
  }

  predicate LinkKey(key: string) {
    Lower(key) in {"href", "src"}
  }

  /**
   * The attributes of a link tag, left to right. A href/src attribute without a value makes
   * the substitution raise TypeError, which ends the scan.
   */
  function AttrLinks(attrs: seq<Attr>, rewriteDynamics: bool): (r: Scan)
    ensures forall l :: l in r.links ==> Normal(l)
  {
    if attrs == [] then Scan({}, false)
    else
      var prev := AttrLinks(attrs[..|attrs| - 1], rewriteDynamics);
      var a := attrs[|attrs| - 1];
      if prev.raised || !LinkKey(a.key) then prev
      else if a.value.None? then Scan(prev.links, true)
      else
        match Normalize(a.value.value, rewriteDynamics)
        case None => prev
        case Some(l) => Scan(prev.links + {l}, false)
  }

  function TagLinks(tag: string, attrs: seq<Attr>, rewriteDynamics: bool): (r: Scan)
    ensures forall l :: l in r.links ==> Normal(l)
  {
    if LinkTag(tag) then AttrLinks(attrs, rewriteDynamics) else Scan({}, false)
  }

  /**
   * The links of a sequence of events, left to right. A comment contributes the links of its
   * contents, or raises if parsing them raised.
   */
  function FeedLinks(events: seq<Event>, rewriteDynamics: bool): (r: Scan)
    ensures forall l :: l in r.links ==> Normal(l)
    decreases events
  {
    if events == [] then Scan({}, false)
    else
      var prev := FeedLinks(events[..|events| - 1], rewriteDynamics);
      if prev.raised then prev
      else
        var e := events[|events| - 1];
        var cur := EventLinks(e, rewriteDynamics);
        Scan(prev.links + cur.links, cur.raised)
  }

  function EventLinks(e: Event, rewriteDynamics: bool): (r: Scan)
    ensures forall l :: l in r.links ==> Normal(l)
    decreases e
  {
    match e
    case StartTag(tag, attrs) => TagLinks(tag, attrs, rewriteDynamics)
    case Comment(body) =>
      var inner := FeedLinks(body, rewriteDynamics);
      if inner.raised then Scan({}, true) else inner
  }

  lemma LowerIdempotent(s: string)
    ensures Lower(Lower(s)) == Lower(s)
  {
  }

  /** Tag and attribute names are compared without regard to case. */
  lemma CaseInsensitive(tag: string, attrs: seq<Attr>, rewriteDynamics: bool)
    ensures TagLinks(Lower(tag), attrs, rewriteDynamics) == TagLinks(tag, attrs, rewriteDynamics)
    ensures forall k :: LinkKey(Lower(k)) == LinkKey(k)
  {
    LowerIdempotent(tag);
    forall k ensures LinkKey(Lower(k)) == LinkKey(k) { LowerIdempotent(k); }
  }

  /** Only href and src attributes of a, img, link and script tags are looked at. */
  lemma OtherTagsIgnored(tag: string, attrs: seq<Attr>, rewriteDynamics: bool)
    requires !LinkTag(tag) || forall i :: 0 <= i < |attrs| ==> !LinkKey(attrs[i].key)
    ensures TagLinks(tag, attrs, rewriteDynamics) == Scan({}, false)
  {
    if LinkTag(tag) { NoLinkKeys(attrs, rewriteDynamics); }
  }

  lemma {:induction false} NoLinkKeys(attrs: seq<Attr>, rewriteDynamics: bool)
    requires forall i :: 0 <= i < |attrs| ==> !LinkKey(attrs[i].key)
    ensures AttrLinks(attrs, rewriteDynamics) == Scan({}, false)
  {
    if attrs != [] { NoLinkKeys(attrs[..|attrs| - 1], rewriteDynamics); }
  }

  /** An href/src attribute without a value, which makes the substitution raise. */
  predicate Bare(a: Attr) {
    LinkKey(a.key) && a.value.None?
  }

  /** The attribute is an href/src whose value normalises to `l`. */
  predicate Yields(a: Attr, rewriteDynamics: bool, l: string) {
    LinkKey(a.key) && a.value.Some? && Normalize(a.value.value, rewriteDynamics) == Some(l)
  }

  /**
   * Without a bare href/src, the attributes of a link tag yield exactly the normalised values
   * of their href/src attributes, and nothing raises.
   */
  lemma {:induction false} AttrLinksFound(attrs: seq<Attr>, rewriteDynamics: bool)
    requires forall j :: 0 <= j < |attrs| ==> !Bare(attrs[j])
    ensures !AttrLinks(attrs, rewriteDynamics).raised
    ensures forall l :: l in AttrLinks(attrs, rewriteDynamics).links <==>
      exists j :: 0 <= j < |attrs| && Yields(attrs[j], rewriteDynamics, l)
  {
    if attrs != [] {
      var init := attrs[..|attrs| - 1];
      forall j | 0 <= j < |init| ensures !Bare(init[j]) { assert init[j] == attrs[j]; }
      AttrLinksFound(init, rewriteDynamics);
      forall l ensures l in AttrLinks(attrs, rewriteDynamics).links <==>
        exists j :: 0 <= j < |attrs| && Yields(attrs[j], rewriteDynamics, l)
      {
        LastAttr(attrs, rewriteDynamics, l);
      }
    }
  }

  /** One more attribute adds what it yields to what the attributes before it yield. */
  lemma LastAttr(attrs: seq<Attr>, rewriteDynamics: bool, l: string)
    requires attrs != [] && !Bare(attrs[|attrs| - 1])
    requires var init := attrs[..|attrs| - 1];
      !AttrLinks(init, rewriteDynamics).raised &&
      (l in AttrLinks(init, rewriteDynamics).links <==>
        exists j :: 0 <= j < |init| && Yields(init[j], rewriteDynamics, l))
    ensures !AttrLinks(attrs, rewriteDynamics).raised
    ensures l in AttrLinks(attrs, rewriteDynamics).links <==>
      exists j :: 0 <= j < |attrs| && Yields(attrs[j], rewriteDynamics, l)
  {
    AttrGrows(attrs, rewriteDynamics, l);
    LastWitness(attrs, attrs[..|attrs| - 1], a => Yields(a, rewriteDynamics, l));
  }

  /** Some element satisfies `p` exactly when one before the last does, or the last does. */
  lemma LastWitness<T>(xs: seq<T>, init: seq<T>, p: T -> bool)
    requires xs != [] && init == xs[..|xs| - 1]
    ensures (exists j :: 0 <= j < |xs| && p(xs[j])) <==>
      (exists j :: 0 <= j < |init| && p(init[j])) || p(xs[|xs| - 1])
  {
    if exists j :: 0 <= j < |init| && p(init[j]) {
      var j :| 0 <= j < |init| && p(init[j]);
      assert xs[j] == init[j];
    }
    if exists j :: 0 <= j < |xs| && p(xs[j]) {
      var j :| 0 <= j < |xs| && p(xs[j]);
      if j < |init| {
        assert init[j] == xs[j];
      }
    }
  }

  lemma AttrGrows(attrs: seq<Attr>, rewriteDynamics: bool, l: string)
    requires attrs != [] && !Bare(attrs[|attrs| - 1])
    requires !AttrLinks(attrs[..|attrs| - 1], rewriteDynamics).raised
    ensures !AttrLinks(attrs, rewriteDynamics).raised
    ensures l in AttrLinks(attrs, rewriteDynamics).links <==>
      l in AttrLinks(attrs[..|attrs| - 1], rewriteDynamics).links || Yields(attrs[|attrs| - 1], rewriteDynamics, l)
  {
  }

  /**
   * The first bare href/src ends the scan of the tag: it raises, keeping the links of the
   * attributes before it.
   */
  lemma AttrLinksRaise(attrs: seq<Attr>, rewriteDynamics: bool, k: nat)
    requires k < |attrs| && Bare(attrs[k]) && forall j :: 0 <= j < k ==> !Bare(attrs[j])
    ensures AttrLinks(attrs, rewriteDynamics) == Scan(AttrLinks(attrs[..k], rewriteDynamics).links, true)
  {
    var init := attrs[..k];
    forall j | 0 <= j < |init| ensures !Bare(init[j]) { assert init[j] == attrs[j]; }
    AttrLinksFound(init, rewriteDynamics);
    AttrStep(attrs, k, rewriteDynamics);
    PrefixRaised(attrs, k + 1, rewriteDynamics);
  }

  /**
   * A start tag of a, img, link or script (in any case) without a bare href/src yields exactly
   * its attributes' links; any other tag yields nothing. A comment whose contents do not raise
   * yields exactly the links of the events inside it.
   */
  lemma EventFound(e: Event, rewriteDynamics: bool)
    ensures e.StartTag? && LinkTag(e.tag) && (forall j :: 0 <= j < |e.attrs| ==> !Bare(e.attrs[j])) ==>
      !EventLinks(e, rewriteDynamics).raised &&
      forall l :: l in EventLinks(e, rewriteDynamics).links <==>
        exists j :: 0 <= j < |e.attrs| && Yields(e.attrs[j], rewriteDynamics, l)
    ensures e.StartTag? && !LinkTag(e.tag) ==> EventLinks(e, rewriteDynamics) == Scan({}, false)
    ensures e.Comment? && (forall j :: 0 <= j < |e.body| ==> !EventLinks(e.body[j], rewriteDynamics).raised) ==>
      !EventLinks(e, rewriteDynamics).raised &&
      forall l :: l in EventLinks(e, rewriteDynamics).links <==>
        exists j :: 0 <= j < |e.body| && l in EventLinks(e.body[j], rewriteDynamics).links
  {
    match e
    case StartTag(tag, attrs) =>
      if LinkTag(tag) && forall j :: 0 <= j < |attrs| ==> !Bare(attrs[j]) {
        AttrLinksFound(attrs, rewriteDynamics);
      }
    case Comment(body) =>
      if forall j :: 0 <= j < |body| ==> !EventLinks(body[j], rewriteDynamics).raised {
        FeedLinksFound(body, rewriteDynamics);
      }
  }

  /**
   * When no event raises, a page yields exactly the links its events yield, and nothing
   * raises.
   */
  lemma {:induction false} FeedLinksFound(events: seq<Event>, rewriteDynamics: bool)
    requires forall j :: 0 <= j < |events| ==> !EventLinks(events[j], rewriteDynamics).raised
    ensures !FeedLinks(events, rewriteDynamics).raised
    ensures forall l :: l in FeedLinks(events, rewriteDynamics).links <==>
      exists j :: 0 <= j < |events| && l in EventLinks(events[j], rewriteDynamics).links
  {
    if events != [] {
      var init := events[..|events| - 1];
      forall j | 0 <= j < |init| ensures !EventLinks(init[j], rewriteDynamics).raised {
        assert init[j] == events[j];
      }
      FeedLinksFound(init, rewriteDynamics);
      forall l ensures l in FeedLinks(events, rewriteDynamics).links <==>
        exists j :: 0 <= j < |events| && l in EventLinks(events[j], rewriteDynamics).links
      {
        LastEvent(events, rewriteDynamics, l);
      }
    }
  }

  /** One more event adds its links to those of the events before it. */
  lemma LastEvent(events: seq<Event>, rewriteDynamics: bool, l: string)
    requires events != [] && !EventLinks(events[|events| - 1], rewriteDynamics).raised
    requires var init := events[..|events| - 1];
      !FeedLinks(init, rewriteDynamics).raised &&
      (l in FeedLinks(init, rewriteDynamics).links <==>
        exists j :: 0 <= j < |init| && l in EventLinks(init[j], rewriteDynamics).links)
    ensures !FeedLinks(events, rewriteDynamics).raised
    ensures l in FeedLinks(events, rewriteDynamics).links <==>
      exists j :: 0 <= j < |events| && l in EventLinks(events[j], rewriteDynamics).links
  {
    FeedGrows(events, rewriteDynamics, l);
    LastWitness(events, events[..|events| - 1], e => l in EventLinks(e, rewriteDynamics).links);
  }

  lemma FeedGrows(events: seq<Event>, rewriteDynamics: bool, l: string)
    requires events != [] && !EventLinks(events[|events| - 1], rewriteDynamics).raised
    requires !FeedLinks(events[..|events| - 1], rewriteDynamics).raised
    ensures !FeedLinks(events, rewriteDynamics).raised
    ensures l in FeedLinks(events, rewriteDynamics).links <==>
      l in FeedLinks(events[..|events| - 1], rewriteDynamics).links ||
      l in EventLinks(events[|events| - 1], rewriteDynamics).links
  {
  }

  /**
   * The first event that raises ends the page: the scan raises with the links of the events
   * before it and those the raising event found before it raised.
   */
  lemma FeedLinksRaise(events: seq<Event>, rewriteDynamics: bool, k: nat)
    requires k < |events| && EventLinks(events[k], rewriteDynamics).raised
    requires forall j :: 0 <= j < k ==> !EventLinks(events[j], rewriteDynamics).raised
    ensures FeedLinks(events, rewriteDynamics) ==
      Scan(FeedLinks(events[..k], rewriteDynamics).links + EventLinks(events[k], rewriteDynamics).links, true)
  {
    var init := events[..k];
    forall j | 0 <= j < |init| ensures !EventLinks(init[j], rewriteDynamics).raised {
      assert init[j] == events[j];
    }
    FeedLinksFound(init, rewriteDynamics);
    FeedStep(events, k, rewriteDynamics);
    FeedPrefixRaised(events, k + 1, rewriteDynamics);
  }

  /** The parser: the set of links found so far on one page. */
  class OutlinkParser {
    const hostname: string
    const rewriteDynamics: bool
    var outlinks: set<string>

    constructor (hostname: string, rewriteDynamics: bool)
      ensures this.hostname == hostname && this.rewriteDynamics == rewriteDynamics
      ensures outlinks == {}
    {
      this.hostname := hostname;
      this.rewriteDynamics := rewriteDynamics;
      outlinks := {};
    }

    /** Every link collected so far is normal. */
    ghost predicate Valid()
      reads this
    {
      forall l :: l in outlinks ==> Normal(l)
    }

    /** A start tag: add the normalised href/src values of a link tag; true if it raised. */
    method HandleStartTag(tag: string, attrs: seq<Attr>) returns (raised: bool)
      modifies this
      ensures var r := TagLinks(tag, attrs, rewriteDynamics);
        outlinks == old(outlinks) + r.links && raised == r.raised
    {
      raised := false;
      var t := Lower(tag);
      if t in {"a", "img", "link", "script"} {
        var i := 0;
        while i < |attrs|
          invariant 0 <= i <= |attrs|
          invariant var r := AttrLinks(attrs[..i], rewriteDynamics);
            outlinks == old(outlinks) + r.links && !r.raised
        {
          AttrStep(attrs, i, rewriteDynamics);
          var key := Lower(attrs[i].key);
          if key in {"href", "src"} {
            if attrs[i].value.None? {
              PrefixRaised(attrs, i + 1, rewriteDynamics);
              return true;
            }
            var val := Normalize(attrs[i].value.value, rewriteDynamics);
            if val.Some? {
              outlinks := outlinks + {val.value};
            }
          }
          i := i + 1;
        }
        assert attrs[..i] == attrs;
      }
    }

    /** A comment: parse its contents with a fresh parser and add what that one found. */
    method HandleComment(body: seq<Event>) returns (raised: bool)
      modifies this
      ensures var r := EventLinks(Comment(body), rewriteDynamics);
        outlinks == old(outlinks) + r.links && raised == r.raised
      decreases body, 1
    {
      var inner := new OutlinkParser(hostname, rewriteDynamics);
      raised := inner.Feed(body);
      if raised {
        return;
      }
      outlinks := outlinks + inner.outlinks;
    }

    /** One event of the tokenizer's output. */
    method HandleEvent(e: Event) returns (raised: bool)
      modifies this
      ensures var r := EventLinks(e, rewriteDynamics);
        outlinks == old(outlinks) + r.links && raised == r.raised
      decreases e, 2
    {
      match e {
        case StartTag(tag, attrs) =>
          raised := HandleStartTag(tag, attrs);
        case Comment(body) =>
          raised := HandleComment(body);
      }
    }

    /** Feed the events of a page, in order; true if one of them raised. */
    method Feed(events: seq<Event>) returns (raised: bool)
      modifies this
      ensures var r := FeedLinks(events, rewriteDynamics);
        outlinks == old(outlinks) + r.links && raised == r.raised
      ensures old(Valid()) ==> Valid()
      decreases events, 0
    {
      var i := 0;
      while i < |events|
        invariant 0 <= i <= |events|
        invariant var r := FeedLinks(events[..i], rewriteDynamics);
          outlinks == old(outlinks) + r.links && !r.raised
      {
        FeedStep(events, i, rewriteDynamics);
        raised := HandleEvent(events[i]);
        if raised {
          FeedPrefixRaised(events, i + 1, rewriteDynamics);
          return;
        }
        i := i + 1;
      }
      assert events[..i] == events;
      raised := false;
    }
  }

  lemma AttrStep(attrs: seq<Attr>, i: nat, rewriteDynamics: bool)
    requires i < |attrs|
    ensures var prev := AttrLinks(attrs[..i], rewriteDynamics);
      var a := attrs[i];
      AttrLinks(attrs[..i + 1], rewriteDynamics) ==
        if prev.raised || !LinkKey(a.key) then prev
        else if a.value.None? then Scan(prev.links, true)
        else match Normalize(a.value.value, rewriteDynamics)
          case None => prev
          case Some(l) => Scan(prev.links + {l}, false)
  {
    assert attrs[..i + 1][..i] == attrs[..i];
  }

  lemma FeedStep(events: seq<Event>, i: nat, rewriteDynamics: bool)
    requires i < |events|
    ensures var prev := FeedLinks(events[..i], rewriteDynamics);
      var cur := EventLinks(events[i], rewriteDynamics);
      FeedLinks(events[..i + 1], rewriteDynamics) ==
        if prev.raised then prev else Scan(prev.links + cur.links, cur.raised)
  {
    assert events[..i + 1][..i] == events[..i];
  }

  /** Once the scan of a prefix raised, the scan of the whole list raises with the same links. */
  lemma {:induction false} PrefixRaised(attrs: seq<Attr>, n: nat, rewriteDynamics: bool)
    requires n <= |attrs| && AttrLinks(attrs[..n], rewriteDynamics).raised
    ensures AttrLinks(attrs, rewriteDynamics) == AttrLinks(attrs[..n], rewriteDynamics)
    decreases |attrs| - n
  {
    if n < |attrs| {
      assert attrs[..n + 1][..n] == attrs[..n];
      PrefixRaised(attrs, n + 1, rewriteDynamics);
    } else {
      assert attrs[..n] == attrs;
    }
  }

  lemma {:induction false} FeedPrefixRaised(events: seq<Event>, n: nat, rewriteDynamics: bool)
    requires n <= |events| && FeedLinks(events[..n], rewriteDynamics).raised
    ensures FeedLinks(events, rewriteDynamics) == FeedLinks(events[..n], rewriteDynamics)
    decreases |events| - n
  {
    if n < |events| {
      assert events[..n + 1][..n] == events[..n];
      FeedPrefixRaised(events, n + 1, rewriteDynamics);
    } else {
      assert events[..n] == events;
    }
  }
}
