/** The documentation link checker: a breadth-first crawl from a base page that follows links
    inside the base documentation and checks, without following, links to other allowed
    documents. */
module Crawler {

  datatype Url = Url(text: string)

  /** The settings file. */
  datatype Settings = Settings(base: string, domain: string, skipExt: seq<string>, skipPatterns: seq<string>)

  /** The tests the crawl applies to a URL; `RulesOf` makes them from the settings, and the crawl
      is right for any others as well. */
  datatype Config = Config(skipped: Url -> bool, inBase: Url -> bool, inDomain: Url -> bool)

  /** The web during one crawl: whether a URL answers, and the joined targets of the anchors of a
      page, up to where handling the page breaks off if it does. */
  datatype Web = Web(up: Url -> bool, anchors: Url -> seq<Url>)

  // ---------------------------------------------------------------- URL tests

  function BeforeHash(t: string): (r: string)
    ensures '#' !in r && r <= t
    ensures |r| < |t| ==> t[|r|] == '#'
  {
    if t == [] || t[0] == '#' then [] else [t[0]] + BeforeHash(t[1..])
  }

  /** `urldefrag`: everything before the first `#`. */
  function Defrag(u: Url): Url { Url(BeforeHash(u.text)) }

  lemma DefragTwice(u: Url)
    ensures Defrag(Defrag(u)) == Defrag(u)
  {
  }

  predicate EndsWith(t: string, suffix: string) {
    |suffix| <= |t| && t[|t| - |suffix|..] == suffix
  }

  predicate Contains(t: string, part: string) {
    exists i :: 0 <= i <= |t| && part <= t[i..]
  }

  /** `is_placeholder_or_invalid`: `https:` not followed by a slash, or a configured pattern. */
  predicate Placeholder(c: Settings, u: Url) {
    || ("https:" <= u.text && |u.text| > 6 && u.text[6] != '/')
    || exists i :: 0 <= i < |c.skipPatterns| && Contains(u.text, c.skipPatterns[i])
  }

  predicate UnwantedExtension(c: Settings, u: Url) {
    exists i :: 0 <= i < |c.skipExt| && EndsWith(u.text, c.skipExt[i])
  }

  ghost predicate IsEnd(t: string, e: string) { exists x: string :: t == x + e }

  ghost predicate IsInside(t: string, p: string) { exists x: string, y: string :: t == x + p + y }

  ghost predicate IsMalformed(t: string) { exists ch: char, x: string :: ch != '/' && t == "https:" + [ch] + x }

  lemma EndsWithIff(t: string, e: string)
    ensures EndsWith(t, e) <==> IsEnd(t, e)
  {
    if EndsWith(t, e) {
      assert t == t[..|t| - |e|] + e;
    }
    if IsEnd(t, e) {
      var x: string :| t == x + e;
    }
  }

  lemma ContainsIff(t: string, p: string)
    ensures Contains(t, p) <==> IsInside(t, p)
  {
    if Contains(t, p) {
      var k :| 0 <= k <= |t| && p <= t[k..];
      assert t == t[..k] + p + t[k + |p|..];
    }
    if IsInside(t, p) {
      var x: string, y: string :| t == x + p + y;
      assert t[|x|..] == p + y;
    }
  }

  lemma MalformedIff(t: string)
    ensures "https:" <= t && |t| > 6 && t[6] != '/' <==> IsMalformed(t)
  {
    if "https:" <= t && |t| > 6 && t[6] != '/' {
      assert t == "https:" + [t[6]] + t[7..];
    }
    if IsMalformed(t) {
      var ch: char, x: string :| ch != '/' && t == "https:" + [ch] + x;
      assert t[..6] == "https:";
    }
  }

  /** What is skipped, in terms of how a URL is put together: it ends in a listed extension, has a
      listed pattern somewhere, or starts with `https:` and something other than a slash. */
  lemma SkippedIff(c: Settings, u: Url)
    ensures RulesOf(c).skipped(u)
            <==> || (exists i :: 0 <= i < |c.skipExt| && IsEnd(u.text, c.skipExt[i]))
                 || (exists i :: 0 <= i < |c.skipPatterns| && IsInside(u.text, c.skipPatterns[i]))
                 || IsMalformed(u.text)
  {
    forall i | 0 <= i < |c.skipExt|
      ensures EndsWith(u.text, c.skipExt[i]) <==> IsEnd(u.text, c.skipExt[i])
    {
      EndsWithIff(u.text, c.skipExt[i]);
    }
    forall i | 0 <= i < |c.skipPatterns|
      ensures Contains(u.text, c.skipPatterns[i]) <==> IsInside(u.text, c.skipPatterns[i])
    {
      ContainsIff(u.text, c.skipPatterns[i]);
    }
    MalformedIff(u.text);
  }

  function RulesOf(c: Settings): Config {
    Config((u: Url) => UnwantedExtension(c, u) || Placeholder(c, u),
           (u: Url) => c.base <= u.text,
           (u: Url) => c.domain <= u.text)
  }

  predicate Skipped(c: Config, u: Url) { c.skipped(u) }

  predicate InBase(c: Config, u: Url) { c.inBase(u) }

  predicate InDomain(c: Config, u: Url) { c.inDomain(u) }

  /** A link worth looking at. */
  predicate Admissible(c: Config, v: Url) { !Skipped(c, v) && InDomain(c, v) }

  // ---------------------------------------------------------------- what is to be checked

  /** `u` is fetched for its links: it answers and lies in the base documentation. */
  predicate Fetched(c: Config, w: Web, u: Url) { w.up(u) && InBase(c, u) }

  ghost predicate LinksTo(c: Config, w: Web, u: Url, v: Url) {
    Fetched(c, w, u) && Admissible(c, v) && exists i :: 0 <= i < |w.anchors(u)| && Defrag(w.anchors(u)[i]) == v
  }

  /** `p` leads from the start page along links that stay in the base documentation. */
  ghost predicate IsPath(c: Config, w: Web, start: Url, p: seq<Url>) {
    p != [] &&
    var n := |p| - 1;
    if n == 0 then p[0] == start
    else IsPath(c, w, start, p[..n]) && LinksTo(c, w, p[n - 1], p[n]) && InBase(c, p[n])
  }

  /** Reachable from the start page through passing pages of the base documentation. */
  ghost predicate Reachable(c: Config, w: Web, start: Url, u: Url) {
    !Skipped(c, start) && exists p :: IsPath(c, w, start, p) && p[|p| - 1] == u
  }

  /** Another allowed document that a fetched reachable page links to. */
  ghost predicate Referenced(c: Config, w: Web, start: Url, v: Url) {
    !InBase(c, v) && exists u :: Reachable(c, w, start, u) && LinksTo(c, w, u, v)
  }

  lemma ReachableStart(c: Config, w: Web, start: Url)
    requires !Skipped(c, start)
    ensures Reachable(c, w, start, start)
  {
    assert IsPath(c, w, start, [start]);
  }

  lemma {:induction false} PathSnoc(c: Config, w: Web, start: Url, p: seq<Url>, v: Url)
    requires IsPath(c, w, start, p) && LinksTo(c, w, p[|p| - 1], v) && InBase(c, v)
    ensures IsPath(c, w, start, p + [v])
  {
    assert (p + [v])[..|p|] == p;
  }

  lemma {:induction false} ReachableNext(c: Config, w: Web, start: Url, u: Url, v: Url)
    requires Reachable(c, w, start, u) && LinksTo(c, w, u, v) && InBase(c, v)
    ensures Reachable(c, w, start, v)
  {
    var p :| IsPath(c, w, start, p) && p[|p| - 1] == u;
    PathSnoc(c, w, start, p, v);
    assert (p + [v])[|p + [v]| - 1] == v;
  }

  /** A set with the start page that is closed under following links has all reachable pages. */
  lemma {:induction false} ClosedHasPaths(c: Config, w: Web, start: Url, s: set<Url>, p: seq<Url>)
    requires start in s && IsPath(c, w, start, p)
    requires forall u, v :: u in s && LinksTo(c, w, u, v) && InBase(c, v) ==> v in s
    ensures p[|p| - 1] in s
    decreases |p|
  {
    if |p| > 1 {
      ClosedHasPaths(c, w, start, s, p[..|p| - 1]);
    }
  }

  lemma PathStaysInBase(c: Config, w: Web, start: Url, u: Url)
    requires Reachable(c, w, start, u)
    ensures u == start || (InBase(c, u) && InBase(c, start))
  {
    var p :| IsPath(c, w, start, p) && p[|p| - 1] == u;
    FirstStepInBase(c, w, start, p);
  }

  lemma {:induction false} FirstStepInBase(c: Config, w: Web, start: Url, p: seq<Url>)
    requires IsPath(c, w, start, p)
    ensures |p| > 1 ==> InBase(c, start)
    decreases |p|
  {
    if |p| > 1 { FirstStepInBase(c, w, start, p[..|p| - 1]); }
  }

  // ---------------------------------------------------------------- the crawl

  datatype Result = Result(url: Url, pass: bool)

  datatype State = State(visited: set<Url>, queue: seq<Url>, external: set<Url>, results: seq<Result>)

  /** Results list every visited page and every checked document once, with the verdict. */
  ghost predicate Listed(w: Web, s: State) {
    && (forall i, j :: 0 <= i < j < |s.results| ==> s.results[i].url != s.results[j].url)
    && (forall i :: 0 <= i < |s.results| ==>
          s.results[i].pass == w.up(s.results[i].url) && s.results[i].url in s.visited + s.external)
    && (forall u :: u in s.visited + s.external ==> Result(u, w.up(u)) in s.results)
  }

  ghost predicate Queued(s: State, u: Url) { exists i :: 0 <= i < |s.queue| && Defrag(s.queue[i]) == u }

  /** Nothing is in the state without reason. */
  ghost predicate Sound(c: Config, w: Web, start: Url, known: set<Url>, s: State) {
    && s.visited <= known && (forall u :: u in s.visited ==> Reachable(c, w, start, u))
    && (forall i :: 0 <= i < |s.queue| ==>
          var u := Defrag(s.queue[i]); u in known && (!Skipped(c, u) ==> Reachable(c, w, start, u)))
    && (forall v :: v in s.external ==> Referenced(c, w, start, v))
  }

  /** The links of `u` are taken care of. */
  ghost predicate Handled(c: Config, w: Web, s: State, u: Url) {
    forall v :: LinksTo(c, w, u, v) ==> if InBase(c, v) then v in s.visited || Queued(s, v) else v in s.external
  }

  ghost predicate Complete(c: Config, w: Web, start: Url, s: State) {
    && (Skipped(c, start) || start in s.visited || Queued(s, start))
    && forall u :: u in s.visited ==> Handled(c, w, s, u)
  }

  /** `t` has lost nothing that `s` had visited, queued or checked, skipped URLs aside. */
  ghost predicate Kept(c: Config, s: State, t: State) {
    && s.external <= t.external
    && forall u :: (u in s.visited || Queued(s, u)) && !Skipped(c, u) ==> u in t.visited || Queued(t, u)
  }

  lemma KeptTransitive(c: Config, s: State, t: State, r: State)
    requires Kept(c, s, t) && Kept(c, t, r)
    ensures Kept(c, s, r)
  {
  }

  lemma CompleteKept(c: Config, w: Web, start: Url, s: State, t: State)
    requires Complete(c, w, start, s) && Kept(c, s, t)
    requires forall u :: u in t.visited ==> u in s.visited || Handled(c, w, t, u)
    ensures Complete(c, w, start, t)
  {
    forall u | u in t.visited
      ensures Handled(c, w, t, u)
    {
      if u in s.visited { assert Handled(c, w, s, u); }
    }
  }

  /** Dropping the head of the queue loses nothing if it is visited or to be skipped. */
  lemma PopKept(c: Config, s: State, t: State)
    requires s.queue != [] && t.queue == s.queue[1..] && s.visited <= t.visited && s.external <= t.external
    requires Defrag(s.queue[0]) in t.visited || Skipped(c, Defrag(s.queue[0]))
    ensures Kept(c, s, t)
  {
    forall u | Queued(s, u) && !Skipped(c, u)
      ensures u in t.visited || Queued(t, u)
    {
      var i :| 0 <= i < |s.queue| && Defrag(s.queue[i]) == u;
      if i > 0 { assert t.queue[i - 1] == s.queue[i]; }
    }
  }

  lemma PopSound(c: Config, w: Web, start: Url, known: set<Url>, s: State, t: State)
    requires Sound(c, w, start, known, s) && s.queue != []
    requires t.queue == s.queue[1..] && t.external == s.external
    requires t.visited == s.visited
             || (t.visited == s.visited + {Defrag(s.queue[0])} && !Skipped(c, Defrag(s.queue[0])))
    ensures Sound(c, w, start, known, t)
  {
    forall i | 0 <= i < |t.queue|
      ensures var u := Defrag(t.queue[i]); u in known && (!Skipped(c, u) ==> Reachable(c, w, start, u))
    {
      assert t.queue[i] == s.queue[i + 1];
    }
  }

  method Check(w: Web, s: State, u: Url, external: bool) returns (t: State)
    requires Listed(w, s) && u !in s.visited && u !in s.external
    ensures t == if external then s.(external := s.external + {u}, results := s.results + [Result(u, w.up(u))])
                 else s.(visited := s.visited + {u}, results := s.results + [Result(u, w.up(u))])
    ensures Listed(w, t)
  {
    var ok := w.up(u);
    t := s.(results := s.results + [Result(u, ok)]);
    if external {
      t := t.(external := t.external + {u});
    } else {
      t := t.(visited := t.visited + {u});
    }
    assert t.results[|s.results|] == Result(u, ok);
    assert forall i :: 0 <= i < |s.results| ==> t.results[i] == s.results[i];
  }

  /** One anchor of a fetched page. */
  method HandleLink(c: Config, w: Web, ghost start: Url, ghost known: set<Url>, s: State, url: Url, i: nat)
    returns (t: State)
    requires Listed(w, s) && Sound(c, w, start, known, s)
    requires url in s.visited && Fetched(c, w, url) && i < |w.anchors(url)|
    requires Defrag(w.anchors(url)[i]) in known
    ensures Listed(w, t) && Sound(c, w, start, known, t) && Kept(c, s, t) && t.visited == s.visited
    ensures LinkDone(c, t, Defrag(w.anchors(url)[i]))
  {
    t := s;
    var v := Defrag(w.anchors(url)[i]);
    if Skipped(c, v) || !InDomain(c, v) {
      return;
    }
    assert LinksTo(c, w, url, v);
    if InBase(c, v) {
      ReachableNext(c, w, start, url, v);
      if v !in t.visited {
        t := t.(queue := t.queue + [v]);
        DefragTwice(w.anchors(url)[i]);
        assert t.queue[|s.queue|] == v && Defrag(v) == v;
        assert forall k :: 0 <= k < |s.queue| ==> t.queue[k] == s.queue[k];
      }
    } else if v !in t.external {
      assert Referenced(c, w, start, v);
      PathStaysInBase(c, w, start, url);
      if v in t.visited { PathStaysInBase(c, w, start, v); }
      t := Check(w, t, v, true);
    }
  }

  /** The loop over the anchors of a fetched page. */
  method HandlePage(c: Config, w: Web, ghost start: Url, ghost known: set<Url>, s: State, url: Url) returns (t: State)
    requires Listed(w, s) && Sound(c, w, start, known, s)
    requires url in s.visited && Fetched(c, w, url)
    requires forall i :: 0 <= i < |w.anchors(url)| ==> Defrag(w.anchors(url)[i]) in known
    ensures Listed(w, t) && Sound(c, w, start, known, t) && Kept(c, s, t) && t.visited == s.visited
    ensures Handled(c, w, t, url)
  {
    t := s;
    var n := |w.anchors(url)|;
    for i := 0 to n
      invariant Listed(w, t) && Sound(c, w, start, known, t)
      invariant Kept(c, s, t) && t.visited == s.visited
      invariant LinksDone(c, w, t, url, i)
    {
      var next := HandleLink(c, w, start, known, t, url, i);
      OneMoreLink(c, w, t, next, url, i);
      KeptTransitive(c, s, t, next);
      t := next;
    }
    AllLinksDone(c, w, t, url);
  }

  ghost predicate LinkDone(c: Config, s: State, v: Url) {
    Admissible(c, v) ==> if InBase(c, v) then v in s.visited || Queued(s, v) else v in s.external
  }

  /** The first n anchors of the page are taken care of. */
  ghost predicate LinksDone(c: Config, w: Web, s: State, url: Url, n: nat)
    requires n <= |w.anchors(url)|
  {
    forall k :: 0 <= k < n ==> LinkDone(c, s, Defrag(w.anchors(url)[k]))
  }

  lemma OneMoreLink(c: Config, w: Web, s: State, t: State, url: Url, i: nat)
    requires i < |w.anchors(url)| && Kept(c, s, t) && LinksDone(c, w, s, url, i)
    requires LinkDone(c, t, Defrag(w.anchors(url)[i]))
    ensures LinksDone(c, w, t, url, i + 1)
  {
  }

  lemma AllLinksDone(c: Config, w: Web, t: State, url: Url)
    requires LinksDone(c, w, t, url, |w.anchors(url)|)
    ensures Handled(c, w, t, url)
  {
  }

  /** All targets of anchors of known pages are known: the link graph is finite. */
  ghost predicate FiniteGraph(w: Web, known: set<Url>) {
    forall u, i :: u in known && 0 <= i < |w.anchors(u)| ==> Defrag(w.anchors(u)[i]) in known
  }

  ghost predicate Lists(results: seq<Result>, u: Url) { exists i :: 0 <= i < |results| && results[i].url == u }

  /** `crawl`, on any finite link graph: it ends, lists each URL once with its verdict, and the
      URLs are exactly the pages reachable through passing pages of the base documentation and
      the other allowed documents that such a page links to. */
  method Crawl(c: Config, w: Web, baseUrl: Url, ghost known: set<Url>) returns (results: seq<Result>)
    requires Defrag(baseUrl) in known && FiniteGraph(w, known)
    ensures forall i, j :: 0 <= i < j < |results| ==> results[i].url != results[j].url
    ensures forall i :: 0 <= i < |results| ==> results[i].pass == w.up(results[i].url)
    ensures forall u ::
              Lists(results, u) <==> Reachable(c, w, Defrag(baseUrl), u) || Referenced(c, w, Defrag(baseUrl), u)
    ensures FoundOnPassing(c, w, Defrag(baseUrl), results) && PassingFollowed(c, w, results)
  {
    ghost var start := Defrag(baseUrl);
    var s := State({}, [baseUrl], {}, []);
    assert Defrag(s.queue[0]) == start;
    if !Skipped(c, start) { ReachableStart(c, w, start); }
    assert Queued(s, start);
    while s.queue != []
      invariant Listed(w, s) && Sound(c, w, start, known, s) && Complete(c, w, start, s)
      decreases known - s.visited, |s.queue|
    {
      s := Visit(c, w, start, known, s);
    }
    results := s.results;
    forall u
      ensures Lists(results, u) <==> Reachable(c, w, start, u) || Referenced(c, w, start, u)
    {
      CrawlIsExact(c, w, start, known, s, u);
    }
    ExactIsLinked(c, w, start, results);
  }

  /** `u` is the target of an anchor of the page that result r is about. */
  ghost predicate AnchoredOn(w: Web, r: Result, u: Url) {
    exists k :: 0 <= k < |w.anchors(r.url)| && Defrag(w.anchors(r.url)[k]) == u
  }

  /** Read off the results: everything listed, the start page aside, is linked from a listed page
      of the base documentation that passed. */
  ghost predicate FoundOnPassing(c: Config, w: Web, start: Url, results: seq<Result>) {
    forall i :: 0 <= i < |results| && results[i].url != start ==>
      exists j :: 0 <= j < |results| && results[j].pass && c.inBase(results[j].url)
                  && AnchoredOn(w, results[j], results[i].url)
  }

  /** ... and everything linked from such a page is listed, unless it is skipped or elsewhere. */
  ghost predicate PassingFollowed(c: Config, w: Web, results: seq<Result>) {
    forall j, v :: 0 <= j < |results| && AnchoredOn(w, results[j], v) ==>
      (results[j].pass && c.inBase(results[j].url) && !c.skipped(v) && c.inDomain(v) ==> Lists(results, v))
  }

  /** The results are the right ones. */
  ghost predicate Exact(c: Config, w: Web, start: Url, results: seq<Result>) {
    && (forall i :: 0 <= i < |results| ==> results[i].pass == w.up(results[i].url))
    && (forall u :: Lists(results, u) <==> Reachable(c, w, start, u) || Referenced(c, w, start, u))
  }

  lemma ExactIsLinked(c: Config, w: Web, start: Url, results: seq<Result>)
    requires Exact(c, w, start, results)
    ensures FoundOnPassing(c, w, start, results) && PassingFollowed(c, w, results)
  {
    forall i | 0 <= i < |results| && results[i].url != start
      ensures exists j :: 0 <= j < |results| && results[j].pass && c.inBase(results[j].url)
                          && AnchoredOn(w, results[j], results[i].url)
    {
      var j := FoundOne(c, w, start, results, results[i].url);
    }
    forall j, v | && 0 <= j < |results| && AnchoredOn(w, results[j], v)
                  && Fetched(c, w, results[j].url) && Admissible(c, v)
      ensures Lists(results, v)
    {
      FollowedOne(c, w, start, results, results[j].url, v);
    }
  }

  lemma FoundOne(c: Config, w: Web, start: Url, results: seq<Result>, u: Url) returns (j: nat)
    requires Exact(c, w, start, results) && Lists(results, u) && u != start
    ensures j < |results| && results[j].pass && c.inBase(results[j].url) && AnchoredOn(w, results[j], u)
  {
    var p := LinkedFrom(c, w, start, u);
    assert Lists(results, p);
    j :| 0 <= j < |results| && results[j].url == p;
  }

  lemma FollowedOne(c: Config, w: Web, start: Url, results: seq<Result>, u: Url, v: Url)
    requires Exact(c, w, start, results) && Lists(results, u) && LinksTo(c, w, u, v)
    ensures Lists(results, v)
  {
    assert Reachable(c, w, start, u);
    if InBase(c, v) {
      ReachableNext(c, w, start, u, v);
    } else {
      assert Referenced(c, w, start, v);
    }
  }

  /** The page that a reached or referenced URL was found on. */
  lemma LinkedFrom(c: Config, w: Web, start: Url, u: Url) returns (p: Url)
    requires (Reachable(c, w, start, u) && u != start) || Referenced(c, w, start, u)
    ensures Reachable(c, w, start, p) && LinksTo(c, w, p, u)
  {
    if Referenced(c, w, start, u) {
      p :| Reachable(c, w, start, p) && LinksTo(c, w, p, u);
    } else {
      var path :| IsPath(c, w, start, path) && path[|path| - 1] == u;
      p := path[|path| - 2];
      assert IsPath(c, w, start, path[..|path| - 1]);
      assert path[..|path| - 1][|path| - 2] == p;
    }
  }

  /** The check as it is run, from the configured base page and with the configured rules. Everything
      listed passes the skip rules and, the base page aside, lies in the allowed domain. The report
      is empty iff the base page itself is skipped; a blank entry in either skip list does that. */
  method CheckSite(c: Settings, w: Web, ghost known: set<Url>) returns (results: seq<Result>)
    requires Defrag(Url(c.base)) in known && FiniteGraph(w, known)
    ensures forall i :: 0 <= i < |results| ==>
                          && !UnwantedExtension(c, results[i].url) && !Placeholder(c, results[i].url)
                          && (results[i].url == Defrag(Url(c.base)) || c.domain <= results[i].url.text)
    ensures results == [] <==> UnwantedExtension(c, Defrag(Url(c.base))) || Placeholder(c, Defrag(Url(c.base)))
    ensures "" in c.skipExt || "" in c.skipPatterns ==> results == []
    ensures forall i :: 0 <= i < |results| && results[i].url != Defrag(Url(c.base)) ==>
              exists j :: 0 <= j < |results| && results[j].pass && c.base <= results[j].url.text
                          && AnchoredOn(w, results[j], results[i].url)
  {
    var rules := RulesOf(c);
    ghost var start := Defrag(Url(c.base));
    results := Crawl(rules, w, Url(c.base), known);
    forall i | 0 <= i < |results|
      ensures !Skipped(rules, start) && !Skipped(rules, results[i].url)
      ensures results[i].url == start || InDomain(rules, results[i].url)
    {
      ListedIsAdmissible(rules, w, start, results[i].url);
    }
    if results != [] {
      ListedIsAdmissible(rules, w, start, results[0].url);
    }
    if !Skipped(rules, start) {
      ReachableStart(rules, w, start);
      assert exists i :: 0 <= i < |results| && results[i].url == start;
    }
    BlankSkipsAll(c, start);
  }

  lemma ListedIsAdmissible(c: Config, w: Web, start: Url, u: Url)
    requires Reachable(c, w, start, u) || Referenced(c, w, start, u)
    ensures !Skipped(c, start) && (u == start || Admissible(c, u))
  {
    if Reachable(c, w, start, u) {
      var p :| IsPath(c, w, start, p) && p[|p| - 1] == u;
    } else {
      var v :| Reachable(c, w, start, v) && LinksTo(c, w, v, u);
    }
  }

  lemma BlankSkipsAll(c: Settings, u: Url)
    ensures "" in c.skipExt ==> UnwantedExtension(c, u)
    ensures "" in c.skipPatterns ==> Placeholder(c, u)
  {
    assert "" <= u.text[0..];
    if "" in c.skipExt {
      var i :| 0 <= i < |c.skipExt| && c.skipExt[i] == "";
      assert EndsWith(u.text, c.skipExt[i]);
    }
    if "" in c.skipPatterns {
      var i :| 0 <= i < |c.skipPatterns| && c.skipPatterns[i] == "";
      assert Contains(u.text, c.skipPatterns[i]);
    }
  }

  lemma CrawlIsExact(c: Config, w: Web, start: Url, known: set<Url>, s: State, u: Url)
    requires Listed(w, s) && Sound(c, w, start, known, s) && Complete(c, w, start, s) && s.queue == []
    ensures Lists(s.results, u) <==> Reachable(c, w, start, u) || Referenced(c, w, start, u)
  {
    assert u in s.visited + s.external ==> Result(u, w.up(u)) in s.results;
    forall x | Reachable(c, w, start, x)
      ensures x in s.visited
    {
      var p :| IsPath(c, w, start, p) && p[|p| - 1] == x;
      ClosedHasPaths(c, w, start, s.visited, p);
    }
  }

  /** The body of the outer loop. */
  method Visit(c: Config, w: Web, ghost start: Url, ghost known: set<Url>, s: State) returns (t: State)
    requires Listed(w, s) && Sound(c, w, start, known, s) && Complete(c, w, start, s)
    requires s.queue != [] && FiniteGraph(w, known)
    ensures Listed(w, t) && Sound(c, w, start, known, t) && Complete(c, w, start, t)
    ensures (t.visited == s.visited && |t.queue| < |s.queue|)
            || (s.visited < t.visited && t.visited <= known)
  {
    var url := Defrag(s.queue[0]);
    t := s.(queue := s.queue[1..]);
    if url in t.visited || Skipped(c, url) {
      PopSound(c, w, start, known, s, t);
      PopKept(c, s, t);
      CompleteKept(c, w, start, s, t);
      return;
    }
    if url in t.external { PathStaysInBase(c, w, start, url); ReferencedIsElsewhere(c, w, start, url); }
    t := Check(w, t, url, false);
    PopSound(c, w, start, known, s, t);
    PopKept(c, s, t);
    if Fetched(c, w, url) {
      ghost var before := t;
      t := HandlePage(c, w, start, known, t, url);
      KeptTransitive(c, s, before, t);
    }
    CompleteKept(c, w, start, s, t);
  }

  /** A referenced document is never also a page of the crawl. */
  lemma ReferencedIsElsewhere(c: Config, w: Web, start: Url, v: Url)
    requires Referenced(c, w, start, v)
    ensures !Reachable(c, w, start, v)
  {
    var u :| Reachable(c, w, start, u) && LinksTo(c, w, u, v);
    PathStaysInBase(c, w, start, u);
    if Reachable(c, w, start, v) { PathStaysInBase(c, w, start, v); }
  }
}
