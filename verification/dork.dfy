/**
 * The dork engine: one search query per site scope, and the pure part of a
 * search: pulling result links out of the anchors of a result page,
 * removing duplicates in order of first appearance and keeping at most 25.
 *
 * The HTTP request and the HTML parser are not modelled: a page is its
 * status code and the `href` of each anchor in document order ("" for an
 * anchor without one), and a search is a function from query to outcome.
 */
module Dork {
  import opened Wrappers
  import opened Text
  import opened Dict

  /** The redirect wrapper the primary rule looks for. */
  const UrlMarker := "/url?q="
  const MaxResults := 25

  /** The site scopes searched for every target; the last one is the global scope. */
  const DorkSites: seq<string> := [
    "site:go.id", "site:ac.id", "site:facebook.com", "site:instagram.com",
    "site:olx.co.id", "site:shopee.co.id", "site:tokopedia.com", ""
  ]

  // ---------------------------------------------------------------------------
  // Link extraction

  /**
   * The primary rule on one href: after a leading `/url?q=`, the text up to
   * the next `/url?q=`, cut at the first `&`, kept only if it starts with
   * `http`.
   */
  function PrimaryLink(href: string): (r: Option<string>)
    ensures r.Some? ==> UrlMarker <= href && "http" <= r.value
    ensures r.Some? ==> var rest := href[|UrlMarker|..];
      && r.value <= rest && !Contains(r.value, "&") && !Contains(r.value, UrlMarker)
      && (r.value == rest || OccursAt(rest, "&", |r.value|) || OccursAt(rest, UrlMarker, |r.value|))
  {
    if UrlMarker <= href then
      var rest := href[|UrlMarker|..];
      var beforeMarker := BeforeFirst(rest, UrlMarker);
      var u := BeforeFirst(beforeMarker, "&");
      NoneInPrefix(u, beforeMarker, UrlMarker);
      assert u != beforeMarker ==> OccursAt(rest, "&", |u|) by {
        if u != beforeMarker {
          OccursInPrefix(beforeMarker, rest, "&", |u|);
        }
      }
      if "http" <= u then Some(u) else None
    else
      None
  }

  /**
   * The converse of PrimaryLink's contract: after a leading `/url?q=`, a
   * text starting with `http`, holding no `&` and no second marker, and
   * ending at the end of the href or just before an `&` or a marker, is
   * exactly the link the primary rule accepts.
   */
  lemma PrimaryLinkAccepts(href: string, u: string)
    requires UrlMarker <= href
    requires var rest := href[|UrlMarker|..];
      && u <= rest && "http" <= u && !Contains(u, "&") && !Contains(u, UrlMarker)
      && (u == rest || OccursAt(rest, "&", |u|) || OccursAt(rest, UrlMarker, |u|))
    ensures PrimaryLink(href) == Some(u)
  {
    var rest := href[|UrlMarker|..];
    NotBefore(rest, u, "&");
    NoMarkerBefore(rest, u);
    BeforeFirstNone(u, "&");
    if OccursAt(rest, UrlMarker, |u|) {
      BeforeFirstCut(rest, UrlMarker, |u|);
      assert rest[..|u|] == u;
    } else if u == rest {
      BeforeFirstNone(rest, UrlMarker);
    } else {
      CutAtAmpersand(rest, u);
    }
  }

  /** A pattern absent from a prefix `u` of `rest` does not occur in `rest` wholly inside `u`. */
  lemma NotBefore(rest: string, u: string, pat: string)
    requires u <= rest && !Contains(u, pat)
    ensures forall j: nat :: j + |pat| <= |u| ==> !OccursAt(rest, pat, j)
  {
    forall j: nat | j + |pat| <= |u| ensures !OccursAt(rest, pat, j) {
      assert !OccursAt(u, pat, j);
      assert u[j..j + |pat|] == rest[j..j + |pat|];
    }
  }

  /** No marker starts inside the link: one would lie wholly inside it or run past its end. */
  lemma NoMarkerBefore(rest: string, u: string)
    requires u <= rest && !Contains(u, UrlMarker)
    requires u == rest || OccursAt(rest, "&", |u|) || OccursAt(rest, UrlMarker, |u|)
    ensures forall j: nat :: j < |u| ==> !OccursAt(rest, UrlMarker, j)
  {
    NotBefore(rest, u, UrlMarker);
    forall j: nat | j < |u| < j + |UrlMarker| && OccursAt(rest, UrlMarker, j) ensures false {
      MarkerStraddles(rest, j, |u|);
    }
  }

  /**
   * A marker occurrence that starts before position `e` and covers it does
   * not leave an `&` or another marker at `e`: the marker holds no `&` and
   * does not overlap itself.
   */
  lemma MarkerStraddles(rest: string, j: nat, e: nat)
    requires j < e < j + |UrlMarker| && OccursAt(rest, UrlMarker, j)
    ensures !OccursAt(rest, "&", e) && !OccursAt(rest, UrlMarker, e)
  {
    assert rest[e] == rest[j..j + |UrlMarker|][e - j] == UrlMarker[e - j];
    assert UrlMarker[e - j] != '&' && UrlMarker[e - j] != '/';
    assert rest[e..e + 1][0] == rest[e];
    if e + |UrlMarker| <= |rest| {
      assert rest[e..e + |UrlMarker|][0] == rest[e];
    }
  }

  /** A link that ends just before an `&` is the text before the first marker, cut at its first `&`. */
  lemma CutAtAmpersand(rest: string, u: string)
    requires u <= rest && OccursAt(rest, "&", |u|)
    requires forall j: nat :: j + 1 <= |u| ==> !OccursAt(rest, "&", j)
    requires forall j: nat :: j < |u| ==> !OccursAt(rest, UrlMarker, j)
    ensures BeforeFirst(BeforeFirst(rest, UrlMarker), "&") == u
  {
    var bm := BeforeFirst(rest, UrlMarker);
    assert rest[|u|] == rest[|u|..|u| + 1][0] == '&';
    assert !OccursAt(rest, UrlMarker, |u|) by {
      if |u| + |UrlMarker| <= |rest| {
        assert rest[|u|..|u| + |UrlMarker|][0] == rest[|u|];
      }
    }
    assert forall j: nat :: j <= |u| ==> !OccursAt(rest, UrlMarker, j);
    assert |u| < |bm|;
    assert bm[..|u|] == u;
    assert bm[|u|..|u| + 1] == rest[|u|..|u| + 1];
    forall j: nat | j < |u| ensures !OccursAt(bm, "&", j) {
      assert !OccursAt(rest, "&", j);
      assert bm[j..j + 1] == rest[j..j + 1];
    }
    BeforeFirstCut(bm, "&", |u|);
  }

  /** A redirect link is cut at its first `&`. */
  lemma PrimaryLinkExample()
    ensures PrimaryLink(UrlMarker + "http" + "&q") == Some("http")
  {
    var u := "http";
    var rest := u + "&q";
    assert (UrlMarker + u + "&q")[|UrlMarker|..] == rest;
    assert !Contains(u, "&") by {
      forall j: nat ensures !OccursAt(u, "&", j) {
        if j + 1 <= |u| { assert u[j..j + 1][0] == u[j]; }
      }
    }
    assert !Contains(u, UrlMarker) by {
      assert forall j: nat :: !OccursAt(u, UrlMarker, j);
    }
    assert rest[|u|..|u| + 1] == "&";
    PrimaryLinkAccepts(UrlMarker + u + "&q", u);
  }

  /** The fallback rule on one href: non-empty, mentions `http`, does not mention `google`. */
  predicate IsFallbackLink(href: string) {
    href != "" && Contains(href, "http") && !Contains(href, "google")
  }

  /** What the primary rule collects from the anchors, in document order. */
  function PrimaryLinks(hrefs: seq<string>): seq<string>
  {
    if hrefs == [] then []
    else
      PrimaryLinks(hrefs[..|hrefs| - 1])
      + match PrimaryLink(hrefs[|hrefs| - 1]) case Some(u) => [u] case None => []
  }

  /** What the fallback rule collects from the anchors, in document order. */
  function FallbackLinks(hrefs: seq<string>): seq<string>
  {
    if hrefs == [] then []
    else
      FallbackLinks(hrefs[..|hrefs| - 1])
      + if IsFallbackLink(hrefs[|hrefs| - 1]) then [hrefs[|hrefs| - 1]] else []
  }

  /** The fallback runs only when the primary rule found nothing. */
  function ExtractedLinks(hrefs: seq<string>): seq<string>
  {
    var primary := PrimaryLinks(hrefs);
    if primary != [] then primary else FallbackLinks(hrefs)
  }

  /** Every link of the primary rule comes from some anchor's href. */
  lemma {:induction false} PrimaryLinksSound(hrefs: seq<string>, u: string)
    requires u in PrimaryLinks(hrefs)
    ensures exists i :: 0 <= i < |hrefs| && PrimaryLink(hrefs[i]) == Some(u)
  {
    var init := hrefs[..|hrefs| - 1];
    if u in PrimaryLinks(init) {
      PrimaryLinksSound(init, u);
      var i :| 0 <= i < |init| && PrimaryLink(init[i]) == Some(u);
      assert init[i] == hrefs[i];
    } else {
      assert PrimaryLink(hrefs[|hrefs| - 1]) == Some(u);
    }
  }

  /** Every anchor whose href passes the primary rule contributes its link. */
  lemma {:induction false} PrimaryLinksComplete(hrefs: seq<string>, i: nat)
    requires i < |hrefs| && PrimaryLink(hrefs[i]).Some?
    ensures PrimaryLink(hrefs[i]).value in PrimaryLinks(hrefs)
  {
    var init := hrefs[..|hrefs| - 1];
    if i < |init| {
      assert init[i] == hrefs[i];
      PrimaryLinksComplete(init, i);
    }
  }

  /** A link comes from the fallback rule exactly when it is an anchor href that passes the rule. */
  lemma {:induction false} FallbackLinksMembers(hrefs: seq<string>, u: string)
    ensures u in FallbackLinks(hrefs) <==> u in hrefs && IsFallbackLink(u)
  {
    if hrefs != [] {
      var init := hrefs[..|hrefs| - 1];
      FallbackLinksMembers(init, u);
      assert hrefs == init + [hrefs[|hrefs| - 1]];
    }
  }

  /**
   * Every extracted link either comes from the primary rule (and then starts
   * with `http` and holds no `&`) or, when that rule found nothing, is an
   * anchor href that mentions `http` and not `google`.
   */
  lemma ExtractedLinksMeaning(hrefs: seq<string>, u: string)
    requires u in ExtractedLinks(hrefs)
    ensures || ((exists i :: 0 <= i < |hrefs| && PrimaryLink(hrefs[i]) == Some(u))
                && "http" <= u && !Contains(u, "&"))
            || (PrimaryLinks(hrefs) == [] && u in hrefs && IsFallbackLink(u))
  {
    if u in PrimaryLinks(hrefs) {
      PrimaryLinksSound(hrefs, u);
    }
    FallbackLinksMembers(hrefs, u);
  }

  // ---------------------------------------------------------------------------
  // Duplicates and the cap

  predicate NoDuplicates(s: seq<string>) {
    forall i, j :: 0 <= i < j < |s| ==> s[i] != s[j]
  }

  /** `s` without repeats, each element kept at its first appearance. */
  function Dedup(s: seq<string>): (d: seq<string>)
    ensures NoDuplicates(d)
    ensures forall x :: x in d <==> x in s
    ensures |d| <= |s|
  {
    if s == [] then []
    else
      var init := s[..|s| - 1];
      var last := s[|s| - 1];
      var d := Dedup(init);
      assert s == init + [last];
      if last in d then d else d + [last]
  }

  /** The position of the first appearance of `x` in `s`. */
  function FirstPos(s: seq<string>, x: string): (p: nat)
    requires x in s
    ensures p < |s| && s[p] == x
    ensures forall j :: 0 <= j < p ==> s[j] != x
  {
    if s[0] == x then 0 else 1 + FirstPos(s[1..], x)
  }

  /** Dedup keeps the order of first appearance. */
  lemma {:induction false} DedupOrder(s: seq<string>)
    ensures forall i, j :: 0 <= i < j < |Dedup(s)| ==> FirstPos(s, Dedup(s)[i]) < FirstPos(s, Dedup(s)[j])
  {
    if s != [] {
      var init := s[..|s| - 1];
      var last := s[|s| - 1];
      DedupOrder(init);
      var d := Dedup(init);
      assert s == init + [last];
      forall x | x in init ensures FirstPos(s, x) == FirstPos(init, x) {
        var p := FirstPos(init, x);
        assert s[p] == x;
      }
      if last !in d {
        assert last !in init;
        assert FirstPos(s, last) == |init|;
        forall i, j | 0 <= i < j < |Dedup(s)|
          ensures FirstPos(s, Dedup(s)[i]) < FirstPos(s, Dedup(s)[j])
        {
          assert Dedup(s)[i] == d[i];
          if j < |d| {
            assert Dedup(s)[j] == d[j];
          }
        }
      }
    }
  }

  /** Python's `s[:n]`. */
  function Take(s: seq<string>, n: nat): (t: seq<string>)
    ensures t <= s && |t| == if |s| <= n then |s| else n
  {
    if |s| <= n then s else s[..n]
  }

  // ---------------------------------------------------------------------------
  // One search

  /** A result page; `Failed` stands for any exception while fetching or parsing it. */
  datatype Response = Failed | Page(status: int, hrefs: seq<string>)

  /** `google_search_raw` on a response, as a specification. */
  function SearchResults(resp: Response): seq<string>
  {
    match resp
    case Failed => []
    case Page(status, hrefs) =>
      if status != 200 then [] else Take(Dedup(ExtractedLinks(hrefs)), MaxResults)
  }

  /**
   * The results of one search have no duplicates, keep the order of first
   * appearance, hold only extracted links, and number at most 25; a failed
   * request or a status other than 200 gives no results.
   */
  lemma SearchResultsMeaning(resp: Response)
    ensures var urls := SearchResults(resp);
      && NoDuplicates(urls) && |urls| <= MaxResults
      && (resp.Failed? || resp.status != 200 ==> urls == [])
      && (resp.Page? && resp.status == 200 ==>
            var uniq := Dedup(ExtractedLinks(resp.hrefs));
            && urls <= uniq && |urls| == (if |uniq| <= MaxResults then |uniq| else MaxResults)
            && (forall u :: u in urls ==> u in ExtractedLinks(resp.hrefs))
            && (forall i, j :: 0 <= i < j < |urls| ==>
                  FirstPos(ExtractedLinks(resp.hrefs), urls[i]) < FirstPos(ExtractedLinks(resp.hrefs), urls[j]))
            && (|Dedup(ExtractedLinks(resp.hrefs))| <= MaxResults ==>
                  forall u :: u in ExtractedLinks(resp.hrefs) ==> u in urls))
  {
    if resp.Page? && resp.status == 200 {
      var links := ExtractedLinks(resp.hrefs);
      DedupOrder(links);
      var d := Dedup(links);
      var urls := SearchResults(resp);
      assert forall i :: 0 <= i < |urls| ==> urls[i] == d[i];
    }
  }

  /** The two link-collecting loops of `google_search_raw`: primary rule, then fallback if it found nothing. */
  method CollectLinks(hrefs: seq<string>) returns (links: seq<string>)
    ensures links == ExtractedLinks(hrefs)
  {
    links := [];
    for i := 0 to |hrefs|
      invariant links == PrimaryLinks(hrefs[..i])
    {
      assert hrefs[..i + 1][..i] == hrefs[..i];
      var u := PrimaryLink(hrefs[i]);
      if u.Some? {
        links := links + [u.value];
      }
    }
    assert hrefs[..|hrefs|] == hrefs;
    if links == [] {
      for i := 0 to |hrefs|
        invariant links == FallbackLinks(hrefs[..i])
      {
        assert hrefs[..i + 1][..i] == hrefs[..i];
        if IsFallbackLink(hrefs[i]) {
          links := links + [hrefs[i]];
        }
      }
    }
  }

  /** The `seen`/`uniq` loop of `google_search_raw`. */
  method DedupLinks(links: seq<string>) returns (uniq: seq<string>)
    ensures uniq == Dedup(links)
  {
    var seen: set<string> := {};
    uniq := [];
    for i := 0 to |links|
      invariant uniq == Dedup(links[..i])
      invariant forall x :: x in seen <==> x in uniq
    {
      assert links[..i + 1][..i] == links[..i];
      if links[i] !in seen {
        seen := seen + {links[i]};
        uniq := uniq + [links[i]];
      }
    }
    assert links[..|links|] == links;
  }

  /** `google_search_raw` on a response: collect, remove duplicates, keep the first 25. */
  method SearchRaw(resp: Response) returns (urls: seq<string>)
    ensures urls == SearchResults(resp)
    ensures NoDuplicates(urls) && |urls| <= MaxResults
  {
    if resp.Failed? || resp.status != 200 {
      return [];
    }
    var links := CollectLinks(resp.hrefs);
    var uniq := DedupLinks(links);
    urls := if |uniq| <= MaxResults then uniq else uniq[..MaxResults];
    SearchResultsMeaning(resp);
  }

  // ---------------------------------------------------------------------------
  // Queries

  /** `s "target"` for a site scope, `"target"` for the empty global scope. */
  function Query(site: string, target: string): (q: string)
    ensures |q| >= |target| + 2 && q[|q| - |target| - 2..] == "\"" + target + "\""
    ensures site != "" ==> site + " " <= q && |q| == |site| + |target| + 3
    ensures site == "" ==> |q| == |target| + 2
  {
    if site == "" then "\"" + target + "\"" else site + " \"" + target + "\""
  }

  /** Different site scopes give different queries for the same target. */
  lemma QueryInjective(s1: string, s2: string, target: string)
    requires Query(s1, target) == Query(s2, target)
    ensures s1 == s2
  {
    var q := Query(s1, target);
    if s1 != "" && s2 != "" {
      assert |s1| == |s2|;
      assert s1 == q[..|s1|] == s2;
    }
  }

  /** What a search that raised counts as: no results. */
  datatype SearchOutcome = Raised | Returned(urls: seq<string>)

  function OutcomeUrls(o: SearchOutcome): seq<string>
  {
    match o
    case Raised => []
    case Returned(urls) => urls
  }

  /** The query list, one per site scope in order. */
  method BuildQueries(target: string, sites: seq<string>) returns (queries: seq<string>)
    ensures |queries| == |sites|
    ensures forall i :: 0 <= i < |sites| ==> queries[i] == Query(sites[i], target)
  {
    queries := [];
    for i := 0 to |sites|
      invariant |queries| == i
      invariant forall j :: 0 <= j < i ==> queries[j] == Query(sites[j], target)
    {
      queries := queries + [Query(sites[i], target)];
    }
  }

  /**
   * `dork_target_multisite`: the result map holds one entry per distinct
   * query and each entry holds that query's search results (none for a
   * search that raised). Queries are run one after another here; the program
   * runs them on a thread pool, which changes only the map's key order.
   * The pool cannot be created with zero workers, so the site list must not
   * be empty.
   */
  method DorkTarget(target: string, sites: seq<string>, search: string -> SearchOutcome)
    returns (results: Dict<string, seq<string>>)
    requires |sites| > 0
    ensures DistinctKeys(results)
    ensures Keys(results) == QuerySet(sites, target)
    ensures ResultsOf(results, search)
  {
    var queries := BuildQueries(target, sites);
    results := [];
    for i := 0 to |queries|
      invariant DistinctKeys(results)
      invariant Keys(results) == QuerySet(sites[..i], target)
      invariant ResultsOf(results, search)
    {
      var q := queries[i];
      RecordResult(results, q, search);
      results := Put(results, q, OutcomeUrls(search(q)));
      QuerySetStep(sites, i, target);
    }
    assert sites[..|sites|] == sites;
  }

  /** Every entry of `results` holds what the search returned for its query. */
  predicate ResultsOf(results: Dict<string, seq<string>>, search: string -> SearchOutcome)
  {
    forall k :: 0 <= k < |results| ==> results[k].1 == OutcomeUrls(search(results[k].0))
  }

  /** `results[q] = res` keeps the keys distinct and every entry faithful to the search. */
  lemma RecordResult(results: Dict<string, seq<string>>, q: string, search: string -> SearchOutcome)
    requires DistinctKeys(results) && ResultsOf(results, search)
    ensures var r := Put(results, q, OutcomeUrls(search(q)));
      DistinctKeys(r) && ResultsOf(r, search) && Keys(r) == Keys(results) + {q}
  {
  }

  lemma QuerySetStep(sites: seq<string>, i: nat, target: string)
    requires i < |sites|
    ensures QuerySet(sites[..i + 1], target) == QuerySet(sites[..i], target) + {Query(sites[i], target)}
  {
    assert sites[..i + 1] == sites[..i] + [sites[i]];
  }

  /** The set of queries for a list of site scopes. */
  function QuerySet(sites: seq<string>, target: string): set<string>
  {
    set s | s in sites :: Query(s, target)
  }

  /** Every key of a result map built over `sites` ends with the target in double quotes. */
  lemma KeysQuoteTarget(results: Dict<string, seq<string>>, sites: seq<string>, target: string)
    requires Keys(results) == QuerySet(sites, target)
    ensures forall k :: 0 <= k < |results| ==>
      var q := results[k].0; |q| >= |target| + 2 && q[|q| - |target| - 2..] == "\"" + target + "\""
  {
    forall k | 0 <= k < |results|
      ensures var q := results[k].0; |q| >= |target| + 2 && q[|q| - |target| - 2..] == "\"" + target + "\""
    {
      assert results[k].0 in QuerySet(sites, target);
    }
  }

  /** Different site scopes give different queries, so a list of distinct scopes gives one result entry each. */
  lemma DistinctSitesDistinctQueries(sites: seq<string>, target: string)
    requires NoDuplicates(sites)
    ensures forall i, j :: 0 <= i < j < |sites| ==> Query(sites[i], target) != Query(sites[j], target)
  {
    forall i, j | 0 <= i < j < |sites|
      ensures Query(sites[i], target) != Query(sites[j], target)
    {
      if Query(sites[i], target) == Query(sites[j], target) {
        QueryInjective(sites[i], sites[j], target);
      }
    }
  }
}
