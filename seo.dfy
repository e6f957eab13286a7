/** `src/components/Seo.tsx`: which route entry describes the current page,
    and the head values (title, description, image, robots) derived from it.
    The `document.head` updates themselves are not modelled. */
module Seo {
  import opened Wrappers
  import opened Strings
  import opened Configs
  import StableSort

  /** The built-in defaults used while no meta configuration is loaded. */
  const SiteName := "Honey Brook Water Authority"

  const FallbackDefaults := MetaDefaults(
    SiteName,
    "%s | " + SiteName,
    "Safe, reliable municipal water service for Honey Brook and surrounding communities. View service alerts, billing, and public documents.",
    "en_US",
    SummaryLargeImage,
    None,
    None,
    None)

  /** The path with one trailing `/` removed, except for the root path. */
  function Normalize(pathname: string): (n: string)
    ensures pathname == "/" ==> n == pathname
    ensures pathname != "/" && |pathname| > 0 && pathname[|pathname| - 1] == '/' ==> n + "/" == pathname
    ensures (|pathname| == 0 || pathname[|pathname| - 1] != '/') ==> n == pathname
  {
    if |pathname| > 0 && pathname[|pathname| - 1] == '/' && pathname != "/" then pathname[..|pathname| - 1]
    else pathname
  }

  /** A key covers the normalised path when it is the path itself or a
      directory prefix of it. The root key never covers by this test. */
  predicate Covers(normalized: string, key: string) {
    key != "/" && (normalized == key || key + "/" <= normalized)
  }

  /** `key` is a non-wildcard route key that covers `normalized`, and no
      covering key is longer. */
  ghost predicate IsLongestMatch(routes: map<string, RouteMeta>, normalized: string, key: string) {
    key in routes && key != "/*" && Covers(normalized, key) &&
    forall k :: k in routes && k != "/*" && Covers(normalized, k) ==> |k| <= |key|
  }

  /** Two different keys of the same length never both cover a path: each
      would be the path's prefix of that length. */
  lemma SameLengthCoverUnique(normalized: string, k1: string, k2: string)
    requires Covers(normalized, k1) && Covers(normalized, k2) && |k1| == |k2|
    ensures k1 == k2
  {
    assert k1 == normalized[..|k1|];
    assert k2 == normalized[..|k2|];
  }

  /** Hence the longest match is unique, whatever order equal-length keys
      are visited in. */
  lemma LongestMatchUnique(routes: map<string, RouteMeta>, normalized: string, k1: string, k2: string)
    requires IsLongestMatch(routes, normalized, k1) && IsLongestMatch(routes, normalized, k2)
    ensures k1 == k2
  {
    SameLengthCoverUnique(normalized, k1, k2);
  }

  /** A key covers the paths below it, and no path that merely extends its
      last segment: `/docs` covers `/docs/a` but not `/docsx`. */
  lemma CoversNeedsSeparator(key: string, c: char, rest: string)
    requires key != "/" && c != '/'
    ensures Covers(key + "/" + rest, key)
    ensures !Covers(key + [c] + rest, key)
  {
    assert (key + "/" + rest)[..|key| + 1] == key + "/";
    assert (key + [c] + rest)[|key|] != (key + "/")[|key|];
  }

  /** The comparator `(a, b) => b.length - a.length`: longer keys first. */
  function ByLengthDesc(a: string, b: string): int {
    |b| - |a|
  }

  lemma ByLengthDescConsistent()
    ensures StableSort.Consistent(ByLengthDesc)
  {
  }

  /** The route keys other than the wildcard key, in some enumeration order:
      `Object.keys(routes)` filtered. */
  method RouteKeys(routes: map<string, RouteMeta>) returns (ks: seq<string>)
    ensures forall k :: k in ks <==> k in routes && k != "/*"
  {
    var rest := routes.Keys;
    ks := [];
    while rest != {}
      invariant rest <= routes.Keys
      invariant forall k :: k in ks <==> k in routes && k != "/*" && k !in rest
      decreases |rest|
    {
      var k :| k in rest;
      if k != "/*" {
        ks := ks + [k];
      }
      rest := rest - {k};
    }
  }

  /** The route keys other than the wildcard, sorted by
      `(a, b) => b.length - a.length`: longest first. */
  method SortedRouteKeys(routes: map<string, RouteMeta>) returns (keys: seq<string>)
    ensures forall k :: k in keys <==> k in routes && k != "/*"
    ensures forall i, j :: 0 <= i < j < |keys| ==> |keys[i]| >= |keys[j]|
  {
    var ks := RouteKeys(routes);
    var a := new string[|ks|](i requires 0 <= i < |ks| => ks[i]);
    assert a[..] == ks;
    StableSort.SortInPlace(a, ByLengthDesc);
    keys := a[..];
    LongestFirst(ks);
  }

  /** Sorting by `ByLengthDesc` keeps the keys and puts longer ones first. */
  lemma LongestFirst(ks: seq<string>)
    ensures var r := StableSort.SortSpec(ks, ByLengthDesc);
      (forall k :: k in r <==> k in ks) &&
      (forall i, j :: 0 <= i < j < |r| ==> |r[i]| >= |r[j]|)
  {
    var r := StableSort.SortSpec(ks, ByLengthDesc);
    ByLengthDescConsistent();
    StableSort.SortSpecSorted(ks, ByLengthDesc);
    StableSort.SortSpecPermutes(ks, ByLengthDesc);
    assert forall k :: k in ks <==> k in multiset(ks);
    assert forall k :: k in r <==> k in multiset(r);
    forall i, j | 0 <= i < j < |r| ensures |r[i]| >= |r[j]| {
      assert ByLengthDesc(r[i], r[j]) <= 0;
    }
  }

  /** The resolution rule: no entry without a configuration; the entry under
      the raw path if there is one; else the entry of the longest covering
      key; else the wildcard entry, which may be absent. */
  ghost predicate ResolvesTo(pathname: string, config: Option<MetaConfig>, r: Option<RouteMeta>) {
    match config
    case None => r == None
    case Some(c) =>
      if pathname in c.routes then r == Some(c.routes[pathname])
      else if exists k :: IsLongestMatch(c.routes, Normalize(pathname), k) then
        exists k :: IsLongestMatch(c.routes, Normalize(pathname), k) && r == Some(c.routes[k])
      else r == (if "/*" in c.routes then Some(c.routes["/*"]) else None)
  }

  /** The rule determines the entry: the order in which `Object.keys` lists
      keys of equal length cannot change the outcome. */
  lemma ResolutionIsDeterministic(pathname: string, config: Option<MetaConfig>, r1: Option<RouteMeta>, r2: Option<RouteMeta>)
    requires ResolvesTo(pathname, config, r1) && ResolvesTo(pathname, config, r2)
    ensures r1 == r2
  {
    if config.Some? && pathname !in config.value.routes {
      var routes, n := config.value.routes, Normalize(pathname);
      if exists k :: IsLongestMatch(routes, n, k) {
        var k1 :| IsLongestMatch(routes, n, k1) && r1 == Some(routes[k1]);
        var k2 :| IsLongestMatch(routes, n, k2) && r2 == Some(routes[k2]);
        LongestMatchUnique(routes, n, k1, k2);
      }
    }
  }

  /** The root entry is reached only through the raw path: for any other path
      without its own entry, the `/` key is never the chosen match. */
  lemma RootOnlyExact(routes: map<string, RouteMeta>, pathname: string)
    ensures !IsLongestMatch(routes, Normalize(pathname), "/")
  {
  }

  /** A path with a trailing slash and no entry of its own resolves to the
      entry of the path without it: `/docs/` to `/docs`. */
  lemma TrailingSlashResolves(c: MetaConfig, key: string, r: Option<RouteMeta>)
    requires key != "" && key != "/" && key != "/*"
    requires key in c.routes && key + "/" !in c.routes
    requires ResolvesTo(key + "/", Some(c), r)
    ensures r == Some(c.routes[key])
  {
    var n := Normalize(key + "/");
    assert n == key;
    forall k | k in c.routes && k != "/*" && Covers(n, k) ensures |k| <= |key| {
      if k != n {
        assert |k + "/"| <= |n|;
      }
    }
    assert IsLongestMatch(c.routes, n, key);
    var k :| IsLongestMatch(c.routes, n, k) && r == Some(c.routes[k]);
    LongestMatchUnique(c.routes, n, k, key);
  }

  /** `pickRouteMeta(pathname, config)`. */
  method PickRouteMeta(pathname: string, config: Option<MetaConfig>) returns (r: Option<RouteMeta>)
    ensures ResolvesTo(pathname, config, r)
  {
    if config.None? {
      return None;
    }
    var routes := config.value.routes;
    if pathname in routes {
      return Some(routes[pathname]);
    }
    var normalized := Normalize(pathname);
    var keys := SortedRouteKeys(routes);
    var i := 0;
    while i < |keys|
      invariant 0 <= i <= |keys|
      invariant forall j :: 0 <= j < i ==> !Covers(normalized, keys[j])
    {
      var key := keys[i];
      if key != "/" && (normalized == key || key + "/" <= normalized) {
        assert IsLongestMatch(routes, normalized, key) by {
          assert key in keys;
          forall k | k in routes && k != "/*" && Covers(normalized, k)
            ensures |k| <= |key|
          {
            assert k in keys;
            var j :| 0 <= j < |keys| && keys[j] == k;
            assert j >= i;
            if j > i {
              assert |keys[i]| >= |keys[j]|;
            }
          }
        }
        return Some(routes[key]);
      }
      i := i + 1;
    }
    assert forall k :: !IsLongestMatch(routes, normalized, k);
    r := if "/*" in routes then Some(routes["/*"]) else None;
  }

  /** `s.replace(pat, rep)` with a string pattern: only the first occurrence
      is replaced. */
  function ReplaceFirst(s: string, pat: string, rep: string): string
    requires |pat| > 0
  {
    if |s| < |pat| then s
    else if s[..|pat|] == pat then rep + s[|pat|..]
    else [s[0]] + ReplaceFirst(s[1..], pat, rep)
  }

  /** An occurrence past the first index is an occurrence in the tail. */
  lemma OccursShift(s: string, pat: string, j: nat)
    requires j >= 1 && |s| >= 1
    ensures OccursAt(s, pat, j) <==> OccursAt(s[1..], pat, j - 1)
  {
    if j + |pat| <= |s| {
      assert s[1..][j - 1..j - 1 + |pat|] == s[j..j + |pat|];
    }
  }

  /** One step of the search: no occurrence at the front. */
  lemma ReplaceFirstStep(s: string, pat: string, rep: string)
    requires |pat| > 0 && |s| >= |pat| && !OccursAt(s, pat, 0)
    ensures ReplaceFirst(s, pat, rep) == [s[0]] + ReplaceFirst(s[1..], pat, rep)
  {
  }

  /** Where `pat` first occurs, it is replaced and the rest is left as is. */
  lemma {:induction false} ReplaceFirstAt(s: string, pat: string, rep: string, i: nat)
    requires |pat| > 0 && OccursAt(s, pat, i)
    requires forall j: nat :: j < i ==> !OccursAt(s, pat, j)
    ensures ReplaceFirst(s, pat, rep) == s[..i] + rep + s[i + |pat|..]
  {
    if i > 0 {
      NoEarlierInTail(s, pat, i);
      OccursShift(s, pat, i);
      ReplaceFirstAt(s[1..], pat, rep, i - 1);
      assert !OccursAt(s, pat, 0);
      ReplaceFirstStep(s, pat, rep);
      ConsSplice(s, i, |pat|, rep);
    } else {
      assert s[..|pat|] == pat;
    }
  }

  /** No occurrence before `i` in `s` means none before `i - 1` in its tail. */
  lemma NoEarlierInTail(s: string, pat: string, i: nat)
    requires 0 < i <= |s|
    requires forall j: nat :: j < i ==> !OccursAt(s, pat, j)
    ensures forall j: nat :: j < i - 1 ==> !OccursAt(s[1..], pat, j)
  {
    forall j: nat | j < i - 1 ensures !OccursAt(s[1..], pat, j) {
      OccursShift(s, pat, j + 1);
    }
  }

  /** Putting the first character back in front of a splice made in the tail. */
  lemma ConsSplice(s: string, i: nat, m: nat, rep: string)
    requires 0 < i && i + m <= |s|
    ensures [s[0]] + (s[1..][..i - 1] + rep + s[1..][i - 1 + m..]) == s[..i] + rep + s[i + m..]
  {
    assert [s[0]] + s[1..][..i - 1] == s[..i];
    assert s[1..][i - 1 + m..] == s[i + m..];
  }

  /** Without an occurrence, nothing is replaced. */
  lemma {:induction false} ReplaceFirstAbsent(s: string, pat: string, rep: string)
    requires |pat| > 0 && !Contains(s, pat)
    ensures ReplaceFirst(s, pat, rep) == s
  {
    if |s| >= |pat| {
      assert !OccursAt(s, pat, 0);
      forall j: nat | j <= |s[1..]| ensures !OccursAt(s[1..], pat, j) {
        OccursShift(s, pat, j + 1);
      }
      ReplaceFirstAbsent(s[1..], pat, rep);
      assert [s[0]] + s[1..] == s;
    }
  }

  /** The values the head tags are filled from. */
  datatype Head = Head(defaults: MetaDefaults, title: string, description: string, ogImage: Option<string>, noindex: bool)

  /** The `computed` memo, given the route entry `pickRouteMeta` chose. */
  function Computed(config: Option<MetaConfig>, rm: Option<RouteMeta>): (h: Head)
    ensures h.defaults == (if config.Some? then config.value.defaults else FallbackDefaults)
    ensures h.description == (if rm.Some? then rm.value.description else h.defaults.description)
    ensures h.ogImage == (if rm.Some? && rm.value.ogImage.Some? then rm.value.ogImage else h.defaults.ogImage)
    ensures h.noindex <==> rm.Some? && rm.value.noindex == Some(true)
  {
    var d := if config.Some? then config.value.defaults else FallbackDefaults;
    var template := if d.titleTemplate == "" then "%s" else d.titleTemplate;
    var pageTitle := if rm.Some? then rm.value.title else "Home";
    Head(
      d,
      ReplaceFirst(template, "%s", pageTitle),
      if rm.Some? then rm.value.description else d.description,
      if rm.Some? && rm.value.ogImage.Some? then rm.value.ogImage else d.ogImage,
      rm.Some? && rm.value.noindex == Some(true))
  }

  /** An empty template acts as `%s`: the title is the page title alone. */
  lemma EmptyTemplateTitle(config: MetaConfig, rm: Option<RouteMeta>)
    requires config.defaults.titleTemplate == ""
    ensures Computed(Some(config), rm).title == (if rm.Some? then rm.value.title else "Home")
  {
    var t := if rm.Some? then rm.value.title else "Home";
    assert OccursAt("%s", "%s", 0);
    ReplaceFirstAt("%s", "%s", t, 0);
    assert t + "" == t;
  }

  /** A template whose first `%s` is at `i`: the title is the template with
      that one occurrence replaced by the page title (or "Home"). */
  lemma TemplateTitle(config: MetaConfig, rm: Option<RouteMeta>, i: nat)
    requires OccursAt(config.defaults.titleTemplate, "%s", i)
    requires forall j: nat :: j < i ==> !OccursAt(config.defaults.titleTemplate, "%s", j)
    ensures var t := config.defaults.titleTemplate;
      Computed(Some(config), rm).title == t[..i] + (if rm.Some? then rm.value.title else "Home") + t[i + 2..]
  {
    ReplaceFirstAt(config.defaults.titleTemplate, "%s", if rm.Some? then rm.value.title else "Home", i);
  }

  /** A template without `%s` is the title as is. */
  lemma TemplateWithoutPlaceholder(config: MetaConfig, rm: Option<RouteMeta>)
    requires config.defaults.titleTemplate != "" && !Contains(config.defaults.titleTemplate, "%s")
    ensures Computed(Some(config), rm).title == config.defaults.titleTemplate
  {
    ReplaceFirstAbsent(config.defaults.titleTemplate, "%s", if rm.Some? then rm.value.title else "Home");
  }

  /** With no configuration loaded there is no route entry, and the page is
      titled "Home | Honey Brook Water Authority" from the built-in defaults. */
  lemma NoConfigUsesFallback()
    ensures Computed(None, None).title == "Home | " + SiteName
    ensures Computed(None, None).defaults == FallbackDefaults
    ensures Computed(None, None).ogImage == None && !Computed(None, None).noindex
  {
    var t := FallbackDefaults.titleTemplate;
    assert t[..2] == "%s";
    assert t[2..] == " | " + SiteName;
  }

  /** The `robots` meta content. */
  function Robots(noindex: bool): (s: string)
    ensures s == "noindex,nofollow" <==> noindex
    ensures s == "index,follow" <==> !noindex
  {
    if noindex then "noindex,nofollow" else "index,follow"
  }
}
