/** Route patterns: how a path pattern is taken from a configured route, what it matches, and which of two is more
    specific. */
module RouteMatch {
  import opened Basics

  predicate StartsWith(s: string, prefix: string) {
    |prefix| <= |s| && s[..|prefix|] == prefix
  }

  predicate EndsWith(s: string, suffix: string) {
    |suffix| <= |s| && s[|s| - |suffix|..] == suffix
  }

  /** What precedes the first `c`, the whole text when there is none. */
  function Until(s: string, c: char): (r: string)
    ensures c !in r && StartsWith(s, r)
    ensures if c in s then |r| < |s| && s[|r|] == c else r == s
  {
    if s == "" || s[0] == c then "" else [s[0]] + Until(s[1..], c)
  }

  function WithoutScheme(p: string): string {
    if StartsWith(p, "http://") then p[7..]
    else if StartsWith(p, "https://") then p[8..]
    else p
  }

  function PathOf(p: string): string {
    if StartsWith(p, "/") then p
    else if '/' in p then p[|Until(p, '/')|..]
    else "/*"
  }

  function ExtractPathPattern(route: string): string {
    Until(Until(PathOf(WithoutScheme(route)), '?'), '#')
  }

  predicate MatchRoute(pathname: string, pattern: string) {
    if pattern == "/*" || pattern == "*" then true
    else if EndsWith(pattern, "/*") then StartsWith(pathname, pattern[..|pattern| - 2] + "/")
    else if EndsWith(pattern, "*") then StartsWith(pathname, pattern[..|pattern| - 1])
    else pathname == pattern
  }

  predicate MatchHost(hostname: string, pattern: string) {
    if pattern == hostname then true
    else if StartsWith(pattern, "*.") then
      EndsWith(hostname, pattern[1..]) && |hostname| > |pattern[1..]|
    else false
  }

  predicate HasWildcardHost(patterns: Option<seq<string>>) {
    patterns.Some? && exists i :: 0 <= i < |patterns.value| && '*' in patterns.value[i]
  }

  function Split(s: string, sep: char): (r: seq<string>)
    ensures |r| > 0
  {
    if s == "" then [""]
    else
      var before := Split(s[..|s| - 1], sep);
      var c := s[|s| - 1];
      if c == sep then before + [""] else before[..|before| - 1] + [before[|before| - 1] + [c]]
  }

  function NonEmpty(parts: seq<string>): nat {
    if parts == [] then 0
    else NonEmpty(parts[..|parts| - 1]) + if parts[|parts| - 1] != "" then 1 else 0
  }

  function SegmentCount(pattern: string): nat {
    var clean :=
      if EndsWith(pattern, "/*") then pattern[..|pattern| - 2]
      else if EndsWith(pattern, "*") then pattern[..|pattern| - 1]
      else pattern;
    if clean == "" || clean == "/" then 0 else NonEmpty(Split(clean, '/'))
  }

  datatype Entry<M> = Entry(pattern: string, worker: string, manager: M, hosts: Option<seq<string>>)

  /** The comparison the table is sorted by: negative when `a` comes first. */
  function Compare<M>(a: Entry<M>, b: Entry<M>): int {
    var aWild := '*' in a.pattern;
    var bWild := '*' in b.pattern;
    if aWild != bWild then (if aWild then 1 else -1)
    else if SegmentCount(b.pattern) != SegmentCount(a.pattern) then SegmentCount(b.pattern) - SegmentCount(a.pattern)
    else if EndsWith(a.pattern, "/*") != EndsWith(b.pattern, "/*") then (if EndsWith(a.pattern, "/*") then -1 else 1)
    else if HasWildcardHost(a.hosts) != HasWildcardHost(b.hosts) then (if HasWildcardHost(a.hosts) then 1 else -1)
    else |b.pattern| - |a.pattern|
  }

  /** The comparison never contradicts itself, so "neither before the other" is an equivalence. */
  lemma StrictWeakOrder<M>(a: Entry<M>, b: Entry<M>, c: Entry<M>)
    ensures Compare(a, b) < 0 <==> Compare(b, a) > 0
    ensures Compare(a, b) < 0 && Compare(b, c) <= 0 ==> Compare(a, c) < 0
    ensures Compare(a, b) <= 0 && Compare(b, c) < 0 ==> Compare(a, c) < 0
    ensures Compare(a, b) == 0 && Compare(b, c) == 0 ==> Compare(a, c) == 0
  {
    OrderByRank(a, b);
    OrderByRank(b, c);
    OrderByRank(a, c);
    OrderByRank(b, a);
  }

  function Flag(b: bool): int {
    if b then 1 else 0
  }

  /** What the comparison looks at. */
  datatype Criteria = Criteria(wild: bool, segments: int, slash: bool, host: bool, size: int)

  function CriteriaOf<M>(e: Entry<M>): Criteria {
    var p := e.pattern;
    Criteria('*' in p, SegmentCount(p), EndsWith(p, "/*"), HasWildcardHost(e.hosts), |p|)
  }

  /** Most specific first: exact before wild, more segments, slash before star, exact host, longer. */
  function RankOf(c: Criteria): (int, int, int, int, int) {
    (Flag(c.wild), -c.segments, -Flag(c.slash), Flag(c.host), -c.size)
  }

  function Rank<M>(e: Entry<M>): (int, int, int, int, int) {
    RankOf(CriteriaOf(e))
  }

  predicate Below(a: (int, int, int, int, int), b: (int, int, int, int, int)) {
    a.0 < b.0
    || (a.0 == b.0
        && (a.1 < b.1 || (a.1 == b.1 && (a.2 < b.2 || (a.2 == b.2 && (a.3 < b.3 || (a.3 == b.3 && a.4 < b.4)))))))
  }

  function Decide(a: Criteria, b: Criteria): int {
    if a.wild != b.wild then (if a.wild then 1 else -1)
    else if b.segments != a.segments then b.segments - a.segments
    else if a.slash != b.slash then (if a.slash then -1 else 1)
    else if a.host != b.host then (if a.host then 1 else -1)
    else b.size - a.size
  }

  lemma CompareIs<M>(a: Entry<M>, b: Entry<M>)
    ensures Compare(a, b) == Decide(CriteriaOf(a), CriteriaOf(b))
  {
  }

  lemma DecideByRank(a: Criteria, b: Criteria)
    ensures Decide(a, b) < 0 <==> Below(RankOf(a), RankOf(b))
    ensures Decide(a, b) == 0 <==> RankOf(a) == RankOf(b)
  {
  }

  lemma OrderByRank<M>(a: Entry<M>, b: Entry<M>)
    ensures Compare(a, b) < 0 <==> Below(Rank(a), Rank(b))
    ensures Compare(a, b) == 0 <==> Rank(a) == Rank(b)
  {
    CompareIs(a, b);
    DecideByRank(CriteriaOf(a), CriteriaOf(b));
  }

  // ---- Extraction ----

  lemma CommonChar(s: string, prefix: string, k: nat)
    requires k < |prefix|
    ensures StartsWith(s, prefix) ==> s[k] == prefix[k]
  {
    if StartsWith(s, prefix) {
      assert s[..|prefix|][k] == s[k];
    }
  }

  lemma PathHasNoScheme(p: string)
    requires p != "" && p[0] == '/'
    ensures WithoutScheme(p) == p
  {
    CommonChar(p, "http://", 0);
    CommonChar(p, "https://", 0);
  }

  /** Whatever the configured text, the pattern is a path without query or fragment, and extracting it again changes
      nothing. */
  lemma ExtractedIsPath(route: string)
    ensures var p := ExtractPathPattern(route);
            StartsWith(p, "/") && '?' !in p && '#' !in p && ExtractPathPattern(p) == p
  {
    var path := PathOf(WithoutScheme(route));
    assert path[0] == '/';
    var p := ExtractPathPattern(route);
    assert p[0] == '/';
    PathHasNoScheme(p);
  }

  /** Scheme and host do not matter, unless the "host" is itself what a scheme looks like. */
  lemma ExtractIgnoresHost(host: string, path: string)
    requires '/' !in host && StartsWith(path, "/")
    ensures ExtractPathPattern("https://" + (host + path)) == ExtractPathPattern(path)
    ensures ExtractPathPattern("http://" + (host + path)) == ExtractPathPattern(path)
    ensures host != "http:" && host != "https:" ==> ExtractPathPattern(host + path) == ExtractPathPattern(path)
  {
    PathHasNoScheme(path);
    HostIsDropped(host, path);
    SchemeIsDropped(host + path);
    if host != "http:" && host != "https:" {
      NoScheme(host, path);
    }
  }

  lemma SchemeIsDropped(rest: string)
    ensures WithoutScheme("http://" + rest) == rest && WithoutScheme("https://" + rest) == rest
  {
    assert ("http://" + rest)[7..] == rest;
    var p := "https://" + rest;
    assert p[8..] == rest;
    assert p[4] == 's';
    CommonChar(p, "http://", 4);
  }

  lemma HostIsDropped(host: string, path: string)
    requires '/' !in host && StartsWith(path, "/")
    ensures PathOf(host + path) == path
  {
    assert path[0] == '/' && (host + path)[|host|] == '/' && (host + path)[|host|..] == path;
    UntilAfter(host, path, '/');
    if host == "" {
      assert host + path == path;
    } else {
      assert (host + path)[0] == host[0] && (host + path)[..1][0] == host[0];
    }
  }

  lemma NoScheme(host: string, path: string)
    requires '/' !in host && StartsWith(path, "/") && host != "http:" && host != "https:"
    ensures WithoutScheme(host + path) == host + path
  {
    var p := host + path;
    assert path[0] == '/';
    UntilAfter(host, path, '/');
    BeginsWithScheme(p, "http:");
    BeginsWithScheme(p, "https:");
    assert "http:" + "//" == "http://" && "https:" + "//" == "https://";
  }

  lemma BeginsWithScheme(p: string, scheme: string)
    requires '/' !in scheme
    ensures StartsWith(p, scheme + "//") ==> Until(p, '/') == scheme
  {
    if StartsWith(p, scheme + "//") {
      var n := |scheme|;
      CommonChar(p, scheme + "//", n);
      assert p[..n] == p[..n + 2][..n] == (scheme + "//")[..n] == scheme;
      assert p == scheme + p[n..];
      UntilAfter(scheme, p[n..], '/');
    }
  }

  lemma {:induction false} UntilAfter(s: string, t: string, c: char)
    requires c !in s && t != "" && t[0] == c
    ensures Until(s + t, c) == s
  {
    if s == "" {
      assert s + t == t;
    } else {
      assert (s + t)[0] == s[0] && (s + t)[1..] == s[1..] + t;
      UntilAfter(s[1..], t, c);
    }
  }

  lemma {:induction false} UntilNone(s: string, c: char)
    requires c !in s
    ensures Until(s, c) == s
  {
    if s != "" {
      UntilNone(s[1..], c);
    }
  }

  lemma UntilQuery(path: string, tail: string)
    requires '?' !in path && '#' !in path && (tail == "" || tail[0] == '?' || tail[0] == '#')
    ensures Until(Until(path + tail, '?'), '#') == path
  {
    if tail == "" || tail[0] == '?' {
      assert path + "" == path;
      if tail == "" {
        UntilNone(path, '?');
      } else {
        UntilAfter(path, tail, '?');
      }
      UntilNone(path, '#');
    } else {
      UntilSkips(path, tail, '?');
      UntilAfter(path, Until(tail, '?'), '#');
    }
  }

  lemma {:induction false} UntilSkips(s: string, t: string, c: char)
    requires c !in s
    ensures Until(s + t, c) == s + Until(t, c)
  {
    if s == "" {
      assert s + t == t;
    } else {
      assert (s + t)[0] == s[0] && (s + t)[1..] == s[1..] + t;
      UntilSkips(s[1..], t, c);
    }
  }

  /** The pattern of a path is the path, up to its query or fragment. */
  lemma PathIsKept(path: string, tail: string)
    requires StartsWith(path, "/") && '?' !in path && '#' !in path && (tail == "" || tail[0] == '?' || tail[0] == '#')
    ensures ExtractPathPattern(path + tail) == path
  {
    assert path[0] == '/' && (path + tail)[0] == '/' && (path + tail)[..1] == "/";
    PathHasNoScheme(path + tail);
    UntilQuery(path, tail);
  }

  /** A host on its own stands for every path. */
  lemma HostAlone(host: string)
    requires '/' !in host
    ensures ExtractPathPattern(host) == "/*"
    ensures ExtractPathPattern("https://" + host) == "/*" && ExtractPathPattern("http://" + host) == "/*"
  {
    SchemeIsDropped(host);
    if StartsWith(host, "http://") {
      CommonChar(host, "http://", 6);
    }
    if StartsWith(host, "https://") {
      CommonChar(host, "https://", 7);
    }
    if StartsWith(host, "/") {
      CommonChar(host, "/", 0);
    }
    UntilQuery("/*", "");
    assert "/*" + "" == "/*";
  }

  // ---- Hosts ----

  /** A host pattern is a host, or `*.` and a domain of which it means every subdomain but not the domain. */
  ghost predicate HostAllows(hostname: string, pattern: string) {
    || pattern == hostname
    || exists sub, domain :: sub != "" && pattern == "*." + domain && hostname == sub + ("." + domain)
  }

  lemma HostMatches(hostname: string, pattern: string)
    ensures MatchHost(hostname, pattern) <==> HostAllows(hostname, pattern)
  {
    if MatchHost(hostname, pattern) && pattern != hostname {
      var domain, sub := pattern[2..], hostname[..|hostname| - |pattern| + 1];
      assert pattern == pattern[..2] + domain && pattern[1] == "*."[1] && pattern[1..] == "." + domain;
      assert hostname == sub + pattern[1..];
    }
    if sub, domain :| sub != "" && pattern == "*." + domain && hostname == sub + ("." + domain) {
      assert pattern[..2] == "*." && pattern[1..] == "." + domain;
      assert hostname[|hostname| - |pattern[1..]|..] == "." + domain;
    }
  }

  /** Of two routes with one pattern, that of exact hosts comes before that of a wildcard host. */
  lemma ExactHostFirst<M>(a: Entry<M>, b: Entry<M>)
    requires a.pattern == b.pattern && b.hosts.Some? && exists i :: 0 <= i < |b.hosts.value| && '*' in b.hosts.value[i]
    requires a.hosts.Some? ==> forall i :: 0 <= i < |a.hosts.value| ==> '*' !in a.hosts.value[i]
    ensures Compare(a, b) < 0
  {
    CompareIs(a, b);
  }

  // ---- Matching ----

  /** A path pattern whose only `*`, if any, is its last character. */
  predicate Simple(p: string) {
    StartsWith(p, "/") && '*' !in p[..|p| - 1]
  }

  predicate Wild(p: string) {
    EndsWith(p, "*")
  }

  function Stem(p: string): string
    requires Wild(p)
  {
    p[..|p| - 1]
  }

  lemma LastOf(front: string, last: char)
    ensures var p := front + [last];
            p[..|p| - 1] == front && p[|p| - 1..] == [last] && (EndsWith(p, "*") <==> last == '*')
  {
    assert (front + [last])[|front|..] == [last];
  }

  lemma StarIsLast(front: string, last: char)
    ensures '*' in front + [last] <==> '*' in front || last == '*'
  {
  }

  lemma KeepsSlash(front: string, last: char)
    requires StartsWith(front + [last], "/") && last == '*'
    ensures StartsWith(front, "/")
  {
    CommonChar(front + [last], "/", 0);
    if front != "" {
      assert front[..1] == [front[0]] && (front + [last])[0] == front[0];
    }
  }

  lemma WildOf(front: string, last: char)
    requires StartsWith(front + [last], "/") && '*' !in front
    ensures var p := front + [last];
            ('*' in p <==> Wild(p)) && (Wild(p) ==> last == '*' && Stem(p) == front && StartsWith(Stem(p), "/"))
  {
    LastOf(front, last);
    StarIsLast(front, last);
    if last == '*' {
      KeepsSlash(front, last);
    }
  }

  lemma WildIsStar(p: string)
    requires Simple(p)
    ensures '*' in p <==> Wild(p)
    ensures Wild(p) ==> p == Stem(p) + "*" && StartsWith(Stem(p), "/")
  {
    Halves(p);
    WildOf(p[..|p| - 1], p[|p| - 1]);
  }

  lemma Halves(p: string)
    requires p != ""
    ensures p == p[..|p| - 1] + [p[|p| - 1]]
  {
  }

  lemma SlashStar(p: string)
    requires Wild(p)
    ensures EndsWith(p, "/*") <==> EndsWith(Stem(p), "/")
    ensures EndsWith(p, "/*") ==> Stem(p) == p[..|p| - 2] + "/"
  {
    var n := |p|;
    assert p[n - 1..][0] == '*';
    if n > 1 {
      assert p[n - 2..] == [p[n - 2]] + p[n - 1..];
      assert p[..n - 1][n - 2..] == [p[n - 2]];
      assert p[..n - 1] == p[..n - 2] + [p[n - 2]];
    }
  }

  lemma SlashStarIsWild(p: string)
    ensures EndsWith(p, "/*") ==> Wild(p)
  {
    if EndsWith(p, "/*") {
      assert p[|p| - 1..] == p[|p| - 2..][1..];
    }
  }

  /** Matching in one sentence: a pattern is its text, or with a trailing star every path its stem begins. */
  lemma MatchIsPrefix(path: string, p: string)
    requires Simple(p) && StartsWith(path, "/")
    ensures MatchRoute(path, p) <==> if Wild(p) then StartsWith(path, Stem(p)) else path == p
  {
    WildIsStar(p);
    if p == "/*" {
      assert Stem(p) == "/";
    } else if Wild(p) {
      SlashStar(p);
      assert p[0] == '/';
      assert "*"[0] == '*';
    } else {
      SlashStarIsWild(p);
    }
  }

  // ---- Segments ----

  function Segments(s: string): nat {
    NonEmpty(Split(s, '/'))
  }

  lemma {:induction false} LastPart(s: string)
    ensures var parts := Split(s, '/'); parts[|parts| - 1] == "" <==> s == "" || EndsWith(s, "/")
  {
    if s != "" {
      assert s[|s| - 1..] == [s[|s| - 1]];
    }
  }

  lemma SplitStep(s: string, c: char)
    ensures var before := Split(s, '/');
            Split(s + [c], '/') ==
            if c == '/' then before + [""] else before[..|before| - 1] + [before[|before| - 1] + [c]]
  {
    assert (s + [c])[..|s + [c]| - 1] == s;
  }

  lemma NonEmptyPush(parts: seq<string>, last: string)
    ensures NonEmpty(parts + [last]) == NonEmpty(parts) + if last != "" then 1 else 0
  {
    assert (parts + [last])[..|parts + [last]| - 1] == parts;
  }

  lemma SegmentsStep(s: string, c: char)
    ensures Segments(s + [c]) == Segments(s) + if c != '/' && (s == "" || EndsWith(s, "/")) then 1 else 0
  {
    var before := Split(s, '/');
    var front, last := before[..|before| - 1], before[|before| - 1];
    SplitStep(s, c);
    LastPart(s);
    if c == '/' {
      NonEmptyPush(before, "");
    } else {
      NonEmptyPush(front, last + [c]);
    }
  }

  /** More text never means fewer segments, and something after a closing slash means more. */
  lemma {:induction false} SegmentsGrow(s: string, t: string)
    ensures Segments(s) <= Segments(s + t)
    ensures EndsWith(s, "/") && t != "" && !EndsWith(t, "/") ==> Segments(s) < Segments(s + t)
  {
    if t == "" {
      assert s + t == s;
    } else {
      var u, c := t[..|t| - 1], t[|t| - 1];
      assert s + t == (s + u) + [c];
      assert t[|t| - 1..] == [c];
      SegmentsGrow(s, u);
      SegmentsStep(s + u, c);
      if EndsWith(s, "/") && c != '/' {
        if u == "" {
          assert s + u == s;
        } else if EndsWith(u, "/") {
          assert (s + u)[|s + u| - 1..] == u[|u| - 1..];
        }
      }
    }
  }

  lemma SegmentsOfWild(p: string)
    requires Wild(p)
    ensures SegmentCount(p) == Segments(Stem(p))
  {
    SlashStar(p);
    assert Split("", '/') == [""];
    assert NonEmpty([""]) == NonEmpty([]) + 0;
    SegmentsStep("", '/');
    assert "" + ['/'] == "/";
    if EndsWith(p, "/*") {
      SegmentsStep(p[..|p| - 2], '/');
    }
  }

  /** Of two wild patterns, the one with the longer stem of the same path comes first. */
  lemma LongerFirst<M>(a: Entry<M>, b: Entry<M>)
    requires Simple(a.pattern) && Simple(b.pattern) && Wild(a.pattern) && Wild(b.pattern)
    requires a.hosts.None? && b.hosts.None?
    requires StartsWith(Stem(b.pattern), Stem(a.pattern)) && |a.pattern| < |b.pattern|
    ensures Compare(b, a) < 0
  {
    var s, t := Stem(a.pattern), Stem(b.pattern)[|a.pattern| - 1..];
    assert Stem(b.pattern) == s + t && t != "";
    assert EndsWith(t, "/") <==> EndsWith(s + t, "/") by {
      assert t[|t| - 1..] == (s + t)[|s + t| - 1..];
    }
    SegmentsGrow(s, t);
    SegmentsOfWild(a.pattern);
    SegmentsOfWild(b.pattern);
    SlashStar(a.pattern);
    SlashStar(b.pattern);
    WildIsStar(a.pattern);
    WildIsStar(b.pattern);
    CompareIs(b, a);
    LongerDecides(CriteriaOf(a), CriteriaOf(b));
  }

  lemma LongerDecides(a: Criteria, b: Criteria)
    requires a.wild && b.wild && !a.host && !b.host && a.size < b.size && a.segments <= b.segments
    requires a.slash && !b.slash ==> a.segments < b.segments
    ensures Decide(b, a) < 0
  {
  }

  /** `a` is matched by strictly fewer paths than `b`. */
  ghost predicate Narrower(a: string, b: string) {
    (forall path | StartsWith(path, "/") :: MatchRoute(path, a) ==> MatchRoute(path, b))
    && exists path :: StartsWith(path, "/") && MatchRoute(path, b) && !MatchRoute(path, a)
  }

  lemma NarrowerStem(p: string, q: string)
    requires Simple(p) && Simple(q) && Narrower(p, q)
    ensures Wild(q) && (Wild(p) ==> StartsWith(Stem(p), Stem(q)) && |q| < |p|)
  {
    WildIsStar(p);
    WildIsStar(q);
    var path :| StartsWith(path, "/") && MatchRoute(path, q) && !MatchRoute(path, p);
    MatchIsPrefix(path, p);
    MatchIsPrefix(path, q);
    if !Wild(p) {
      MatchIsPrefix(p, p);
      MatchIsPrefix(p, q);
    } else {
      InStem(p, q, Stem(p));
      InStem(p, q, Stem(p) + "x");
      assert |Stem(p)| != |Stem(p) + "x"|;
      assert |q| == |p| ==> q == p;
    }
  }

  lemma InStem(p: string, q: string, path: string)
    requires Simple(p) && Simple(q) && Narrower(p, q) && Wild(p) && StartsWith(path, Stem(p))
    ensures if Wild(q) then StartsWith(path, Stem(q)) else path == q
  {
    WildIsStar(p);
    assert path[0] == Stem(p)[0];
    MatchIsPrefix(path, p);
    MatchIsPrefix(path, q);
  }

  /** The order extends strict inclusion of what is matched. */
  lemma NarrowerFirst<M>(a: Entry<M>, b: Entry<M>)
    requires Simple(a.pattern) && Simple(b.pattern) && a.hosts.None? && b.hosts.None?
    requires Narrower(a.pattern, b.pattern)
    ensures Compare(a, b) < 0
  {
    NarrowerStem(a.pattern, b.pattern);
    WildIsStar(a.pattern);
    WildIsStar(b.pattern);
    if Wild(a.pattern) {
      LongerFirst(b, a);
    }
  }
}
