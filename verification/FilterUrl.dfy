/** URL filters with their anchors, and the host index that stands for the simplest of them. */
module FilterUrl {
  import opened Ascii
  import opened FilterPattern

  // ---- The authority of a URL ----

  predicate SchemeAt(u: string, i: nat) {
    i + 3 <= |u| && u[i] == ':' && u[i + 1] == '/' && u[i + 2] == '/'
  }

  /** The first place at or after i where "://" stands, or the end of the text. */
  function SchemeEnd(u: string, i: nat): (k: nat)
    requires i <= |u|
    ensures i <= k <= |u| && (k < |u| ==> SchemeAt(u, k))
    ensures forall j :: i <= j < k ==> !SchemeAt(u, j)
    decreases |u| - i
  {
    if i == |u| || SchemeAt(u, i) then i else SchemeEnd(u, i + 1)
  }

  predicate EndsAuthority(c: char) { c == '/' || c == '?' || c == '#' }

  function HostStart(u: string): (k: nat)
    ensures k <= |u|
  {
    var k := SchemeEnd(u, 0);
    if k < |u| then k + 3 else 0
  }

  function HostEndFrom(u: string, i: nat): (k: nat)
    requires i <= |u|
    ensures i <= k <= |u| && (k < |u| ==> EndsAuthority(u[k]))
    ensures forall j :: i <= j < k ==> !EndsAuthority(u[j])
    decreases |u| - i
  {
    if i == |u| || EndsAuthority(u[i]) then i else HostEndFrom(u, i + 1)
  }

  function HostEnd(u: string): (k: nat)
    ensures HostStart(u) <= k <= |u|
  {
    HostEndFrom(u, HostStart(u))
  }

  function Authority(u: string): string { u[HostStart(u)..HostEnd(u)] }

  /** A place where a label of the authority begins. */
  predicate LabelStart(u: string, pos: nat) {
    HostStart(u) <= pos <= HostEnd(u) && (pos == HostStart(u) || u[pos - 1] == '.')
  }

  // ---- Filters ----

  /** What is left of a filter without its anchors. */
  datatype Filter = Filter(domain: bool, start: bool, end: bool, body: string)

  function Unanchored(p: string, domain: bool, start: bool): Filter {
    if p != "" && p[|p| - 1] == '|' then Filter(domain, start, true, p[..|p| - 1])
    else Filter(domain, start, false, p)
  }

  function Parse(f: string): Filter {
    if |f| >= 2 && f[0] == '|' && f[1] == '|' then Unanchored(f[2..], true, false)
    else if |f| >= 1 && f[0] == '|' then Unanchored(f[1..], false, true)
    else Unanchored(f, false, false)
  }

  /** A filter's body is read at the beginning of a label of the authority, at the beginning of the
      URL, or anywhere, by its anchors. */
  ghost predicate Selects(q: Filter, u: string) {
    if q.domain then exists pos: nat :: LabelStart(u, pos) && Accepts(q.body, u, pos, q.end)
    else if q.start then Accepts(q.body, u, 0, q.end)
    else exists pos: nat :: pos <= |u| && Accepts(q.body, u, pos, q.end)
  }

  function Folded(s: string, caseSensitive: bool): string {
    if caseSensitive then s else Lower(s)
  }

  ghost predicate FilterMatches(filter: string, url: string, caseSensitive: bool) {
    filter == "" || Selects(Parse(Folded(filter, caseSensitive)), Folded(url, caseSensitive))
  }

  method UrlFilterMatch(filter: string, url: string, caseSensitive: bool) returns (ok: bool)
    ensures ok <==> FilterMatches(filter, url, caseSensitive)
  {
    if filter == "" { return true; }
    var u, f := Folded(url, caseSensitive), Folded(filter, caseSensitive);
    var p := f;
    var domain, start, end := false, false, false;
    if |f| >= 2 && f[0] == '|' && f[1] == '|' {
      domain := true;
      p := f[2..];
    } else if |f| >= 1 && f[0] == '|' {
      start := true;
      p := f[1..];
    }
    var body := p;
    if |p| > 0 && p[|p| - 1] == '|' {
      end := true;
      body := p[..|p| - 1];
    }
    assert Parse(f) == Filter(domain, start, end, body);
    if domain {
      ok := MatchAtLabels(body, u, end);
    } else if start {
      ok := MatchHere(body, u, 0, end);
    } else {
      ok := MatchAnywhere(body, u, end);
    }
  }

  method MatchAtLabels(body: string, u: string, end: bool) returns (ok: bool)
    ensures ok <==> exists pos: nat :: LabelStart(u, pos) && Accepts(body, u, pos, end)
  {
    var k := SchemeEnd(u, 0);
    var hs := if k < |u| then k + 3 else 0;
    var he := hs;
    while he < |u| && !EndsAuthority(u[he])
      invariant hs <= he <= |u| && forall j :: hs <= j < he ==> !EndsAuthority(u[j])
    {
      he := he + 1;
    }
    assert hs == HostStart(u) && he == HostEnd(u);
    var pos := hs;
    while pos <= he
      invariant hs <= pos <= he + 1
      invariant forall j: nat :: hs <= j < pos && LabelStart(u, j) ==> !Accepts(body, u, j, end)
    {
      if pos == hs || u[pos - 1] == '.' {
        assert LabelStart(u, pos);
        var here := MatchHere(body, u, pos, end);
        if here { return true; }
      }
      pos := pos + 1;
    }
    return false;
  }

  method MatchAnywhere(body: string, u: string, end: bool) returns (ok: bool)
    ensures ok <==> exists pos: nat :: pos <= |u| && Accepts(body, u, pos, end)
  {
    var pos := 0;
    while true
      invariant 0 <= pos <= |u|
      invariant forall j: nat :: j < pos ==> !Accepts(body, u, j, end)
      decreases |u| - pos
    {
      var here := MatchHere(body, u, pos, end);
      if here { return true; }
      if pos == |u| { return false; }
      pos := pos + 1;
    }
  }

  // ---- The host index ----

  predicate HostChar(c: char) { IsAlnum(c) || c == '.' || c == '-' }

  /** A filter that only names a host. */
  predicate SimpleHost(pat: string) {
    |pat| > 3 && pat[0] == '|' && pat[1] == '|' && pat[|pat| - 1] == '^' &&
    forall i :: 2 <= i < |pat| - 1 ==> HostChar(pat[i])
  }

  method IsSimpleHost(pat: string) returns (simple: bool)
    ensures simple <==> SimpleHost(pat)
  {
    if |pat| < 2 || pat[0] != '|' || pat[1] != '|' || pat[|pat| - 1] != '^' { return false; }
    var i := 2;
    while i + 1 < |pat|
      invariant 2 <= i && forall j :: 2 <= j < i && j < |pat| - 1 ==> HostChar(pat[j])
    {
      if !HostChar(pat[i]) { return false; }
      i := i + 1;
    }
    return |pat| > 3;
  }

  function HostOfPattern(pat: string): string
    requires SimpleHost(pat)
  {
    Lower(pat[2..|pat| - 1])
  }

  function ColonIn(s: string): (k: nat)
    ensures k <= |s| && (k < |s| ==> s[k] == ':')
    ensures forall j :: 0 <= j < k ==> s[j] != ':'
  {
    if s == "" || s[0] == ':' then 0 else 1 + ColonIn(s[1..])
  }

  function StripPort(host: string): string { host[..ColonIn(host)] }

  /** Some suffix of the name that begins at a label is in the index. */
  ghost predicate Indexed(blocked: set<string>, host: string) {
    exists pos: nat :: NameLabel(StripPort(host), pos) && StripPort(host)[pos..] in blocked
  }

  predicate NameLabel(name: string, pos: nat) {
    pos < |name| && (pos == 0 || name[pos - 1] == '.')
  }

  method HostIndexed(blocked: set<string>, host: string) returns (found: bool)
    ensures found <==> Indexed(blocked, host)
  {
    if |blocked| == 0 { return false; }
    var name := StripPort(host);
    var pos := 0;
    while pos < |name|
      invariant 0 <= pos <= |name|
      invariant pos < |name| ==> NameLabel(name, pos)
      invariant forall j :: 0 <= j < pos && NameLabel(name, j) ==> name[j..] !in blocked
    {
      if name[pos..] in blocked { return true; }
      var dot := pos;
      while dot < |name| && name[dot] != '.'
        invariant pos <= dot <= |name| && forall j :: pos <= j < dot ==> name[j] != '.'
      {
        dot := dot + 1;
      }
      pos := if dot < |name| then dot + 1 else |name|;
    }
    return false;
  }

  // ---- The index says what the filters say ----

  /** An authority whose name has no separator in it, followed by nothing or by a port without dots:
      letters, digits, `-`, `_` and `.`, with an optional numeric port, for one. */
  predicate PlainAuthority(a: string) {
    (forall i :: 0 <= i < ColonIn(a) ==> !IsSeparator(a[i])) &&
    (forall i :: ColonIn(a) <= i < |a| ==> a[i] != '.')
  }

  lemma LettersArePlain(a: string, n: nat)
    requires n <= |a| && forall i :: 0 <= i < n ==> IsAlnum(a[i]) || a[i] == '-' || a[i] == '_' || a[i] == '.'
    requires n < |a| ==> a[n] == ':' && forall i :: n < i < |a| ==> '0' <= a[i] <= '9'
    ensures PlainAuthority(a)
  {
    assert ColonIn(a) == n;
  }

  predicate IsHost(h: string) { forall i :: 0 <= i < |h| ==> HostChar(h[i]) }

  /** The host stands there, and a separator or the end of the text after it. */
  predicate HostAt(h: string, s: string, j: nat) {
    j + |h| <= |s| && s[j..j + |h|] == h && (j + |h| == |s| || IsSeparator(s[j + |h|]))
  }

  /** That is what a host followed by `^` reads. */
  lemma {:induction false} ReadsHost(h: string, s: string, j: nat)
    requires j <= |s| && IsHost(h)
    ensures Reads(h + "^", s, j, false) <==> HostAt(h, s, j)
    decreases |h|
  {
    var p := h + "^";
    if h == "" {
      assert p[1..] == "";
    } else {
      assert p[1..] == h[1..] + "^" && p[0] == h[0] && HostChar(h[0]);
      if j < |s| {
        ReadsHost(h[1..], s, j + 1);
        HostAtFrom(h, s, j);
      }
    }
  }

  lemma HostAtFrom(h: string, s: string, j: nat)
    requires h != "" && j < |s|
    ensures HostAt(h, s, j) <==> s[j] == h[0] && HostAt(h[1..], s, j + 1)
  {
    if j + |h| <= |s| {
      var t := s[j..j + |h|];
      assert t == [s[j]] + s[j + 1..j + |h|];
      assert h == [h[0]] + h[1..];
      assert t == h <==> t[0] == h[0] && t[1..] == h[1..];
    }
  }

  lemma HostChars(h: string, u: string, pos: nat)
    requires IsHost(h) && HostAt(h, u, pos)
    ensures forall k :: pos <= k < pos + |h| ==> HostChar(u[k])
  {
    assert forall k :: pos <= k < pos + |h| ==> u[k] == u[pos..pos + |h|][k - pos];
  }

  /** The characters of a plain authority: its name has no separator, what follows the name is a colon
      or the end of the authority, and no label begins in its port. */
  lemma PlainChars(u: string, hs: nat, he: nat, colon: nat)
    requires PlainAuthority(Authority(u))
    requires hs == HostStart(u) && he == HostEnd(u) && colon == ColonIn(Authority(u))
    ensures hs + colon <= he <= |u|
    ensures forall k :: hs <= k < hs + colon ==> !IsSeparator(u[k])
    ensures hs + colon < |u| ==> !HostChar(u[hs + colon])
    ensures forall pos: nat :: LabelStart(u, pos) ==> pos <= hs + colon
  {
    var a := Authority(u);
    assert forall k :: hs <= k < he ==> u[k] == a[k - hs];
  }

  /** A host at a label of a plain authority ends where its name ends. */
  lemma HostWithinName(h: string, u: string, pos: nat, hs: nat, he: nat, colon: nat)
    requires h != "" && IsHost(h) && PlainAuthority(Authority(u)) && LabelStart(u, pos) && HostAt(h, u, pos)
    requires hs == HostStart(u) && he == HostEnd(u) && colon == ColonIn(Authority(u))
    ensures pos < hs + colon == pos + |h|
  {
    PlainChars(u, hs, he, colon);
    HostChars(h, u, pos);
    assert pos + |h| <= hs + colon;
  }

  /** Such a host is a suffix of the name that begins at a label. */
  lemma HostIsSuffix(h: string, u: string, pos: nat)
    requires h != "" && IsHost(h) && PlainAuthority(Authority(u)) && LabelStart(u, pos) && HostAt(h, u, pos)
    ensures var name := StripPort(Authority(u));
      NameLabel(name, pos - HostStart(u)) && name[pos - HostStart(u)..] == h
  {
    var hs, he, colon := HostStart(u), HostEnd(u), ColonIn(Authority(u));
    HostWithinName(h, u, pos, hs, he, colon);
    SliceOfSlice(u, hs, he, colon, pos - hs);
  }

  lemma SliceOfSlice(u: string, hs: nat, he: nat, colon: nat, at: nat)
    requires hs <= he <= |u| && at <= colon <= he - hs
    ensures u[hs..he][..colon][at..] == u[hs + at..hs + colon]
    ensures 0 < at < colon ==> u[hs..he][..colon][at - 1] == u[hs + at - 1]
  {
    assert u[hs..he][..colon] == u[hs..hs + colon];
  }

  lemma SuffixIsHost(h: string, u: string, at: nat)
    requires NameLabel(StripPort(Authority(u)), at) && StripPort(Authority(u))[at..] == h
    ensures LabelStart(u, HostStart(u) + at) && HostAt(h, u, HostStart(u) + at)
  {
    var hs, a := HostStart(u), Authority(u);
    var colon := ColonIn(a);
    SliceOfSlice(u, hs, HostEnd(u), colon, at);
    assert hs + colon < |u| ==> IsSeparator(u[hs + colon]);
  }

  lemma {:induction false} SchemeEndLower(u: string, i: nat)
    requires i <= |u|
    ensures SchemeEnd(Lower(u), i) == SchemeEnd(u, i)
    decreases |u| - i
  {
    if i < |u| { SchemeEndLower(u, i + 1); }
  }

  lemma {:induction false} HostEndLower(u: string, i: nat)
    requires i <= |u|
    ensures HostEndFrom(Lower(u), i) == HostEndFrom(u, i)
    decreases |u| - i
  {
    if i < |u| { HostEndLower(u, i + 1); }
  }

  lemma LowerSlice(s: string, a: nat, b: nat)
    requires a <= b <= |s|
    ensures Lower(s)[a..b] == Lower(s[a..b])
  {
  }

  /** The authority of the folded URL is the folded authority. */
  lemma AuthorityLower(url: string)
    ensures Authority(Lower(url)) == Lower(Authority(url))
  {
    SchemeEndLower(url, 0);
    HostEndLower(url, HostStart(url));
    LowerSlice(url, HostStart(url), HostEnd(url));
  }

  lemma PlainLower(a: string)
    requires PlainAuthority(a)
    ensures PlainAuthority(Lower(a))
  {
    var k := ColonIn(a);
    assert forall i :: 0 <= i < |a| ==> (Lower(a)[i] == ':' <==> a[i] == ':');
    assert ColonIn(Lower(a)) == k;
  }

  lemma ParseSimple(pat: string)
    requires SimpleHost(pat)
    ensures Parse(Lower(pat)) == Filter(true, false, false, HostOfPattern(pat) + "^")
    ensures HostOfPattern(pat) != "" && IsHost(HostOfPattern(pat))
  {
    var f := Lower(pat);
    LowerSlice(pat, 2, |pat| - 1);
    assert f[|f| - 1] == '^' && f[2..] == f[2..|f| - 1] + "^";
  }

  lemma IndexedThenFilter(h: string, u: string, at: nat)
    requires IsHost(h)
    requires NameLabel(StripPort(Authority(u)), at) && StripPort(Authority(u))[at..] == h
    ensures LabelStart(u, HostStart(u) + at) && Accepts(h + "^", u, HostStart(u) + at, false)
  {
    SuffixIsHost(h, u, at);
    ReadsHost(h, u, HostStart(u) + at);
    ReadsIsAccepts(h + "^", u, HostStart(u) + at, false);
  }

  /** A host found in the index is selected by its filter, whatever the URL. */
  lemma IndexThenFilter(pat: string, url: string)
    requires SimpleHost(pat) && Indexed({HostOfPattern(pat)}, Lower(Authority(url)))
    ensures FilterMatches(pat, url, false)
  {
    var h, u := HostOfPattern(pat), Lower(url);
    ParseSimple(pat);
    AuthorityLower(url);
    var at: nat :| NameLabel(StripPort(Authority(u)), at) && StripPort(Authority(u))[at..] == h;
    IndexedThenFilter(h, u, at);
  }

  // ---- When the index says as much as the filters ----

  /** The end of the run of host characters from i on. */
  function HostRunEnd(u: string, i: nat): (k: nat)
    requires i <= |u|
    ensures i <= k <= |u| && (k < |u| ==> !HostChar(u[k]))
    ensures forall j :: i <= j < k ==> HostChar(u[j])
    decreases |u| - i
  {
    if i < |u| && HostChar(u[i]) then HostRunEnd(u, i + 1) else i
  }

  /** The text at a label is a host by itself: host characters, then a separator or the end. */
  predicate RunAt(u: string, pos: nat) {
    LabelStart(u, pos) && pos < HostRunEnd(u, pos) &&
    (HostRunEnd(u, pos) < |u| ==> IsSeparator(u[HostRunEnd(u, pos)]))
  }

  predicate LabelSuffix(name: string, h: string) {
    exists at: nat | at < |name| :: NameLabel(name, at) && name[at..] == h
  }

  /** Every host that stands at a label of the authority is a label suffix of its name. */
  predicate RunsAreSuffixes(u: string) {
    forall pos: nat | pos <= |u| :: RunAt(u, pos) ==> LabelSuffix(StripPort(Authority(u)), u[pos..HostRunEnd(u, pos)])
  }

  lemma IndexedIsSuffix(h: string, host: string)
    ensures Indexed({h}, host) <==> LabelSuffix(StripPort(host), h)
  {
  }

  /** A host followed by a separator or the end is the whole run. */
  lemma HostIsRun(h: string, u: string, pos: nat)
    requires h != "" && IsHost(h) && LabelStart(u, pos)
    ensures HostAt(h, u, pos) <==> RunAt(u, pos) && h == u[pos..HostRunEnd(u, pos)]
  {
    if HostAt(h, u, pos) {
      HostChars(h, u, pos);
      assert HostRunEnd(u, pos) == pos + |h|;
    }
  }

  /** A filter naming a host selects the URLs at whose labels the host is a run. */
  lemma FilterIsRun(pat: string, url: string)
    requires SimpleHost(pat)
    ensures var h, u := HostOfPattern(pat), Lower(url);
      FilterMatches(pat, url, false) <==> exists pos: nat :: RunAt(u, pos) && h == u[pos..HostRunEnd(u, pos)]
  {
    var h, u := HostOfPattern(pat), Lower(url);
    ParseSimple(pat);
    forall pos: nat | LabelStart(u, pos)
      ensures Accepts(h + "^", u, pos, false) <==> RunAt(u, pos) && h == u[pos..HostRunEnd(u, pos)]
    {
      ReadsIsAccepts(h + "^", u, pos, false);
      ReadsHost(h, u, pos);
      HostIsRun(h, u, pos);
    }
  }

  /** A host in the index says of a URL what its filter says: the index looks the folded authority up,
      the filter is read in the folded URL. */
  lemma IndexIsFilter(pat: string, url: string)
    requires SimpleHost(pat) && RunsAreSuffixes(Lower(url))
    ensures Indexed({HostOfPattern(pat)}, Lower(Authority(url))) <==> FilterMatches(pat, url, false)
  {
    var h, u := HostOfPattern(pat), Lower(url);
    AuthorityLower(url);
    FilterIsRun(pat, url);
    IndexedIsSuffix(h, Authority(u));
    if Indexed({h}, Authority(u)) {
      IndexThenFilter(pat, url);
    }
  }

  /** The pattern that names a run. */
  lemma RunPattern(h: string)
    requires h != "" && IsHost(h) && Lower(h) == h
    ensures SimpleHost("||" + h + "^") && HostOfPattern("||" + h + "^") == h
  {
    var pat := "||" + h + "^";
    assert pat[2..|pat| - 1] == h;
  }

  /** A run at a label that is no label suffix of the name: its filter selects the URL, the index misses it. */
  lemma RunMissed(url: string, pos: nat) returns (pat: string)
    requires var u := Lower(url);
      RunAt(u, pos) && !LabelSuffix(StripPort(Authority(u)), u[pos..HostRunEnd(u, pos)])
    ensures SimpleHost(pat) && FilterMatches(pat, url, false)
    ensures !Indexed({HostOfPattern(pat)}, Lower(Authority(url)))
  {
    var u := Lower(url);
    var h := u[pos..HostRunEnd(u, pos)];
    pat := "||" + h + "^";
    RunPattern(h);
    AuthorityLower(url);
    FilterIsRun(pat, url);
    IndexedIsSuffix(h, Authority(u));
  }

  /** The index and the filters agree on a URL, whatever the hosts, exactly when every host that
      stands at a label of its authority is a label suffix of its name. */
  lemma IndexAgreesExactly(url: string)
    ensures (forall pat | SimpleHost(pat) ::
               Indexed({HostOfPattern(pat)}, Lower(Authority(url))) <==> FilterMatches(pat, url, false))
       <==> RunsAreSuffixes(Lower(url))
  {
    var u := Lower(url);
    if RunsAreSuffixes(u) {
      forall pat | SimpleHost(pat)
        ensures Indexed({HostOfPattern(pat)}, Lower(Authority(url))) <==> FilterMatches(pat, url, false)
      {
        IndexIsFilter(pat, url);
      }
    } else {
      var pos: nat :| pos <= |u| && RunAt(u, pos) && !LabelSuffix(StripPort(Authority(u)), u[pos..HostRunEnd(u, pos)]);
      var pat := RunMissed(url, pos);
    }
  }

  /** A plain authority meets the condition. */
  lemma PlainAgrees(url: string)
    requires PlainAuthority(Authority(url))
    ensures RunsAreSuffixes(Lower(url))
  {
    var u := Lower(url);
    AuthorityLower(url);
    PlainLower(Authority(url));
    forall pos: nat | pos <= |u| && RunAt(u, pos)
      ensures LabelSuffix(StripPort(Authority(u)), u[pos..HostRunEnd(u, pos)])
    {
      var h := u[pos..HostRunEnd(u, pos)];
      assert IsHost(h);
      HostIsRun(h, u, pos);
      HostIsSuffix(h, u, pos);
      assert NameLabel(StripPort(Authority(u)), pos - HostStart(u));
    }
  }

  /** Letters, digits, `-`, `_` and `.`, and an optional numeric port. */
  lemma LettersAgree(url: string, n: nat)
    requires var a := Authority(url);
      n <= |a| && (forall i :: 0 <= i < n ==> IsAlnum(a[i]) || a[i] == '-' || a[i] == '_' || a[i] == '.') &&
      (n < |a| ==> a[n] == ':' && forall i :: n < i < |a| ==> '0' <= a[i] <= '9')
    ensures RunsAreSuffixes(Lower(url))
  {
    LettersArePlain(Authority(url), n);
    PlainAgrees(url);
  }

  /** A name before a colon hides the host from the index. */
  lemma UserInfoHidesHost()
    ensures FilterMatches("||b^", "http://u:p@a.b/", false)
    ensures !Indexed({HostOfPattern("||b^")}, Lower(Authority("http://u:p@a.b/")))
  {
    var u := "http://u:p@a.b/";
    UserInfoUrl(u);
    assert HostOfPattern("||b^") == "b";
    assert RunAt(u, 13) && HostRunEnd(u, 13) == 14;
    FilterIsRun("||b^", u);
  }

  lemma UserInfoUrl(u: string)
    requires u == "http://u:p@a.b/"
    ensures Lower(u) == u && HostStart(u) == 7 && HostEnd(u) == 14
    ensures StripPort(Lower(Authority(u))) == "u"
  {
    assert SchemeEnd(u, 0) == 4 by {
      assert SchemeAt(u, 4) && !SchemeAt(u, 0) && !SchemeAt(u, 1) && !SchemeAt(u, 2) && !SchemeAt(u, 3);
    }
    assert HostEndFrom(u, 7) == 14 by { assert EndsAuthority(u[14]); }
    assert Authority(u) == "u:p@a.b";
    assert Lower(Authority(u)) == "u:p@a.b";
    assert ColonIn("u:p@a.b") == 1;
  }
}
