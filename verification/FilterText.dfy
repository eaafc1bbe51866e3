/** What filters written out say about a URL. */
module FilterText {
  import opened Ascii
  import opened FilterPattern
  import opened FilterUrl

  /** No character of the text has a meaning of its own in a filter. */
  predicate Literal(t: string) { forall i :: 0 <= i < |t| ==> t[i] != '*' && t[i] != '^' && t[i] != '|' }

  /** The text stands there. */
  predicate StandsAt(t: string, s: string, j: nat) { j + |t| <= |s| && s[j..j + |t|] == t }

  /** The characters `^` does not stand for. */
  predicate PartOfName(c: char) {
    'a' <= c <= 'z' || 'A' <= c <= 'Z' || '0' <= c <= '9' || c == '_' || c == '-' || c == '.' || c == '%'
  }

  // ---- Reading literal text ----

  lemma StandsFrom(t: string, s: string, j: nat)
    requires t != "" && j < |s|
    ensures StandsAt(t, s, j) <==> s[j] == t[0] && StandsAt(t[1..], s, j + 1)
  {
    if j + |t| <= |s| {
      var u := s[j..j + |t|];
      assert u == [s[j]] + s[j + 1..j + |t|];
      assert t == [t[0]] + t[1..];
      assert u == t <==> u[0] == t[0] && u[1..] == t[1..];
    }
  }

  lemma {:induction false} ReadsLiteral(t: string, more: string, s: string, j: nat, anchored: bool)
    requires Literal(t) && j <= |s|
    ensures Reads(t + more, s, j, anchored) <==> StandsAt(t, s, j) && Reads(more, s, j + |t|, anchored)
    decreases |t|
  {
    if t == "" {
      assert t + more == more;
    } else {
      assert (t + more)[0] == t[0] && (t + more)[1..] == t[1..] + more;
      if j < |s| {
        StandsFrom(t, s, j);
        ReadsLiteral(t[1..], more, s, j + 1, anchored);
      }
    }
  }

  lemma AcceptsLiteral(t: string, s: string, j: nat, anchored: bool)
    requires Literal(t) && j <= |s|
    ensures Accepts(t, s, j, anchored) <==> StandsAt(t, s, j) && (anchored ==> j + |t| == |s|)
  {
    ReadsIsAccepts(t, s, j, anchored);
    ReadsLiteral(t, "", s, j, anchored);
    assert t + "" == t;
  }

  // ---- Filters without anchors, with one, with both ----

  lemma ParsedPlain(t: string)
    requires t != "" && t[0] != '|' && t[|t| - 1] != '|'
    ensures Parse(t) == Filter(false, false, false, t)
    ensures Parse("|" + t) == Filter(false, true, false, t)
    ensures Parse(t + "|") == Filter(false, false, true, t)
    ensures Parse("|" + t + "|") == Filter(false, true, true, t)
    ensures Parse("||" + t) == Filter(true, false, false, t)
    ensures Parse("||" + t + "|") == Filter(true, false, true, t)
  {
    assert (t + "|")[..|t|] == t && ("|" + t)[1..] == t && ("|" + t + "|")[1..] == t + "|";
    assert ("||" + t)[2..] == t && ("||" + t + "|")[2..] == t + "|";
  }

  /** A plain text selects the URLs that contain it. */
  lemma TextFilter(t: string, url: string)
    requires t != "" && Literal(t)
    ensures FilterMatches(t, url, true) <==> exists j: nat :: StandsAt(t, url, j)
  {
    ParsedPlain(t);
    forall j: nat | j <= |url| ensures Accepts(t, url, j, false) <==> StandsAt(t, url, j) {
      AcceptsLiteral(t, url, j, false);
    }
  }

  /** With a bar before it those that begin with it, with a bar after it those that end with it. */
  lemma StartFilter(t: string, url: string)
    requires t != "" && Literal(t)
    ensures FilterMatches("|" + t, url, true) <==> |t| <= |url| && url[..|t|] == t
  {
    ParsedPlain(t);
    AcceptsLiteral(t, url, 0, false);
  }

  lemma EndFilter(t: string, url: string)
    requires t != "" && Literal(t)
    ensures FilterMatches(t + "|", url, true) <==> |t| <= |url| && url[|url| - |t|..] == t
  {
    ParsedPlain(t);
    forall j: nat | j <= |url| ensures Accepts(t, url, j, true) <==> StandsAt(t, url, j) && j + |t| == |url| {
      AcceptsLiteral(t, url, j, true);
    }
    if |t| <= |url| {
      assert url[|url| - |t|..|url| - |t| + |t|] == url[|url| - |t|..];
      assert Accepts(t, url, |url| - |t|, true) <==> url[|url| - |t|..] == t;
    }
  }

  /** With both only the URL that is it. */
  lemma WholeFilter(t: string, url: string)
    requires t != "" && Literal(t)
    ensures FilterMatches("|" + t + "|", url, true) <==> url == t
  {
    ParsedPlain(t);
    AcceptsLiteral(t, url, 0, true);
    assert |t| == |url| ==> url[0..|t|] == url;
  }

  /** A text stands somewhere after the other, which stands there. */
  predicate StandsAfter(a: string, b: string, s: string, j: nat) {
    StandsAt(a, s, j) && exists k: nat | k <= |s| :: j + |a| <= k && StandsAt(b, s, k)
  }

  lemma AcceptsGap(a: string, b: string, s: string, j: nat)
    requires Literal(a) && Literal(b) && j <= |s|
    ensures Accepts(a + "*" + b, s, j, false) <==> StandsAfter(a, b, s, j)
  {
    assert a + "*" + b == a + ("*" + b) && ("*" + b)[1..] == b;
    ReadsIsAccepts(a + "*" + b, s, j, false);
    ReadsLiteral(a, "*" + b, s, j, false);
    if StandsAt(a, s, j) {
      forall k: nat | j + |a| <= k <= |s| ensures Reads(b, s, k, false) <==> StandsAt(b, s, k) {
        AcceptsLiteral(b, s, k, false);
        ReadsIsAccepts(b, s, k, false);
      }
    }
  }

  /** A star between two texts selects the URLs in which the second stands somewhere after the first. */
  lemma GapFilter(a: string, b: string, url: string)
    requires a != "" && b != "" && Literal(a) && Literal(b)
    ensures FilterMatches(a + "*" + b, url, true) <==> exists j: nat :: StandsAfter(a, b, url, j)
  {
    var t := a + "*" + b;
    assert t[0] == a[0] && t[|t| - 1] == b[|b| - 1];
    ParsedPlain(t);
    forall j: nat | j <= |url| ensures Accepts(t, url, j, false) <==> StandsAfter(a, b, url, j) {
      AcceptsGap(a, b, url, j);
    }
  }

  /** The text stands there, and after it the URL ends or a character follows that is no part of a name. */
  predicate StandsAlone(a: string, s: string, j: nat) {
    StandsAt(a, s, j) && (j + |a| == |s| || !PartOfName(s[j + |a|]))
  }

  lemma AcceptsSeparator(a: string, s: string, j: nat)
    requires Literal(a) && j <= |s|
    ensures Accepts(a + "^", s, j, false) <==> StandsAlone(a, s, j)
  {
    ReadsIsAccepts(a + "^", s, j, false);
    ReadsLiteral(a, "^", s, j, false);
    assert "^"[1..] == "";
  }

  /** A caret after a text asks for that. */
  lemma SeparatorFilter(a: string, url: string)
    requires a != "" && Literal(a)
    ensures FilterMatches(a + "^", url, true) <==> exists j: nat :: StandsAlone(a, url, j)
  {
    var t := a + "^";
    assert t[0] == a[0] && t[|t| - 1] == '^';
    ParsedPlain(t);
    forall j: nat | j <= |url| ensures Accepts(t, url, j, false) <==> StandsAlone(a, url, j) {
      AcceptsSeparator(a, url, j);
    }
  }

  /** Without case the letters' case does not matter, in the filter or in the URL. */
  lemma CaseFree(f: string, f': string, url: string, url': string)
    requires Lower(f) == Lower(f') && Lower(url) == Lower(url')
    ensures FilterMatches(f, url, false) <==> FilterMatches(f', url', false)
  {
    assert |Lower(f)| == |f| && |Lower(f')| == |f'|;
  }

  // ---- The authority ----

  /** A scheme, its authority, and what follows. */
  predicate Written(url: string, scheme: string, authority: string, more: string) {
    && url == scheme + ("://" + (authority + more))
    && (forall i :: 0 <= i < |scheme| ==> scheme[i] != ':')
    && (forall i :: 0 <= i < |authority| ==> authority[i] != '/' && authority[i] != '?' && authority[i] != '#')
    && (more == "" || more[0] == '/' || more[0] == '?' || more[0] == '#')
  }

  /** The characters of such a URL. */
  lemma WrittenChars(url: string, scheme: string, authority: string, more: string)
    requires Written(url, scheme, authority, more)
    ensures |url| == |scheme| + 3 + |authority| + |more| && SchemeAt(url, |scheme|)
    ensures forall j :: 0 <= j < |scheme| ==> url[j] == scheme[j]
    ensures forall j :: 0 <= j < |authority| ==> url[|scheme| + 3 + j] == authority[j]
    ensures more != "" ==> url[|scheme| + 3 + |authority|] == more[0]
  {
  }

  lemma AuthorityIs(url: string, scheme: string, authority: string, more: string)
    requires Written(url, scheme, authority, more)
    ensures HostStart(url) == |scheme| + 3 && HostEnd(url) == |scheme| + 3 + |authority|
    ensures Authority(url) == authority
  {
    var n := |scheme| + 3;
    WrittenChars(url, scheme, authority, more);
    assert SchemeEnd(url, 0) == |scheme|;
    forall j | n <= j < n + |authority| ensures !EndsAuthority(url[j]) {
      assert url[j] == authority[j - n];
    }
    assert HostEndFrom(url, n) == n + |authority|;
  }

  /** A label of the authority begins there. */
  predicate LabelAt(authority: string, k: nat) { k <= |authority| && (k == 0 || authority[k - 1] == '.') }

  lemma LabelsAre(url: string, scheme: string, authority: string, more: string, pos: nat)
    requires Written(url, scheme, authority, more)
    ensures LabelStart(url, pos) <==> pos >= |scheme| + 3 && LabelAt(authority, pos - (|scheme| + 3))
  {
    AuthorityIs(url, scheme, authority, more);
    WrittenChars(url, scheme, authority, more);
    var k := pos - (|scheme| + 3);
    if 0 < k <= |authority| { assert url[|scheme| + 3 + (k - 1)] == authority[k - 1]; }
  }

  /** After two bars a text is looked for where a label of the authority begins. */
  lemma DomainFilter(t: string, url: string, scheme: string, authority: string, more: string)
    requires t != "" && Literal(t) && Written(url, scheme, authority, more)
    ensures FilterMatches("||" + t, url, true) <==>
      exists k: nat :: LabelAt(authority, k) && StandsAt(t, url, |scheme| + 3 + k)
  {
    ParsedDomain(t, url);
    if pos: nat :| LabelStart(url, pos) && Accepts(t, url, pos, false) {
      DomainPlace(t, url, scheme, authority, more, pos);
      var k: nat := pos - (|scheme| + 3);
      assert |scheme| + 3 + k == pos && LabelAt(authority, k);
    }
    if k: nat :| LabelAt(authority, k) && StandsAt(t, url, |scheme| + 3 + k) {
      DomainPlace(t, url, scheme, authority, more, |scheme| + 3 + k);
    }
  }

  lemma ParsedDomain(t: string, url: string)
    requires t != "" && Literal(t)
    ensures FilterMatches("||" + t, url, true) <==>
      exists pos: nat :: LabelStart(url, pos) && Accepts(t, url, pos, false)
  {
    ParsedPlain(t);
  }

  lemma DomainPlace(t: string, url: string, scheme: string, authority: string, more: string, pos: nat)
    requires Literal(t) && Written(url, scheme, authority, more)
    ensures LabelStart(url, pos) && Accepts(t, url, pos, false) <==>
      pos >= |scheme| + 3 && LabelAt(authority, pos - (|scheme| + 3)) && StandsAt(t, url, pos)
  {
    LabelsAre(url, scheme, authority, more, pos);
    if LabelStart(url, pos) { AcceptsLiteral(t, url, pos, false); }
  }

  /** The index looks up the name before the port, and every name that is left of it after a dot. */
  lemma IndexedName(blocked: set<string>, name: string, port: string)
    requires forall i :: 0 <= i < |name| ==> name[i] != ':'
    ensures Indexed(blocked, name + (":" + port)) <==> Indexed(blocked, name)
    ensures Indexed(blocked, name) <==> exists k: nat :: k < |name| && LabelAt(name, k) && name[k..] in blocked
  {
    assert ColonIn(name) == |name| && StripPort(name) == name;
    var host := name + (":" + port);
    assert host[|name|] == ':' && forall j :: 0 <= j < |name| ==> host[j] == name[j];
    assert ColonIn(host) == |name| && StripPort(host) == name;
    forall k: nat ensures k < |name| && LabelAt(name, k) <==> NameLabel(name, k) {}
  }
}
