/** URL filters: what a filter accepts, said once without search, and the search that decides it. */
module FilterPattern {
  import opened Ascii

  // ---- Characters ----

  /** What `^` may stand for inside a URL. */
  predicate IsSeparator(c: char) { !(IsAlnum(c) || c == '_' || c == '-' || c == '.' || c == '%') }

  // ---- The language of a pattern ----

  /** What one pattern character may cover of the text: `*` any stretch, `^` one separator or nothing
      at the end of the text, any other character itself. */
  predicate Piece(c: char, s: string, a: nat, b: nat)
    requires a <= b <= |s|
  {
    if c == '*' then true
    else if c == '^' then (b == a + 1 && IsSeparator(s[a])) || a == b == |s|
    else b == a + 1 && s[a] == c
  }

  /** The pattern's characters cover consecutive stretches of the text from j on, up to its end when
      the pattern is anchored there. */
  ghost predicate Covers(p: string, s: string, j: nat, cuts: seq<nat>, anchored: bool) {
    && |cuts| == |p| + 1 && cuts[0] == j
    && (forall i :: 0 <= i < |cuts| ==> cuts[i] <= |s|)
    && (forall i :: 0 <= i < |p| ==> cuts[i] <= cuts[i + 1] && Piece(p[i], s, cuts[i], cuts[i + 1]))
    && (anchored ==> cuts[|p|] == |s|)
  }

  ghost predicate Accepts(p: string, s: string, j: nat, anchored: bool) {
    exists cuts :: Covers(p, s, j, cuts, anchored)
  }

  /** The same by recursion on the pattern. */
  predicate Reads(p: string, s: string, j: nat, anchored: bool)
    requires j <= |s|
    decreases |p|
  {
    if p == "" then anchored ==> j == |s|
    else if p[0] == '*' then exists k :: j <= k <= |s| && Reads(p[1..], s, k, anchored)
    else if p[0] == '^' && j == |s| then Reads(p[1..], s, j, anchored)
    else j < |s| && (if p[0] == '^' then IsSeparator(s[j]) else s[j] == p[0]) && Reads(p[1..], s, j + 1, anchored)
  }

  lemma {:induction false} ReadsThenAccepts(p: string, s: string, j: nat, anchored: bool)
    requires j <= |s| && Reads(p, s, j, anchored)
    ensures Accepts(p, s, j, anchored)
    decreases |p|
  {
    if p == "" {
      assert Covers(p, s, j, [j], anchored);
    } else {
      var k: nat :| j <= k <= |s| && Piece(p[0], s, j, k) && Reads(p[1..], s, k, anchored);
      ReadsThenAccepts(p[1..], s, k, anchored);
      var cuts :| Covers(p[1..], s, k, cuts, anchored);
      assert Covers(p, s, j, [j] + cuts, anchored);
    }
  }

  lemma {:induction false} AcceptsThenReads(p: string, s: string, j: nat, cuts: seq<nat>, anchored: bool)
    requires Covers(p, s, j, cuts, anchored)
    ensures j <= |s| && Reads(p, s, j, anchored)
    decreases |p|
  {
    assert cuts[0] == j;
    if p != "" {
      assert Covers(p[1..], s, cuts[1], cuts[1..], anchored);
      AcceptsThenReads(p[1..], s, cuts[1], cuts[1..], anchored);
    }
  }

  lemma ReadsIsAccepts(p: string, s: string, j: nat, anchored: bool)
    requires j <= |s|
    ensures Reads(p, s, j, anchored) <==> Accepts(p, s, j, anchored)
  {
    if Reads(p, s, j, anchored) {
      ReadsThenAccepts(p, s, j, anchored);
    }
    if Accepts(p, s, j, anchored) {
      var cuts :| Covers(p, s, j, cuts, anchored);
      AcceptsThenReads(p, s, j, cuts, anchored);
    }
  }

  lemma StarThenPlace(p: string, s: string, j: nat, anchored: bool)
    requires j <= |s| && p != "" && p[0] == '*' && Reads(p, s, j, anchored)
    ensures exists k :: j <= k <= |s| && Reads(p[1..], s, k, anchored)
  {
  }

  lemma PlaceThenStar(p: string, s: string, j: nat, anchored: bool)
    requires j <= |s| && p != "" && p[0] == '*' && exists k :: j <= k <= |s| && Reads(p[1..], s, k, anchored)
    ensures Reads(p, s, j, anchored)
  {
  }

  // ---- The search ----

  /** Backtracking search; it finds a reading whenever there is one. */
  method MatchHere(p: string, s: string, start: nat, anchored: bool) returns (ok: bool)
    requires start <= |s|
    ensures ok <==> Accepts(p, s, start, anchored)
    decreases |p|, 0
  {
    ReadsIsAccepts(p, s, start, anchored);
    var i, j := 0, start;
    while i < |p|
      invariant 0 <= i <= |p| && start <= j <= |s|
      invariant Reads(p[i..], s, j, anchored) == Reads(p, s, start, anchored)
    {
      assert p[i..][1..] == p[i + 1..];
      if p[i] == '*' {
        i := i + 1;
        if i == |p| {
          assert p[i..] == "" && Reads("", s, |s|, anchored);
          return true;
        }
        var rest := p[i - 1..];
        assert rest[1..] == p[i..];
        ok := MatchSomewhere(p[i..], s, j, anchored);
        if ok {
          PlaceThenStar(rest, s, j, anchored);
        } else if Reads(rest, s, j, anchored) {
          StarThenPlace(rest, s, j, anchored);
        }
        return;
      }
      if p[i] == '^' {
        if j == |s| { i := i + 1; continue; }
        if IsSeparator(s[j]) { i, j := i + 1, j + 1; continue; }
        return false;
      }
      if j == |s| || s[j] != p[i] { return false; }
      i, j := i + 1, j + 1;
    }
    return !anchored || j == |s|;
  }

  /** The loop after a star: the rest of the pattern is tried at every place. */
  method MatchSomewhere(p: string, s: string, start: nat, anchored: bool) returns (ok: bool)
    requires start <= |s|
    ensures ok <==> exists k :: start <= k <= |s| && Reads(p, s, k, anchored)
    decreases |p|, 1
  {
    var j := start;
    while true
      invariant start <= j <= |s|
      invariant forall k :: start <= k < j ==> !Reads(p, s, k, anchored)
      decreases |s| - j
    {
      var here := MatchHere(p, s, j, anchored);
      ReadsIsAccepts(p, s, j, anchored);
      if here { return true; }
      if j == |s| { return false; }
      j := j + 1;
    }
  }
}
