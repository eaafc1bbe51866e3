/** What CSS tokens are, said as languages of stretches of text: each end that the tokenizer finds is
    the end of the longest such stretch. */
module CssLanguage {
  import opened Ascii
  import opened Wrappers
  import opened CssTokens

  // ---- escapes ----

  ghost predicate All(s: string, i: nat, j: nat, p: char -> bool) {
    i <= j <= |s| && forall k :: i <= k < j ==> p(s[k])
  }

  /** From `i` to `j` stands an escape: a backslash and one character; or one to six hexadecimal digits
      and a white space perhaps; or a backslash that ends the input. */
  ghost predicate Escape(s: string, i: nat, j: nat) {
    && i < j <= |s| && s[i] == '\\'
    && (j == i + 1 ==> j == |s|)
    && (j == i + 2 ==> !IsNewline(s[i + 1]))
    && (j > i + 2 ==> (IsHex(s[i + 1]) && j <= i + 8 &&
                       All(s, i + 1, j - 1, IsHex) && (IsWs(s[j - 1]) || (IsHex(s[j - 1]) && j <= i + 7))))
  }

  /** The end of an escape is the end of the longest one. */
  lemma EscapeIsLongest(s: string, i: nat)
    requires i < |s| && s[i] == '\\'
    ensures EscapeEnd(s, i) != i ==> Escape(s, i, EscapeEnd(s, i))
    ensures forall j: nat :: Escape(s, i, j) ==> j <= EscapeEnd(s, i)
  {
    if i + 1 < |s| && IsHex(s[i + 1]) {
      var h := RunEnd(s, i + 1, IsHex, 6);
      assert h > i + 1;
      forall j: nat | Escape(s, i, j) ensures j <= EscapeEnd(s, i) {
        if j > h + 1 {
          assert IsHex(s[h]);
        } else if j == h + 1 {
          assert h < |s|;
        }
      }
    }
  }

  // ---- names ----

  /** From `i` to `j` stands one character of a name, or an escape. */
  ghost predicate Unit(s: string, i: nat, j: nat) {
    (i < |s| && j == i + 1 && IsName(s[i])) || Escape(s, i, j)
  }

  ghost predicate Named(s: string, i: nat, j: nat)
    decreases j - i
  {
    i <= j <= |s| && (i == j || exists k: nat | i < k <= j :: Unit(s, i, k) && Named(s, k, j))
  }

  /** Behind the beginning of an escape, a name goes on through the rest of the escape. */
  lemma {:induction false} NamedSkip(s: string, i: nat, m: nat, e: nat, j: nat)
    requires Escape(s, i, e) && i + 2 <= m <= e <= j && Named(s, m, j)
    ensures Named(s, e, j)
    decreases e - m
  {
    if m < e {
      var k: nat :| m < k <= j && Unit(s, m, k) && Named(s, k, j);
      assert s[m] != '\\' && k == m + 1;
      NamedSkip(s, i, m + 1, e, j);
    }
  }

  /** The end of a name is the end of the longest one. */
  lemma {:induction false} NameIsLongest(s: string, i: nat)
    requires i <= |s|
    ensures Named(s, i, NameEnd(s, i))
    ensures forall j: nat :: Named(s, i, j) ==> j <= NameEnd(s, i)
    decreases |s| - i
  {
    if i < |s| && IsName(s[i]) {
      NameIsLongest(s, i + 1);
      assert Unit(s, i, i + 1);
      forall j: nat | Named(s, i, j) && j > i ensures j <= NameEnd(s, i) {
        var k: nat :| i < k <= j && Unit(s, i, k) && Named(s, k, j);
        assert k == i + 1;
      }
    } else if i < |s| && s[i] == '\\' {
      EscapeIsLongest(s, i);
      var e := EscapeEnd(s, i);
      if e != i {
        NameIsLongest(s, e);
        assert Unit(s, i, e);
      }
      forall j: nat | Named(s, i, j) && j > i ensures j <= NameEnd(s, i) {
        NamedWithin(s, i, j);
      }
    } else {
      assert forall j: nat :: j > i ==> !Named(s, i, j);
    }
  }

  lemma NamedWithin(s: string, i: nat, j: nat)
    requires i < |s| && s[i] == '\\' && Named(s, i, j) && j > i
    requires EscapeEnd(s, i) != i ==> forall m: nat :: Named(s, EscapeEnd(s, i), m) ==> m <= NameEnd(s, EscapeEnd(s, i))
    ensures j <= NameEnd(s, i)
  {
    EscapeIsLongest(s, i);
    var e := EscapeEnd(s, i);
    var k: nat :| i < k <= j && Unit(s, i, k) && Named(s, k, j);
    assert Escape(s, i, k) && e != i;
    if j > e && k < e {
      NamedSkip(s, i, k, e, j);
    }
  }

  // ---- strings ----

  /** From `i` to `j` stands one character of the inside of a string: no quote and no newline, and a
      backslash only at the end of the input; or an escape. */
  ghost predicate Inner(s: string, i: nat, j: nat, quote: char) {
    || (i < |s| && j == i + 1 && s[i] != quote && !IsNewline(s[i]) && s[i] != '\\')
    || Escape(s, i, j)
  }

  ghost predicate Inside(s: string, i: nat, j: nat, quote: char)
    decreases j - i
  {
    i <= j <= |s| && (i == j || exists k: nat | i < k <= j :: Inner(s, i, k, quote) && Inside(s, k, j, quote))
  }

  lemma {:induction false} InsideSkip(s: string, i: nat, m: nat, e: nat, j: nat, quote: char)
    requires Escape(s, i, e) && i + 2 <= m <= e <= j && Inside(s, m, j, quote)
    ensures Inside(s, e, j, quote)
    decreases e - m
  {
    if m < e {
      var k: nat :| m < k <= j && Inner(s, m, k, quote) && Inside(s, k, j, quote);
      assert s[m] != '\\' && k == m + 1;
      InsideSkip(s, i, m + 1, e, j, quote);
    }
  }

  /** Where a string stops: `j` is the end of a possible content, and the quote or the end of the
      input. */
  ghost predicate Stops(s: string, i: nat, j: nat, quote: char) {
    Inside(s, i, j, quote) && (j == |s| || s[j] == quote)
  }

  lemma StopWithin(s: string, i: nat, j: nat, quote: char)
    requires i < |s| && s[i] == '\\' && Stops(s, i, j, quote) && (quote == '"' || quote == '\'')
    ensures var e := EscapeEnd(s, i); e != i && e <= j && Stops(s, e, j, quote)
  {
    EscapeIsLongest(s, i);
    var e := EscapeEnd(s, i);
    var k: nat :| i < k <= j && Inner(s, i, k, quote) && Inside(s, k, j, quote);
    assert Escape(s, i, k) && e != i;
    if k < e && e <= j {
      InsideSkip(s, i, k, e, j, quote);
    }
  }

  /** A string stops at the only place where one can, and is broken off if there is none. */
  lemma {:induction false} StringStopsThere(s: string, i: nat, quote: char)
    requires i <= |s| && (quote == '"' || quote == '\'')
    ensures match StringStop(s, i, quote)
            case None => forall j: nat :: !Stops(s, i, j, quote)
            case Some(stop) => forall j: nat :: Stops(s, i, j, quote) <==> j == stop
    decreases |s| - i
  {
    if i < |s| && s[i] != quote {
      if s[i] == '\\' {
        EscapeIsLongest(s, i);
        var e := EscapeEnd(s, i);
        if e != i { StringStopsThere(s, e, quote); }
        forall j: nat | Stops(s, i, j, quote) ensures e != i && Stops(s, e, j, quote) { StopWithin(s, i, j, quote); }
        if e != i {
          forall j: nat | Stops(s, e, j, quote) ensures Stops(s, i, j, quote) { assert Inner(s, i, e, quote); }
        }
      } else {
        StringStopsThere(s, i + 1, quote);
        forall j: nat | Stops(s, i, j, quote) ensures !IsNewline(s[i]) && Stops(s, i + 1, j, quote) {
          var k: nat :| i < k <= j && Inner(s, i, k, quote) && Inside(s, k, j, quote);
        }
        if !IsNewline(s[i]) {
          forall j: nat | Stops(s, i + 1, j, quote) ensures Stops(s, i, j, quote) { assert Inner(s, i, i + 1, quote); }
        }
      }
    } else {
      assert Inside(s, i, i, quote);
      assert forall j: nat :: j > i ==> !Inside(s, i, j, quote);
    }
  }

  // ---- comments ----

  predicate ClosesAt(s: string, k: nat) { k + 2 <= |s| && s[k..k + 2] == "*/" }

  /** A comment ends behind the first closing mark after its opening mark, or with the input. */
  lemma CommentEndsFirst(s: string, i: nat)
    requires CommentAt(s, i)
    ensures var e := CommentEnd(s, i);
      && (e == |s| || (e >= i + 4 && ClosesAt(s, e - 2)))
      && forall k: nat :: i + 2 <= k && ClosesAt(s, k) ==> e <= k + 2
  {
    ClosesFirst(s, i + 2);
  }

  lemma {:induction false} ClosesFirst(s: string, i: nat)
    requires i <= |s|
    ensures var e := CommentClose(s, i);
      && (e == |s| || (e >= i + 2 && ClosesAt(s, e - 2)))
      && forall k: nat :: i <= k && ClosesAt(s, k) ==> e <= k + 2
    decreases |s| - i
  {
    if i + 1 < |s| && !ClosesAt(s, i) {
      ClosesFirst(s, i + 1);
    }
  }
}
