/** Where CSS tokens end (CSS Syntax Module Level 3, section 4), byte by byte; and the loops
    that find those ends. */
module CssTokens {
  import opened Ascii
  import opened Wrappers

  predicate IsNewline(c: char)
  {
    c == '\n' || c == '\r' || c == '\U{0C}'
  }

  predicate IsHex(c: char)
  {
    IsDigit(c) || 'a' <= c <= 'f' || 'A' <= c <= 'F'
  }

  predicate IsNameStart(c: char)
  {
    'a' <= c <= 'z' || 'A' <= c <= 'Z' || c == '_' || c as int >= 0x80
  }

  predicate IsName(c: char)
  {
    IsNameStart(c) || IsDigit(c) || c == '-'
  }

  /** The end of a run of at most `n` characters that satisfy `p`. */
  function RunEnd(s: string, i: nat, p: char -> bool, n: nat): (j: nat)
    requires i <= |s|
    ensures i <= j <= |s| && j - i <= n
    ensures forall k :: i <= k < j ==> p(s[k])
    ensures j < |s| && j - i < n ==> !p(s[j])
    decreases |s| - i
  {
    if i < |s| && n > 0 && p(s[i]) then RunEnd(s, i + 1, p, n - 1) else i
  }

  function WsEnd(s: string, i: nat): (j: nat)
    requires i <= |s|
  {
    RunEnd(s, i, IsWs, |s|)
  }

  function DigitsEnd(s: string, i: nat): (j: nat)
    requires i <= |s|
  {
    RunEnd(s, i, IsDigit, |s|)
  }

  /** The end of the escape that starts with the backslash at `i`; `i` itself when a newline
      follows, which is no escape. */
  function EscapeEnd(s: string, i: nat): (j: nat)
    requires i < |s| && s[i] == '\\'
    ensures i <= j <= |s|
    ensures j == i <==> i + 1 < |s| && IsNewline(s[i + 1])
  {
    if i + 1 >= |s| then i + 1
    else if IsHex(s[i + 1]) then
      var h := RunEnd(s, i + 1, IsHex, 6);
      if h < |s| && IsWs(s[h]) then h + 1 else h
    else if IsNewline(s[i + 1]) then i
    else i + 2
  }

  function NameEnd(s: string, i: nat): (j: nat)
    requires i <= |s|
    ensures i <= j <= |s|
    decreases |s| - i
  {
    if i < |s| && IsName(s[i]) then NameEnd(s, i + 1)
    else if i < |s| && s[i] == '\\' && EscapeEnd(s, i) != i then NameEnd(s, EscapeEnd(s, i))
    else i
  }

  predicate ValidEscape(s: string, i: nat)
  {
    i + 1 < |s| && s[i] == '\\' && !IsNewline(s[i + 1])
  }

  predicate StartsIdent(s: string, i: nat)
  {
    i < |s| &&
    if IsNameStart(s[i]) then true
    else if s[i] == '\\' then ValidEscape(s, i)
    else s[i] == '-' && i + 1 < |s| && (IsNameStart(s[i + 1]) || s[i + 1] == '-' || ValidEscape(s, i + 1))
  }

  predicate DigitAt(s: string, i: nat)
  {
    i < |s| && IsDigit(s[i])
  }

  predicate StartsNumber(s: string, i: nat)
  {
    i < |s| &&
    if s[i] == '.' then DigitAt(s, i + 1)
    else if s[i] == '+' || s[i] == '-' then DigitAt(s, i + 1) || (i + 1 < |s| && s[i + 1] == '.' && DigitAt(s, i + 2))
    else IsDigit(s[i])
  }

  function FractionEnd(s: string, i: nat): (j: nat)
    requires i <= |s|
    ensures i <= j <= |s|
  {
    if i < |s| && s[i] == '.' && DigitAt(s, i + 1) then DigitsEnd(s, i + 1) else i
  }

  function ExponentEnd(s: string, i: nat): (j: nat)
    requires i <= |s|
    ensures i <= j <= |s|
  {
    if i < |s| && (s[i] == 'e' || s[i] == 'E') then
      var e := if i + 1 < |s| && (s[i + 1] == '+' || s[i + 1] == '-') then i + 2 else i + 1;
      if DigitAt(s, e) then DigitsEnd(s, e) else i
    else i
  }

  function NumberEnd(s: string, i: nat): (j: nat)
    requires i <= |s|
    ensures i <= j <= |s|
  {
    var a := if i < |s| && (s[i] == '+' || s[i] == '-') then i + 1 else i;
    ExponentEnd(s, FractionEnd(s, DigitsEnd(s, a)))
  }

  /** Where the content of a string ends: at the closing quote or at the end of the input; none
      when a newline breaks the string off. */
  function StringStop(s: string, i: nat, quote: char): (r: Option<nat>)
    requires i <= |s|
    ensures r.Some? ==> i <= r.value <= |s| && (r.value < |s| ==> s[r.value] == quote)
    decreases |s| - i
  {
    if i == |s| || s[i] == quote then Some(i)
    else if IsNewline(s[i]) then None
    else if s[i] == '\\' && i + 1 < |s| then
      if EscapeEnd(s, i) == i then None else StringStop(s, EscapeEnd(s, i), quote)
    else StringStop(s, i + 1, quote)
  }

  /** The end of a comment that opens at `i`: past its close, or the end of the input. */
  function CommentEnd(s: string, i: nat): (j: nat)
    requires CommentAt(s, i)
    ensures i + 2 <= j <= |s|
  {
    CommentClose(s, i + 2)
  }

  predicate CommentAt(s: string, i: nat)
  {
    i + 1 < |s| && s[i] == '/' && s[i + 1] == '*'
  }

  function CommentClose(s: string, i: nat): (j: nat)
    requires i <= |s|
    ensures i <= j <= |s|
    decreases |s| - i
  {
    if i + 1 >= |s| then |s|
    else if s[i] == '*' && s[i + 1] == '/' then i + 2
    else CommentClose(s, i + 1)
  }

  // ---- the loops ----

  method FindRunEnd(s: string, i: nat, p: char -> bool, n: nat) returns (j: nat)
    requires i <= |s|
    ensures j == RunEnd(s, i, p, n)
  {
    j := i;
    var count := 0;
    while j < |s| && count < n && p(s[j])
      invariant i <= j <= |s| && count <= n
      invariant RunEnd(s, j, p, n - count) == RunEnd(s, i, p, n)
    {
      j := j + 1;
      count := count + 1;
    }
  }

  method FindEscapeEnd(s: string, i: nat) returns (j: nat)
    requires i < |s| && s[i] == '\\'
    ensures j == EscapeEnd(s, i)
  {
    j := i + 1;
    if j >= |s| {
      return;
    }
    if IsHex(s[j]) {
      j := FindRunEnd(s, j, IsHex, 6);
      if j < |s| && IsWs(s[j]) {
        j := j + 1;
      }
      return;
    }
    if IsNewline(s[j]) {
      return j - 1;
    }
    j := j + 1;
  }

  method FindNameEnd(s: string, i: nat) returns (j: nat)
    requires i <= |s|
    ensures j == NameEnd(s, i)
  {
    j := i;
    while j < |s|
      invariant i <= j <= |s| && NameEnd(s, j) == NameEnd(s, i)
    {
      if IsName(s[j]) {
        j := j + 1;
        continue;
      }
      if s[j] == '\\' {
        var next := FindEscapeEnd(s, j);
        if next == j {
          break;
        }
        j := next;
        continue;
      }
      break;
    }
  }

  method FindExponentEnd(s: string, i: nat) returns (j: nat)
    requires i <= |s|
    ensures j == ExponentEnd(s, i)
  {
    j := i;
    if j < |s| && (s[j] == 'e' || s[j] == 'E') {
      var exponent := j + 1;
      if exponent < |s| && (s[exponent] == '+' || s[exponent] == '-') {
        exponent := exponent + 1;
      }
      if exponent < |s| && IsDigit(s[exponent]) {
        j := FindRunEnd(s, exponent, IsDigit, |s|);
      }
    }
  }

  method FindNumberEnd(s: string, i: nat) returns (j: nat)
    requires i <= |s|
    ensures j == NumberEnd(s, i)
  {
    j := i;
    if j < |s| && (s[j] == '+' || s[j] == '-') {
      j := j + 1;
    }
    j := FindRunEnd(s, j, IsDigit, |s|);
    ghost var whole := j;
    if j + 1 < |s| && s[j] == '.' && IsDigit(s[j + 1]) {
      j := FindRunEnd(s, j + 1, IsDigit, |s|);
    }
    assert j == FractionEnd(s, whole);
    j := FindExponentEnd(s, j);
  }

  method FindCommentEnd(s: string, i: nat) returns (j: nat)
    requires CommentAt(s, i)
    ensures j == CommentEnd(s, i)
  {
    j := i + 2;
    while j + 1 < |s| && !(s[j] == '*' && s[j + 1] == '/')
      invariant i + 2 <= j <= |s| && CommentClose(s, j) == CommentClose(s, i + 2)
    {
      j := j + 1;
    }
    if j + 1 < |s| {
      j := j + 2;
    } else {
      j := |s|;
    }
  }
}
