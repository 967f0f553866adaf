/**
 * Where strings, regular expressions and comments end (skipString, skipRegex and the comment loops
 * of apps/kernel/src/repl-transform.ts), told by which characters are escaped.
 */
module ReplLexemes {
  import opened Prelude
  import opened ReplTokens

  /** Character i stands behind a backslash that is not escaped itself. */
  predicate Escaped(s: string, i: nat)
    requires i <= |s|
  {
    i > 0 && s[i - 1] == '\\' && !Escaped(s, i - 1)
  }

  lemma {:induction false} EscapedBehind(s: string, n: nat, i: nat)
    requires n + i <= |s| && !Escaped(s, n)
    ensures Escaped(s[n..], i) == Escaped(s, n + i)
    decreases i
  {
    if i > 0 { EscapedBehind(s, n, i - 1); }
  }

  // ---- strings -------------------------------------------------------------------------------

  /** The literal whose text follows the opening quote ends with the quote at k. */
  ghost predicate ClosesAt(s: string, q: char, k: nat) {
    && k < |s| && s[k] == q && !Escaped(s, k)
    && forall i :: 0 <= i < k && (s[i] == q || s[i] == '\n') ==> Escaped(s, i)
  }

  lemma ClosesBehind(s: string, q: char, n: nat, k: nat)
    requires n <= |s| && !Escaped(s, n)
    requires forall i :: 0 <= i < n && (s[i] == q || s[i] == '\n') ==> Escaped(s, i)
    ensures ClosesAt(s[n..], q, k) <==> ClosesAt(s, q, n + k)
  {
    var t := s[n..];
    forall i | 0 <= i <= |t| ensures Escaped(t, i) == Escaped(s, n + i) { EscapedBehind(s, n, i); }
    if ClosesAt(t, q, k) {
      forall i | 0 <= i < n + k && (s[i] == q || s[i] == '\n') ensures Escaped(s, i) {
        if i >= n { assert t[i - n] == s[i] && Escaped(t, i - n); }
      }
    }
    if ClosesAt(s, q, n + k) {
      forall i | 0 <= i < k && (t[i] == q || t[i] == '\n') ensures Escaped(t, i) { assert s[n + i] == t[i]; }
    }
  }

  /** A quoted string ends with the first quote that is not escaped, and is none if a line ends before. */
  lemma {:induction false} StringEndsIff(s: string, q: char, k: nat)
    requires q == '"' || q == '\''
    ensures SkipString(s, q) == Some(k + 1) <==> ClosesAt(s, q, k)
    decreases |s|
  {
    if s != "" {
      if s[0] == '\\' {
        if |s| >= 2 {
          assert !Escaped(s, 0);
          assert Escaped(s, 1);
          assert !Escaped(s, 2);
          if k >= 2 {
            StringEndsIff(s[2..], q, k - 2);
            ClosesBehind(s, q, 2, k - 2);
          }
        }
      } else if s[0] != q && s[0] != '\n' {
        if k >= 1 {
          StringEndsIff(s[1..], q, k - 1);
          ClosesBehind(s, q, 1, k - 1);
        }
      }
    }
  }

  // ---- comments ------------------------------------------------------------------------------

  /** A line comment goes up to the line's end. */
  lemma {:induction false} LineEndsAt(s: string)
    ensures var k := SkipLine(s);
      (forall i :: 0 <= i < k ==> s[i] != '\n') && (k < |s| ==> s[k] == '\n')
  {
    if s != "" && s[0] != '\n' {
      LineEndsAt(s[1..]);
      var k := SkipLine(s);
      assert forall i :: 0 < i < k ==> s[i] == s[1..][i - 1];
    }
  }

  predicate StarSlash(s: string, i: nat) {
    i + 1 < |s| && s[i] == '*' && s[i + 1] == '/'
  }

  /** A block comment goes up to the first star and slash, or takes everything. */
  lemma {:induction false} BlockEndsAt(s: string)
    ensures var k := SkipBlock(s);
      if exists i: nat :: StarSlash(s, i) then
        k >= 2 && StarSlash(s, k - 2) && forall i: nat :: StarSlash(s, i) ==> i >= k - 2
      else k == |s|
  {
    if s != "" && !StarSlash(s, 0) {
      var t := s[1..];
      BlockEndsAt(t);
      assert forall i: nat :: StarSlash(t, i) ==> StarSlash(s, i + 1);
      forall i: nat | StarSlash(s, i) ensures i > 0 && StarSlash(t, i - 1) {}
    }
  }

  // ---- regular expressions -------------------------------------------------------------------

  /** Character i stands in a class: the last bracket before it that is not escaped opens one. */
  predicate InClass(s: string, inClass: bool, i: nat)
    requires i <= |s|
  {
    if i == 0 then inClass
    else if Escaped(s, i - 1) || (s[i - 1] != '[' && s[i - 1] != ']') then InClass(s, inClass, i - 1)
    else s[i - 1] == '['
  }

  lemma {:induction false} ClassBehind(s: string, inClass: bool, n: nat, i: nat)
    requires n + i <= |s| && !Escaped(s, n)
    ensures InClass(s[n..], InClass(s, inClass, n), i) == InClass(s, inClass, n + i)
    decreases i
  {
    if i > 0 {
      ClassBehind(s, inClass, n, i - 1);
      EscapedBehind(s, n, i - 1);
    }
  }

  /** Nothing before k ends the expression or its line. */
  ghost predicate GoesOn(s: string, inClass: bool, k: nat) {
    && k <= |s|
    && forall i :: 0 <= i < k ==> Escaped(s, i) || (s[i] != '\n' && (s[i] == '/' ==> InClass(s, inClass, i)))
  }

  ghost predicate SlashEnds(s: string, inClass: bool, k: nat) {
    GoesOn(s, inClass, k) && k < |s| && s[k] == '/' && !Escaped(s, k) && !InClass(s, inClass, k)
  }

  lemma GoesOnBehind(s: string, inClass: bool, n: nat, k: nat)
    requires n <= |s| && !Escaped(s, n) && GoesOn(s, inClass, n)
    ensures GoesOn(s[n..], InClass(s, inClass, n), k) <==> GoesOn(s, inClass, n + k)
    ensures SlashEnds(s[n..], InClass(s, inClass, n), k) <==> SlashEnds(s, inClass, n + k)
  {
    var t, c := s[n..], InClass(s, inClass, n);
    forall i | 0 <= i <= |t|
      ensures Escaped(t, i) == Escaped(s, n + i) && InClass(t, c, i) == InClass(s, inClass, n + i)
    {
      EscapedBehind(s, n, i);
      ClassBehind(s, inClass, n, i);
    }
    if GoesOn(t, c, k) {
      forall i | 0 <= i < n + k
        ensures Escaped(s, i) || (s[i] != '\n' && (s[i] == '/' ==> InClass(s, inClass, i)))
      {
        if i >= n { assert t[i - n] == s[i]; }
      }
    }
    if GoesOn(s, inClass, n + k) {
      forall i | 0 <= i < k ensures Escaped(t, i) || (t[i] != '\n' && (t[i] == '/' ==> InClass(t, c, i))) {
        assert s[n + i] == t[i];
      }
    }
  }

  /** How far one turn of the loop takes it. */
  function Pace(s: string): nat {
    if s != "" && s[0] == '\\' && |s| >= 2 then 2 else 1
  }

  lemma OneTurn(s: string, inClass: bool)
    requires s != "" && (s[0] != '\n' && (s[0] == '/' ==> inClass)) && (s[0] == '\\' ==> |s| >= 2)
    ensures var n := Pace(s);
      && n <= |s| && !Escaped(s, n) && GoesOn(s, inClass, n)
      && SkipRegexBody(s, inClass) == AddRegex(n, SkipRegexBody(s[n..], InClass(s, inClass, n)))
      && forall k :: 0 <= k < n ==> !SlashEnds(s, inClass, k)
  {
    assert !Escaped(s, 0);
    if s[0] == '\\' {
      assert Escaped(s, 1) && !Escaped(s, 2);
      assert InClass(s, inClass, 1) == inClass && InClass(s, inClass, 2) == inClass;
    } else {
      assert !Escaped(s, 1) && InClass(s, inClass, 0) == inClass;
    }
  }

  /**
   * A regular expression closes at the first slash that is neither escaped nor in a class, and is
   * none if a line ends before.
   */
  lemma {:induction false} RegexClosesIff(s: string, inClass: bool, k: nat)
    ensures SkipRegexBody(s, inClass) == Regex(k + 1, true) <==> SlashEnds(s, inClass, k)
    decreases |s|
  {
    if s == "" || (s[0] == '\\' && |s| < 2) || s[0] == '\n' || (s[0] == '/' && !inClass) {
      RegexStops(s, inClass, k);
    } else {
      var n := Pace(s);
      OneTurn(s, inClass);
      if k >= n {
        RegexClosesIff(s[n..], InClass(s, inClass, n), k - n);
        GoesOnBehind(s, inClass, n, k - n);
      }
    }
  }

  lemma RegexStops(s: string, inClass: bool, k: nat)
    requires s == "" || (s[0] == '\\' && |s| < 2) || s[0] == '\n' || (s[0] == '/' && !inClass)
    ensures SkipRegexBody(s, inClass) == Regex(k + 1, true) <==> SlashEnds(s, inClass, k)
  {
    assert s != "" ==> !Escaped(s, 0) && InClass(s, inClass, 0) == inClass;
  }
}
