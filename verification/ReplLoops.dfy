/**
 * The scanning loops of apps/kernel/src/repl-transform.ts over one cursor: the string skipper with
 * its recursive template holes, the regex skipper and scanTopLevel, each against the functions of
 * ReplTokens and ReplScan. An escape at the very end, or an unterminated block comment, leaves
 * the cursor past the end of the text.
 */
module ReplLoops {
  import opened Prelude
  import opened ReplTokens
  import opened ReplScan
  import opened ReplCompletion
  import opened ReplReading

  // ---- skipString ----------------------------------------------------------------------------

  /** Where the literal that a cursor at i is inside of ends, behind its closing quote q. */
  ghost function StringEnd(src: string, i: nat, q: char): (e: Option<nat>)
    ensures e.Some? ==> i < e.value <= |src|
    decreases |src| - i, 1
  {
    if i >= |src| then None
    else if src[i] == '\\' then StringEnd(src, i + 2, q)
    else if src[i] == q then Some(i + 1)
    else if q != '`' then (if src[i] == '\n' then None else StringEnd(src, i + 1, q))
    else if i + 1 < |src| && src[i] == '$' && src[i + 1] == '{' then
      var e := HoleEnd(src, i + 2, 1);
      if e.None? then None else StringEnd(src, e.value, q)
    else StringEnd(src, i + 1, q)
  }

  /** Where the template hole that a cursor at i is inside of, d braces deep, ends. */
  ghost function HoleEnd(src: string, i: nat, d: nat): (e: Option<nat>)
    ensures e.Some? ==> i <= e.value && (i <= |src| ==> e.value <= |src| + 1)
    decreases |src| - i, 0
  {
    if d == 0 || i >= |src| then Some(i)
    else if src[i] == '\\' then HoleEnd(src, i + 2, d)
    else if src[i] == '{' then HoleEnd(src, i + 1, d + 1)
    else if src[i] == '}' then HoleEnd(src, i + 1, d - 1)
    else if Quote(src[i]) then
      var e := StringEnd(src, i + 1, src[i]);
      if e.None? then None else HoleEnd(src, e.value, d)
    else HoleEnd(src, i + 1, d)
  }

  /** skipString: the cursor stands on the opening quote, and is left behind the closing one. */
  method SkipStringFrom(src: string, start: nat, q: char) returns (ok: bool, i: nat)
    requires start < |src| && Quote(q)
    ensures StringEnd(src, start + 1, q) == if ok then Some(i) else None
    decreases |src| - start, 0
  {
    var n := |src|;
    i := start + 1;
    while i < n
      invariant start < i && StringEnd(src, i, q) == StringEnd(src, start + 1, q)
      decreases n - i
    {
      var c := src[i];
      if c == '\\' {
        i := i + 2;
      } else if q == '`' {
        if c == '`' {
          return true, i + 1;
        } else if c == '$' && i + 1 < n && src[i + 1] == '{' {
          var closed, j := SkipHoleFrom(src, i + 2);
          if !closed { return false, j; }
          i := j;
        } else {
          i := i + 1;
        }
      } else if c == q {
        return true, i + 1;
      } else if c == '\n' {
        return false, i;
      } else {
        i := i + 1;
      }
    }
    return false, i;
  }

  /** The inner loop of skipString: from behind a hole's opening brace to behind its closing one. */
  method SkipHoleFrom(src: string, first: nat) returns (ok: bool, i: nat)
    requires first <= |src|
    ensures HoleEnd(src, first, 1) == if ok then Some(i) else None
    decreases |src| - first, 1
  {
    var n := |src|;
    var d: nat := 1;
    i := first;
    while i < n && d > 0
      invariant first <= i && HoleEnd(src, i, d) == HoleEnd(src, first, 1)
      decreases n - i
    {
      var c := src[i];
      if c == '\\' {
        i := i + 2;
      } else if c == '{' {
        d := d + 1;
        i := i + 1;
      } else if c == '}' {
        d := d - 1;
        i := i + 1;
      } else if Quote(c) {
        var closed, j := SkipStringFrom(src, i, c);
        if !closed { return false, j; }
        i := j;
      } else {
        i := i + 1;
      }
    }
    return true, i;
  }

  /** A result relative to position i, as a position. */
  ghost predicate Lands(src: string, i: nat, k: Option<nat>, e: Option<nat>) {
    k.Some? == e.Some? && (k.Some? ==> i + k.value == Min(e.value, |src|))
  }

  /** One turn at i, by k characters, at both forms of skipString. */
  lemma StringMoves(src: string, i: nat, q: char, k: nat)
    requires i + k <= |src| && i < |src|
    requires if src[i] == '\\' then k == 2
             else if q == '`' && i + 1 < |src| && src[i] == '$' && src[i + 1] == '{' then
               HoleEnd(src, i + 2, 1) == Some(i + k) && SkipHole(src[i + 2..], 1) == Some(k - 2) && k >= 2
             else k == 1 && src[i] != q && (src[i] == '\n' ==> q == '`')
    ensures StringEnd(src, i, q) == StringEnd(src, i + k, q)
    ensures SkipString(src[i..], q) == Plus(k, SkipString(src[i + k..], q))
  {
    var s := src[i..];
    assert s[k..] == src[i + k..];
    if i + 2 <= |src| { assert s[2..] == src[i + 2..]; }
  }

  /** The cursor form finds what consuming the text finds. */
  lemma {:induction false} StringEndConsumes(src: string, i: nat, q: char)
    requires i <= |src| && Quote(q)
    ensures Lands(src, i, SkipString(src[i..], q), StringEnd(src, i, q))
    decreases |src| - i, 1
  {
    if i == |src| || src[i] == q || (src[i] == '\n' && q != '`') || (src[i] == '\\' && i + 2 > |src|) {
    } else if q == '`' && i + 1 < |src| && src[i] == '$' && src[i + 1] == '{' {
      TemplateEndConsumes(src, i);
    } else {
      var k := if src[i] == '\\' then 2 else 1;
      StringMoves(src, i, q, k);
      StringEndConsumes(src, i + k, q);
    }
  }

  /** A template literal at a hole. */
  lemma {:induction false} TemplateEndConsumes(src: string, i: nat)
    requires i + 1 < |src| && src[i] == '$' && src[i + 1] == '{'
    ensures Lands(src, i, SkipString(src[i..], '`'), StringEnd(src, i, '`'))
    decreases |src| - i, 0
  {
    HoleEndConsumes(src, i + 2, 1);
    var s, e := src[i..], HoleEnd(src, i + 2, 1);
    assert s[2..] == src[i + 2..];
    if e.Some? && e.value <= |src| {
      StringMoves(src, i, '`', e.value - i);
      StringEndConsumes(src, e.value, '`');
    } else if e.Some? {
      assert s[|s|..] == "";
    }
  }

  /** One turn at i, by k characters, at both forms of the inside of a hole. */
  lemma HoleMoves(src: string, i: nat, d: nat, k: nat, after: nat)
    requires i + k <= |src| && i < |src| && d > 0
    requires if src[i] == '\\' then k == 2
             else if Quote(src[i]) then
               StringEnd(src, i + 1, src[i]) == Some(i + k) && SkipString(src[i + 1..], src[i]) == Some(k - 1) && k >= 1
             else k == 1
    requires after == if src[i] == '{' then d + 1 else if src[i] == '}' then d - 1 else d
    ensures HoleEnd(src, i, d) == HoleEnd(src, i + k, after)
    ensures SkipHole(src[i..], d) == Plus(k, SkipHole(src[i + k..], after))
  {
    var s := src[i..];
    assert s[k..] == src[i + k..] && s[1..] == src[i + 1..];
  }

  lemma {:induction false} HoleEndConsumes(src: string, i: nat, d: nat)
    requires i <= |src|
    ensures Lands(src, i, SkipHole(src[i..], d), HoleEnd(src, i, d))
    decreases |src| - i, 1
  {
    if i == |src| || d == 0 || (src[i] == '\\' && i + 2 > |src|) {
    } else if Quote(src[i]) {
      HoleQuoteConsumes(src, i, d);
    } else {
      var k := if src[i] == '\\' then 2 else 1;
      var after := if src[i] == '{' then d + 1 else if src[i] == '}' then d - 1 else d;
      HoleMoves(src, i, d, k, after);
      HoleEndConsumes(src, i + k, after);
    }
  }

  /** A string literal inside a hole. */
  lemma {:induction false} HoleQuoteConsumes(src: string, i: nat, d: nat)
    requires i < |src| && d > 0 && Quote(src[i])
    ensures Lands(src, i, SkipHole(src[i..], d), HoleEnd(src, i, d))
    decreases |src| - i, 0
  {
    assert src[i..][1..] == src[i + 1..];
    StringEndConsumes(src, i + 1, src[i]);
    var e := StringEnd(src, i + 1, src[i]);
    if e.Some? {
      HoleMoves(src, i, d, e.value - i, d);
      HoleEndConsumes(src, e.value, d);
    }
  }

  // ---- the other skippers --------------------------------------------------------------------

  ghost function LineEnd(src: string, i: nat): (e: nat)
    ensures e >= i
    decreases |src| - i
  {
    if i >= |src| || src[i] == '\n' then i else LineEnd(src, i + 1)
  }

  ghost function BlockEnd(src: string, i: nat): (e: nat)
    ensures e >= i
    decreases |src| - i
  {
    if i >= |src| || (src[i] == '*' && i + 1 < |src| && src[i + 1] == '/') then i else BlockEnd(src, i + 1)
  }

  ghost function WordEnd(src: string, i: nat): (e: nat)
    ensures e >= i && (i <= |src| ==> e <= |src|)
    decreases |src| - i
  {
    if i >= |src| || !IdentPart(src[i]) then i else WordEnd(src, i + 1)
  }

  /** Where the body of a regular expression ends: behind its slash, or with the text. */
  ghost function RegexEnd(src: string, i: nat, inClass: bool): (e: Option<nat>)
    ensures e.Some? ==> e.value >= i
    decreases |src| - i
  {
    if i >= |src| then Some(i)
    else if src[i] == '\\' then RegexEnd(src, i + 2, inClass)
    else if src[i] == '[' then RegexEnd(src, i + 1, true)
    else if src[i] == ']' then RegexEnd(src, i + 1, false)
    else if src[i] == '/' && !inClass then Some(i + 1)
    else if src[i] == '\n' then None
    else RegexEnd(src, i + 1, inClass)
  }

  method SkipWord(src: string, start: nat) returns (i: nat)
    ensures i == WordEnd(src, start)
  {
    i := start;
    while i < |src| && IdentPart(src[i])
      invariant WordEnd(src, i) == WordEnd(src, start)
    {
      i := i + 1;
    }
  }

  method SkipLineFrom(src: string, start: nat) returns (i: nat)
    ensures i == LineEnd(src, start)
  {
    i := start;
    while i < |src| && src[i] != '\n'
      invariant LineEnd(src, i) == LineEnd(src, start)
    {
      i := i + 1;
    }
  }

  method SkipBlockFrom(src: string, start: nat) returns (i: nat)
    ensures i == BlockEnd(src, start)
  {
    i := start;
    while i < |src| && !(src[i] == '*' && i + 1 < |src| && src[i + 1] == '/')
      invariant BlockEnd(src, i) == BlockEnd(src, start)
    {
      i := i + 1;
    }
  }

  /** skipRegex: the body and its flags. */
  method SkipRegexFrom(src: string, start: nat) returns (ok: bool, i: nat)
    requires start < |src|
    ensures ok == RegexEnd(src, start + 1, false).Some?
    ensures ok ==> i == WordEnd(src, RegexEnd(src, start + 1, false).value)
  {
    var n := |src|;
    i := start + 1;
    var inClass, closed := false, false;
    while i < n && !closed
      invariant start < i
      invariant RegexEnd(src, start + 1, false) == if closed then Some(i) else RegexEnd(src, i, inClass)
      decreases n - i, !closed
    {
      var c := src[i];
      if c == '\\' {
        i := i + 2;
      } else if c == '[' {
        inClass := true;
        i := i + 1;
      } else if c == ']' {
        inClass := false;
        i := i + 1;
      } else if c == '/' && !inClass {
        i := i + 1;
        closed := true;
      } else if c == '\n' {
        return false, i;
      } else {
        i := i + 1;
      }
    }
    i := SkipWord(src, i);
    ok := true;
  }

  // ---- scanTopLevel --------------------------------------------------------------------------

  /** What the scanner remembers of the token before the cursor. */
  datatype Prev = AtStart | AfterValue | AfterOp | AfterOpen | AfterKeyword | AfterBoundary

  predicate RegexOk(prev: Prev) {
    !prev.AfterValue?
  }

  datatype Step = Step(end: nat, kind: Kind) | Stuck

  /** The token at the cursor: where it leaves the cursor, and its kind. */
  ghost function StepAt(kw: Words, src: string, i: nat, regexOk: bool): (t: Step)
    requires i < |src|
    ensures t.Step? ==> t.end > i
  {
    var c := src[i];
    if ScanSpace(c) then Step(i + 1, Trivia)
    else if c == '/' && i + 1 < |src| && src[i + 1] == '/' then Step(LineEnd(src, i + 2), Trivia)
    else if c == '/' && i + 1 < |src| && src[i + 1] == '*' then Step(BlockEnd(src, i + 2) + 2, Trivia)
    else if Quote(c) then
      var e := StringEnd(src, i + 1, c);
      if e.None? then Stuck else Step(e.value, Val)
    else if c == '/' then
      if !regexOk then Step(i + 1, Oper)
      else
        var e := RegexEnd(src, i + 1, false);
        if e.None? then Stuck else Step(WordEnd(src, e.value), Val)
    else if c == '(' || c == '[' || c == '{' then Step(i + 1, Open)
    else if c == '}' then Step(i + 1, CloseCurly)
    else if c == ')' || c == ']' then Step(i + 1, CloseOther)
    else if c == ';' then Step(i + 1, Semi)
    else if IdentStart(c) then
      var e := WordEnd(src, i + 1);
      Step(e, Word(kw(src[i..e])))
    else Step(i + 1, Oper)
  }

  /** Reading the token at a cursor position. */
  type Reader = (nat, bool) -> Step

  ghost function ReaderOf(kw: Words, src: string): Reader {
    (i: nat, regexOk: bool) => if i < |src| then StepAt(kw, src, i, regexOk) else Stuck
  }

  /** What the scan makes of the n - i characters from the cursor on, the last boundary so far being at last. */
  ghost function ScanFrom(st: Reader, n: nat, i: nat, depth: nat, regexOk: bool, last: int): Option<int>
    decreases n - i
  {
    if i >= n then (if depth == 0 then Some(last) else None)
    else
      var t := st(i, regexOk);
      if t.Stuck? || t.end <= i || DepthAfter(t.kind, depth).None? then None
      else ScanFrom(st, n, t.end, DepthAfter(t.kind, depth).value, RegexOkAfter(t.kind, depth, regexOk),
                    if IsBoundary(t.kind, depth) then t.end else last)
  }

  /** One turn of the scan: where the token at the cursor takes it. */
  lemma ScanMoves(st: Reader, n: nat, i: nat, depth: nat, regexOk: bool, last: int, goal: Option<int>, t: Step)
    requires i < n && t == st(i, regexOk) && (t.Step? ==> t.end > i)
    requires ScanFrom(st, n, i, depth, regexOk, last) == goal
    ensures t.Stuck? || DepthAfter(t.kind, depth).None? ==> goal.None?
    ensures t.Step? && DepthAfter(t.kind, depth).Some? ==>
      ScanFrom(st, n, t.end, DepthAfter(t.kind, depth).value, RegexOkAfter(t.kind, depth, regexOk),
               if IsBoundary(t.kind, depth) then t.end else last) == goal
  {
  }

  /** The scanner's dispatch on the character at the cursor. */
  method ReadToken(kw: Words, src: string, i: nat, regexOk: bool) returns (t: Step)
    requires i < |src|
    ensures t == StepAt(kw, src, i, regexOk)
  {
    var n, c := |src|, src[i];
    if ScanSpace(c) { return Step(i + 1, Trivia); }
    if c == '/' && i + 1 < n && src[i + 1] == '/' {
      var j := SkipLineFrom(src, i + 2);
      return Step(j, Trivia);
    }
    if c == '/' && i + 1 < n && src[i + 1] == '*' {
      var j := SkipBlockFrom(src, i + 2);
      return Step(j + 2, Trivia);
    }
    if Quote(c) {
      var ok, j := SkipStringFrom(src, i, c);
      return if ok then Step(j, Val) else Stuck;
    }
    if c == '/' {
      if !regexOk { return Step(i + 1, Oper); }
      var ok, j := SkipRegexFrom(src, i);
      return if ok then Step(j, Val) else Stuck;
    }
    if c == '(' || c == '[' || c == '{' { return Step(i + 1, Open); }
    if c == ')' || c == ']' || c == '}' { return Step(i + 1, if c == '}' then CloseCurly else CloseOther); }
    if c == ';' { return Step(i + 1, Semi); }
    if IdentStart(c) {
      var j := SkipWord(src, i + 1);
      return Step(j, Word(kw(src[i..j])));
    }
    return Step(i + 1, Oper);
  }

  /** scanTopLevel: None where the source returns null, -1 where it found no boundary. */
  method ScanTopLevel(kw: Words, src: string) returns (r: Option<int>)
    ensures r == ScanFrom(ReaderOf(kw, src), |src|, 0, 0, true, -1)
  {
    var n := |src|;
    var i: nat, depth: nat, prev, last: int := 0, 0, AtStart, -1;
    ghost var st, goal := ReaderOf(kw, src), ScanFrom(ReaderOf(kw, src), |src|, 0, 0, true, -1);
    while i < n
      invariant ScanFrom(st, n, i, depth, RegexOk(prev), last) == goal
      decreases n - i
    {
      var t := ReadToken(kw, src, i, RegexOk(prev));
      ScanMoves(st, n, i, depth, RegexOk(prev), last, goal, t);
      if t.Stuck? { return None; }
      i := t.end;
      match t.kind {
        case Trivia =>
        case Val => prev := AfterValue;
        case Oper => prev := AfterOp;
        case Open => depth, prev := depth + 1, AfterOpen;
        case Word(keyword) => prev := if keyword then AfterKeyword else AfterValue;
        case Semi =>
          if depth == 0 { last, prev := i, AfterBoundary; } else { prev := AfterOp; }
        case CloseCurly =>
          if depth == 0 { return None; }
          depth := depth - 1;
          if depth == 0 { last, prev := i, AfterBoundary; } else { prev := AfterValue; }
        case CloseOther =>
          if depth == 0 { return None; }
          depth, prev := depth - 1, AfterValue;
      }
    }
    if depth != 0 { return None; }
    return Some(last);
  }

  // ---- the cursor form finds what consuming the text finds -----------------------------------

  lemma {:induction false} LineEndConsumes(src: string, i: nat)
    requires i <= |src|
    ensures LineEnd(src, i) == i + SkipLine(src[i..])
    decreases |src| - i
  {
    if i < |src| { assert src[i..][1..] == src[i + 1..]; }
    if i < |src| && src[i] != '\n' { LineEndConsumes(src, i + 1); }
  }

  lemma {:induction false} BlockEndConsumes(src: string, i: nat)
    requires i <= |src|
    ensures Min(BlockEnd(src, i) + 2, |src|) == i + SkipBlock(src[i..])
    decreases |src| - i
  {
    if i < |src| {
      assert src[i..][1..] == src[i + 1..];
      BlockEndConsumes(src, i + 1);
    }
  }

  lemma {:induction false} WordEndConsumes(src: string, i: nat)
    requires i <= |src|
    ensures WordEnd(src, i) == i + IdentLen(src[i..])
    decreases |src| - i
  {
    if i < |src| {
      assert src[i..][1..] == src[i + 1..];
      WordEndConsumes(src, i + 1);
    }
  }

  ghost predicate RegexLands(src: string, i: nat, r: Regex, e: Option<nat>) {
    r.Regex? == e.Some? && (r.Regex? ==> i + r.len == Min(e.value, |src|))
  }

  lemma {:induction false} RegexEndConsumes(src: string, i: nat, inClass: bool)
    requires i <= |src|
    ensures RegexLands(src, i, SkipRegexBody(src[i..], inClass), RegexEnd(src, i, inClass))
    decreases |src| - i
  {
    if i < |src| {
      var c := src[i];
      var k := if c == '\\' then 2 else 1;
      if i + k <= |src| {
        assert src[i..][k..] == src[i + k..];
        RegexEndConsumes(src, i + k, if c == '[' then true else if c == ']' then false else inClass);
      }
    }
  }

  ghost predicate SameToken(src: string, i: nat, t: Token, p: Step) {
    && t.Token? == p.Step?
    && (t.Token? ==> t.kind == p.kind && p.end > i && i + t.len == Min(p.end, |src|))
    && (t.Token? && p.end > |src| ==> t.kind.Trivia? || t.kind.Val?)
  }

  lemma RegexStepConsumes(kw: Words, src: string, i: nat)
    requires i < |src| && src[i] == '/' && !(i + 1 < |src| && (src[i + 1] == '/' || src[i + 1] == '*'))
    ensures SameToken(src, i, Next(kw, src[i..], true), StepAt(kw, src, i, true))
  {
    var s := src[i..];
    assert s[1..] == src[i + 1..];
    assert |s| > 1 ==> s[1] == src[i + 1];
    RegexEndConsumes(src, i + 1, false);
    var e := RegexEnd(src, i + 1, false);
    if e.Some? {
      var m := Min(e.value, |src|);
      WordEndConsumes(src, m);
      assert s[m - i..] == src[m..];
    }
  }

  lemma StepConsumes(kw: Words, src: string, i: nat, regexOk: bool)
    requires i < |src|
    ensures SameToken(src, i, Next(kw, src[i..], regexOk), StepAt(kw, src, i, regexOk))
  {
    hide IdentLen, WordEnd, LineEnd, BlockEnd, StringEnd, RegexEnd, SkipLine, SkipBlock, SkipString, SkipRegexBody;
    var s, c := src[i..], src[i];
    assert s[1..] == src[i + 1..];
    if i + 1 < |src| { assert s[1] == src[i + 1] && s[2..] == src[i + 2..]; }
    if c == '/' && i + 1 < |src| && src[i + 1] == '/' {
      LineEndConsumes(src, i + 2);
    } else if c == '/' && i + 1 < |src| && src[i + 1] == '*' {
      BlockEndConsumes(src, i + 2);
    } else if Quote(c) {
      StringEndConsumes(src, i + 1, c);
    } else if c == '/' && regexOk {
      RegexStepConsumes(kw, src, i);
    } else if IdentStart(c) {
      WordEndConsumes(src, i + 1);
      assert s[..WordEnd(src, i + 1) - i] == src[i..WordEnd(src, i + 1)];
    }
  }

  /** The last boundary, when r is what the rest from i on holds. */
  ghost function LastAfter(i: nat, last: int, r: Option<nat>): Option<int> {
    if r.None? then None else Some(if r.value == 0 then last else i + r.value)
  }

  /** lx reads the tokens that the cursor sees in src. */
  ghost predicate ReadsAlike(st: Reader, src: string, lx: Lexer) {
    forall i, ok :: 0 <= i < |src| ==> SameToken(src, i, lx(src[i..], ok), st(i, ok))
  }

  lemma NextReadsAlike(kw: Words, src: string)
    ensures ReadsAlike(ReaderOf(kw, src), src, NextOf(kw))
  {
    forall i, ok | 0 <= i < |src|
      ensures SameToken(src, i, NextOf(kw)(src[i..], ok), ReaderOf(kw, src)(i, ok))
    {
      StepConsumes(kw, src, i, ok);
    }
  }

  lemma ScanTurn(st: Reader, src: string, i: nat, depth: nat, regexOk: bool, last: int, t: Token, e: Option<int>)
    returns (d: nat, ok: bool, before: int)
    requires i < |src| && SameToken(src, i, t, st(i, regexOk)) && e == ScanFrom(st, |src|, i, depth, regexOk, last)
    requires t.Token? && DepthAfter(t.kind, depth).Some?
    ensures d == DepthAfter(t.kind, depth).value && ok == RegexOkAfter(t.kind, depth, regexOk)
    ensures before == if IsBoundary(t.kind, depth) then i + t.len else last
    ensures i + t.len <= |src| && e == ScanFrom(st, |src|, i + t.len, d, ok, before)
  {
    d, ok := DepthAfter(t.kind, depth).value, RegexOkAfter(t.kind, depth, regexOk);
    before := if IsBoundary(t.kind, depth) then i + t.len else last;
  }

  lemma LastTurn(lx: Lexer, src: string, i: nat, depth: nat, regexOk: bool, last: int, t: Token, r: Option<nat>)
    returns (sub: Option<nat>)
    requires i < |src| && t == lx(src[i..], regexOk) && t.Token? && 0 < t.len <= |src| - i
    requires DepthAfter(t.kind, depth).Some? && r == Scan(lx, src[i..], depth, regexOk)
    ensures sub == Scan(lx, src[i + t.len..], DepthAfter(t.kind, depth).value, RegexOkAfter(t.kind, depth, regexOk))
    ensures LastAfter(i, last, r) == LastAfter(i + t.len, if IsBoundary(t.kind, depth) then i + t.len else last, sub)
  {
    assert src[i..][t.len..] == src[i + t.len..];
    sub := Scan(lx, src[i + t.len..], DepthAfter(t.kind, depth).value, RegexOkAfter(t.kind, depth, regexOk));
    StepTo(lx, src[i..], depth, regexOk, t, sub);
  }

  lemma ScanStops(st: Reader, src: string, lx: Lexer, i: nat, depth: nat, regexOk: bool,
                  last: int, r: Option<nat>, e: Option<int>)
    requires i <= |src| && r == Scan(lx, src[i..], depth, regexOk) && e == ScanFrom(st, |src|, i, depth, regexOk, last)
    requires i < |src| ==> SameToken(src, i, lx(src[i..], regexOk), st(i, regexOk))
    requires i < |src| && lx(src[i..], regexOk).Token? ==> DepthAfter(lx(src[i..], regexOk).kind, depth).None?
    ensures e == LastAfter(i, last, r)
  {
  }

  lemma {:induction false} ScanFromConsumes(st: Reader, src: string, lx: Lexer, i: nat, depth: nat, regexOk: bool,
                                            last: int, r: Option<nat>, e: Option<int>)
    requires ReadsAlike(st, src, lx) && Sized(lx)
    requires i <= |src| && r == Scan(lx, src[i..], depth, regexOk) && e == ScanFrom(st, |src|, i, depth, regexOk, last)
    ensures e == LastAfter(i, last, r)
    decreases |src| - i
  {
    hide Scan, ScanFrom, Sized;
    assert i < |src| ==> SameToken(src, i, lx(src[i..], regexOk), st(i, regexOk));
    if i < |src| && lx(src[i..], regexOk).Token? && DepthAfter(lx(src[i..], regexOk).kind, depth).Some? {
      var t := lx(src[i..], regexOk);
      var d, ok, before := ScanTurn(st, src, i, depth, regexOk, last, t, e);
      var sub := LastTurn(lx, src, i, depth, regexOk, last, t, r);
      ScanFromConsumes(st, src, lx, i + t.len, d, ok, before, sub, e);
    } else {
      ScanStops(st, src, lx, i, depth, regexOk, last, r, e);
    }
  }

  /** scanTopLevel's loop computes the scan of ReplScan. */
  lemma LoopsRefineScan(kw: Words, src: string)
    ensures ScanFrom(ReaderOf(kw, src), |src|, 0, 0, true, -1)
         == LastAfter(0, -1, Scan(NextOf(kw), src, 0, true))
  {
    assert src[0..] == src;
    NextReadsAlike(kw, src);
    ScanFromConsumes(ReaderOf(kw, src), src, NextOf(kw), 0, 0, true, -1, Scan(NextOf(kw), src, 0, true),
                     ScanFrom(ReaderOf(kw, src), |src|, 0, 0, true, -1));
  }

  /** wrapAsyncCompletion on the scanner's result. */
  method RewriteCompletion(src: string) returns (out: string)
    ensures out == WrapAsyncCompletion(src)
    ensures out != src <==> Completable(src)
    ensures forall ts, b: nat, tail :: Completes(src, ts, b, tail) ==> out == src[..b] + ";return (\n" + tail + "\n);"
  {
    CompletionIff(src);
    LoopsRefineScan(KEYWORDS, src);
    if src == "" || !UsesAwait(src) { return src; }
    var scan := ScanTopLevel(KEYWORDS, src);
    if scan.None? { return src; }
    var b := scan.value;
    if b <= 0 || b >= |src| { return src; }
    var tail := TrimEnd(TrimStart(src[b..]));
    if tail == "" { return src; }
    if !ExpressionTail(tail) { return src; }
    return src[..b] + OPEN + tail + CLOSE;
  }
}
