/**
 * wrapAsyncCompletion (apps/kernel/src/repl-transform.ts) without the scan: which cells it rewrites
 * and what it makes of them, in terms of the whole list of tokens of a cell.
 */
module ReplReading {
  import opened Prelude
  import opened ReplTokens
  import opened ReplScan
  import opened ReplCompletion

  // ---- the tokens of a text ------------------------------------------------------------------

  function Length(ts: seq<Token>): int {
    if ts == [] then 0 else Length(ts[..|ts| - 1]) + if ts[|ts| - 1].Token? then ts[|ts| - 1].len else 0
  }

  /** Brackets opened and not closed. */
  function Depth(ts: seq<Token>): int {
    if ts == [] then 0
    else
      var t := ts[|ts| - 1];
      Depth(ts[..|ts| - 1])
        + if t.Token? && t.kind.Open? then 1
          else if t.Token? && (t.kind.CloseCurly? || t.kind.CloseOther?) then -1
          else 0
  }

  /** A slash after these tokens starts a regular expression: nothing a value ends with precedes it. */
  predicate SlashIsRegex(ts: seq<Token>) {
    if ts == [] then true
    else
      var t := ts[|ts| - 1];
      if t.Token? && t.kind.Trivia? then SlashIsRegex(ts[..|ts| - 1])
      else
        && !(t.Token? && (t.kind.Val? || t.kind.CloseOther?))
        && !(t.Token? && t.kind.CloseCurly? && Depth(ts) != 0)
        && !(t.Token? && t.kind.Word? && !t.kind.keyword)
  }

  /** Token i is what the text reads as, behind the tokens before it. */
  ghost predicate ReadsAt(lx: Lexer, src: string, ts: seq<Token>, i: nat) {
    && i < |ts| && 0 <= Length(ts[..i]) < |src|
    && ts[i] == lx(src[Length(ts[..i])..], SlashIsRegex(ts[..i]))
    && ts[i].Token? && 0 < ts[i].len <= |src| - Length(ts[..i])
  }

  /** ts are the first tokens of the text. */
  ghost predicate Begins(lx: Lexer, src: string, ts: seq<Token>) {
    forall i :: 0 <= i < |ts| ==> ReadsAt(lx, src, ts, i)
  }

  /** ts are the tokens of the text, all of them. */
  ghost predicate Reads(lx: Lexer, src: string, ts: seq<Token>) {
    Begins(lx, src, ts) && Length(ts) == |src|
  }

  ghost predicate NeverUnder(ts: seq<Token>) {
    Depth(ts) >= 0 && forall i :: 0 <= i <= |ts| ==> Depth(ts[..i]) >= 0
  }

  ghost predicate Balanced(ts: seq<Token>) {
    NeverUnder(ts) && Depth(ts) == 0
  }

  /** A statement ends with token i: a semicolon or a curly bracket, and everything is closed. */
  predicate EndsStatement(ts: seq<Token>, i: nat) {
    i < |ts| && ts[i].Token? && (ts[i].kind.Semi? || ts[i].kind.CloseCurly?) && Depth(ts[..i + 1]) == 0
  }

  /** The last statement that ends from token i on ends r characters further; 0 when none does. */
  ghost predicate LastEnd(ts: seq<Token>, i: nat, r: int)
    requires i <= |ts|
  {
    if exists j: nat :: i <= j && EndsStatement(ts, j) then
      exists j: nat :: i <= j && EndsStatement(ts, j) && r == Length(ts[..j + 1]) - Length(ts[..i])
        && forall k: nat :: EndsStatement(ts, k) ==> k <= j
    else r == 0
  }

  // ---- the scan reads exactly that -----------------------------------------------------------

  lemma Prefixes(ts: seq<Token>, i: nat)
    requires i < |ts|
    ensures ts[..i + 1][..i] == ts[..i] && ts[..i + 1][i] == ts[i] && |ts[..i + 1]| == i + 1
  {
  }

  lemma OneMore(ts: seq<Token>, i: nat)
    requires i < |ts| && ts[i].Token? && Depth(ts[..i]) >= 0
    ensures Length(ts[..i + 1]) == Length(ts[..i]) + ts[i].len
    ensures DepthAfter(ts[i].kind, Depth(ts[..i])).Some? <==> Depth(ts[..i + 1]) >= 0
    ensures Depth(ts[..i + 1]) >= 0 ==> DepthAfter(ts[i].kind, Depth(ts[..i])) == Some(Depth(ts[..i + 1]))
    ensures RegexOkAfter(ts[i].kind, Depth(ts[..i]), SlashIsRegex(ts[..i])) == SlashIsRegex(ts[..i + 1])
    ensures IsBoundary(ts[i].kind, Depth(ts[..i])) <==> EndsStatement(ts, i)
  {
    Prefixes(ts, i);
  }

  lemma {:induction false} LengthsGrow(ts: seq<Token>, i: nat, j: nat)
    requires i <= j <= |ts| && forall k :: 0 <= k < |ts| ==> ts[k].Token? && ts[k].len > 0
    ensures Length(ts[..j]) >= Length(ts[..i]) + (j - i)
    decreases j
  {
    if i < j {
      LengthsGrow(ts, i, j - 1);
      Prefixes(ts, j - 1);
    }
  }

  /** One token: the scan of the text from it on, given the scan of the text behind it. */
  lemma ScanToken(lx: Lexer, rest: string, ts: seq<Token>, i: nat, sub: nat)
    requires i < |ts| && rest != "" && Depth(ts[..i]) >= 0 && Depth(ts[..i + 1]) >= 0
    requires ts[i] == lx(rest, SlashIsRegex(ts[..i])) && ts[i].Token? && 0 < ts[i].len <= |rest|
    requires Scan(lx, rest[ts[i].len..], Depth(ts[..i + 1]), SlashIsRegex(ts[..i + 1])) == Some(sub)
    ensures Scan(lx, rest, Depth(ts[..i]), SlashIsRegex(ts[..i]))
         == Some(if sub > 0 || EndsStatement(ts, i) then ts[i].len + sub else 0)
  {
    hide Scan;
    OneMore(ts, i);
    StepTo(lx, rest, Depth(ts[..i]), SlashIsRegex(ts[..i]), ts[i], Some(sub));
  }

  lemma TokenOf(lx: Lexer, src: string, ts: seq<Token>, i: nat)
    requires Begins(lx, src, ts) && i < |ts|
    ensures 0 <= Length(ts[..i]) < |src|
    ensures ts[i] == lx(src[Length(ts[..i])..], SlashIsRegex(ts[..i]))
    ensures ts[i].Token? && 0 < ts[i].len && Length(ts[..i + 1]) == Length(ts[..i]) + ts[i].len <= |src|
  {
    assert ReadsAt(lx, src, ts, i);
    Prefixes(ts, i);
  }

  lemma ScanEnds(lx: Lexer, src: string, ts: seq<Token>)
    requires Reads(lx, src, ts) && Balanced(ts)
    ensures ts[..|ts|] == ts && src[|src|..] == "" && LastEnd(ts, |ts|, 0)
    ensures Scan(lx, src[|src|..], Depth(ts), SlashIsRegex(ts)) == Some(0)
  {
    assert ts[..|ts|] == ts;
  }

  /** Scanning from token i on finds the last end of a statement. */
  lemma {:induction false} ScanFinds(lx: Lexer, src: string, ts: seq<Token>, i: nat)
    returns (r: nat)
    requires Reads(lx, src, ts) && Balanced(ts) && i <= |ts|
    ensures 0 <= Length(ts[..i]) <= |src| && Depth(ts[..i]) >= 0
    ensures Scan(lx, src[Length(ts[..i])..], Depth(ts[..i]), SlashIsRegex(ts[..i])) == Some(r)
    ensures LastEnd(ts, i, r)
    decreases |ts| - i
  {
    hide Scan, Length, Depth, SlashIsRegex, LastEnd;
    if i == |ts| {
      ScanEnds(lx, src, ts);
      r := 0;
    } else {
      var sub := ScanFinds(lx, src, ts, i + 1);
      TokenOf(lx, src, ts, i);
      var at := Length(ts[..i]);
      assert src[at..][ts[i].len..] == src[at + ts[i].len..];
      ScanToken(lx, src[at..], ts, i, sub);
      r := if sub > 0 || EndsStatement(ts, i) then ts[i].len + sub else 0;
      forall k | 0 <= k < |ts| ensures ts[k].Token? && ts[k].len > 0 { assert ReadsAt(lx, src, ts, k); }
      LastEndStep(ts, i, sub, r);
    }
  }

  lemma LastEndStep(ts: seq<Token>, i: nat, sub: nat, r: nat)
    requires i < |ts| && (forall k :: 0 <= k < |ts| ==> ts[k].Token? && ts[k].len > 0) && Depth(ts[..i]) >= 0
    requires LastEnd(ts, i + 1, sub) && r == if sub > 0 || EndsStatement(ts, i) then ts[i].len + sub else 0
    ensures LastEnd(ts, i, r)
  {
    OneMore(ts, i);
    if j: nat :| i + 1 <= j && EndsStatement(ts, j) {
      var l: nat :| i + 1 <= l && EndsStatement(ts, l) && sub == Length(ts[..l + 1]) - Length(ts[..i + 1])
        && forall k: nat :: EndsStatement(ts, k) ==> k <= l;
      LengthsGrow(ts, i + 1, l + 1);
      assert r == Length(ts[..l + 1]) - Length(ts[..i]);
    } else if EndsStatement(ts, i) {
      assert r == Length(ts[..i + 1]) - Length(ts[..i]);
    }
  }

  // ---- a scan that succeeds has a reading ----------------------------------------------------

  /** The scan goes through on the text behind ts. */
  ghost predicate ScansOn(lx: Lexer, src: string, ts: seq<Token>) {
    && Begins(lx, src, ts) && NeverUnder(ts) && 0 <= Length(ts) <= |src|
    && Scan(lx, src[Length(ts)..], Depth(ts), SlashIsRegex(ts)).Some?
  }

  lemma ScanTakes(lx: Lexer, s: string, depth: nat, regexOk: bool)
    requires s != "" && Scan(lx, s, depth, regexOk).Some?
    ensures var t := lx(s, regexOk);
      && t.Token? && 0 < t.len <= |s| && DepthAfter(t.kind, depth).Some?
      && Scan(lx, s[t.len..], DepthAfter(t.kind, depth).value, RegexOkAfter(t.kind, depth, regexOk)).Some?
  {
  }

  lemma BeginsMore(lx: Lexer, src: string, ts: seq<Token>, t: Token)
    requires Begins(lx, src, ts) && 0 <= Length(ts) < |src|
    requires t == lx(src[Length(ts)..], SlashIsRegex(ts)) && t.Token? && 0 < t.len <= |src| - Length(ts)
    ensures Begins(lx, src, ts + [t])
  {
    hide Length, SlashIsRegex, Depth;
    var us := ts + [t];
    assert us[..|ts|] == ts;
    forall i | 0 <= i < |us| ensures ReadsAt(lx, src, us, i) {
      if i < |ts| { assert us[..i] == ts[..i] && us[i] == ts[i] && ReadsAt(lx, src, ts, i); }
    }
  }

  lemma NeverUnderMore(ts: seq<Token>, t: Token)
    requires NeverUnder(ts) && Depth(ts + [t]) >= 0
    ensures NeverUnder(ts + [t])
  {
    hide Depth;
    var us := ts + [t];
    assert us[..|us|] == us;
    forall i | 0 <= i <= |us| ensures Depth(us[..i]) >= 0 {
      if i <= |ts| { assert us[..i] == ts[..i]; }
    }
  }

  lemma TakeToken(lx: Lexer, src: string, ts: seq<Token>) returns (t: Token)
    requires ScansOn(lx, src, ts) && Length(ts) < |src|
    ensures ScansOn(lx, src, ts + [t]) && Length(ts + [t]) > Length(ts)
  {
    hide Scan, Begins, NeverUnder, Length, SlashIsRegex, Depth;
    var at := Length(ts);
    assert Depth(ts) >= 0 by { NonNegative(ts); }
    t := lx(src[at..], SlashIsRegex(ts));
    var us := ts + [t];
    assert us[..|ts|] == ts && us[..|us|] == us;
    ScanTakes(lx, src[at..], Depth(ts), SlashIsRegex(ts));
    OneMore(us, |ts|);
    BeginsMore(lx, src, ts, t);
    NeverUnderMore(ts, t);
    assert src[at..][t.len..] == src[at + t.len..];
  }

  lemma NonNegative(ts: seq<Token>)
    requires NeverUnder(ts)
    ensures Depth(ts) >= 0
  {
  }

  lemma {:induction false} ReadingOf(lx: Lexer, src: string, begun: seq<Token>) returns (ts: seq<Token>)
    requires ScansOn(lx, src, begun)
    ensures Reads(lx, src, ts) && Balanced(ts)
    decreases |src| - Length(begun)
  {
    if Length(begun) == |src| {
      ts := begun;
    } else {
      hide Scan, Length, Depth, SlashIsRegex;
      var t := TakeToken(lx, src, begun);
      ts := ReadingOf(lx, src, begun + [t]);
    }
  }

  /** The source's scan succeeds exactly on the texts with a balanced reading, and finds its last end. */
  lemma ScanIsLastEnd(lx: Lexer, src: string, r: nat)
    ensures Scan(lx, src, 0, true) == Some(r)
       <==> exists ts :: Reads(lx, src, ts) && Balanced(ts) && LastEnd(ts, 0, r)
  {
    assert src[0..] == src;
    if Scan(lx, src, 0, true) == Some(r) {
      var ts := ReadingOf(lx, src, []);
      assert ts[..0] == [];
      var found := ScanFinds(lx, src, ts, 0);
    }
    if ts :| Reads(lx, src, ts) && Balanced(ts) && LastEnd(ts, 0, r) {
      assert ts[..0] == [];
      var found := ScanFinds(lx, src, ts, 0);
      LastEndIsOne(ts, found, r);
    }
  }

  lemma LastEndIsOne(ts: seq<Token>, r: int, q: int)
    requires LastEnd(ts, 0, r) && LastEnd(ts, 0, q)
    ensures r == q
  {
  }

  // ---- the rewrite ---------------------------------------------------------------------------

  /** t is x without the blank space around it. */
  ghost predicate Trims(x: string, t: string) {
    && (exists i, j :: 0 <= i <= j <= |x| && t == x[i..j] && AllTrim(x[..i]) && AllTrim(x[j..]))
    && (t != "" ==> !TrimSpace(t[0]) && !TrimSpace(t[|t| - 1]))
  }

  /** The word w stands at the front of a text, as a whole. */
  predicate StartsWithWord(text: string, w: string) {
    w <= text && (|w| == |text| || !IdentPart(text[|w|]))
  }

  /** Not a block, and not a statement by its first word. */
  ghost predicate IsExpression(tail: string) {
    && tail != "" && tail[0] != '{'
    && forall w :: w in STMT_LEAD ==> !StartsWithWord(tail, w)
  }

  lemma {:induction false} IdentLenIs(s: string)
    ensures forall i :: 0 <= i < IdentLen(s) ==> IdentPart(s[i])
    ensures IdentLen(s) < |s| ==> !IdentPart(s[IdentLen(s)])
  {
    if s != "" && IdentPart(s[0]) {
      IdentLenIs(s[1..]);
      forall i | 0 <= i < IdentLen(s) ensures IdentPart(s[i]) {
        if i > 0 { assert s[i] == s[1..][i - 1]; }
      }
    }
  }

  predicate IsName(w: string) {
    w != "" && IdentStart(w[0]) && forall i :: 0 <= i < |w| ==> IdentPart(w[i])
  }

  lemma ExpressionIff(tail: string)
    ensures ExpressionTail(tail) <==> IsExpression(tail)
  {
    if tail != "" && tail[0] != '{' {
      IdentLenIs(tail);
      var n := IdentLen(tail);
      forall w | w in STMT_LEAD && StartsWithWord(tail, w)
        ensures IdentStart(tail[0]) && tail[..n] == w
      {
        LeadWordsAreNames(w);
        assert |w| == n;
      }
      if IdentStart(tail[0]) && tail[..n] in STMT_LEAD {
        assert StartsWithWord(tail, tail[..n]);
      }
    }
  }

  lemma LeadWordsAreNames(w: string)
    requires w in STMT_LEAD
    ensures IsName(w)
  {
  }

  lemma {:induction false} TrimStartIs(x: string) returns (i: nat)
    ensures i <= |x| && TrimStart(x) == x[i..] && AllTrim(x[..i])
    ensures TrimStart(x) != "" ==> !TrimSpace(TrimStart(x)[0])
  {
    if x != "" && TrimSpace(x[0]) {
      i := TrimStartIs(x[1..]);
      i := i + 1;
      forall k | 0 <= k < i ensures TrimSpace(x[..i][k]) {
        if k > 0 { assert x[..i][k] == x[1..][..i - 1][k - 1]; }
      }
    } else { i := 0; }
  }

  lemma {:induction false} TrimEndIs(x: string) returns (j: nat)
    ensures j <= |x| && TrimEnd(x) == x[..j] && AllTrim(x[j..])
    ensures TrimEnd(x) != "" ==> !TrimSpace(TrimEnd(x)[|TrimEnd(x)| - 1])
  {
    if x != "" && TrimSpace(x[|x| - 1]) {
      j := TrimEndIs(x[..|x| - 1]);
      forall k | 0 <= k < |x| - j ensures TrimSpace(x[j..][k]) {
        if k < |x| - j - 1 { assert x[j..][k] == x[..|x| - 1][j..][k]; }
      }
    } else { j := |x|; }
  }

  lemma TrimTrims(x: string)
    ensures Trims(x, TrimEnd(TrimStart(x)))
  {
    var i := TrimStartIs(x);
    var j := TrimEndIs(x[i..]);
    assert x[i..][..j] == x[i..i + j] && x[i..][j..] == x[i + j..];
    if j > 0 { assert x[i..i + j][0] == x[i..][0]; }
  }

  lemma TrimsIsOne(x: string, t: string, u: string)
    requires Trims(x, t) && Trims(x, u)
    ensures t == u
  {
    var i, j :| 0 <= i <= j <= |x| && t == x[i..j] && AllTrim(x[..i]) && AllTrim(x[j..]);
    var k, l :| 0 <= k <= l <= |x| && u == x[k..l] && AllTrim(x[..k]) && AllTrim(x[l..]);
    BlankOutside(x, i, j, k, l, t);
    BlankOutside(x, k, l, i, j, u);
  }

  /** Solid text between i and j is not reached by blank space that goes up to k or from l on. */
  lemma BlankOutside(x: string, i: nat, j: nat, k: nat, l: nat, t: string)
    requires i <= j <= |x| && k <= l <= |x| && t == x[i..j] && AllTrim(x[..k]) && AllTrim(x[l..])
    requires t != "" ==> !TrimSpace(t[0]) && !TrimSpace(t[|t| - 1])
    ensures t != "" ==> k <= i && j <= l
  {
    if t != "" {
      assert x[i] == t[0] && x[j - 1] == t[|t| - 1];
      assert forall m :: 0 <= m < k ==> TrimSpace(x[..k][m]) && x[..k][m] == x[m];
      assert forall m :: l <= m < |x| ==> TrimSpace(x[l..][m - l]) && x[l..][m - l] == x[m];
    }
  }

  /** The cell uses await, and behind its last statement, which ends at b, only an expression is left. */
  ghost predicate Completes(src: string, ts: seq<Token>, b: nat, tail: string) {
    && UsesAwait(src)
    && Reads(NextOf(KEYWORDS), src, ts) && Balanced(ts) && LastEnd(ts, 0, b)
    && 0 < b < |src| && Trims(src[b..], tail) && IsExpression(tail)
  }

  ghost predicate Completable(src: string) {
    exists ts, b: nat, tail :: Completes(src, ts, b, tail)
  }

  /**
   * A cell is rewritten if and only if it uses await as a word, its brackets balance, and what
   * follows its last statement is an expression; that expression is then what the cell returns,
   * and everything before it stays as it was.
   */
  lemma CompletionIff(src: string)
    ensures WrapAsyncCompletion(src) != src <==> Completable(src)
    ensures forall ts, b: nat, tail :: Completes(src, ts, b, tail) ==>
              WrapAsyncCompletion(src) == src[..b] + ";return (\n" + tail + "\n);"
  {
    forall ts, b: nat, tail | Completes(src, ts, b, tail)
      ensures WrapAsyncCompletion(src) == src[..b] + ";return (\n" + tail + "\n);"
      ensures WrapAsyncCompletion(src) != src
    {
      WhenCompletes(src, ts, b, tail);
    }
    if WrapAsyncCompletion(src) != src { WhenRewritten(src); }
  }

  lemma WhenCompletes(src: string, ts: seq<Token>, b: nat, tail: string)
    requires Completes(src, ts, b, tail)
    ensures WrapAsyncCompletion(src) == src[..b] + ";return (\n" + tail + "\n);" != src
  {
    hide Scan, Reads, Balanced, LastEnd, ExpressionTail, IsExpression, UsesAwait;
    ScanIsLastEnd(NextOf(KEYWORDS), src, b);
    TrimTrims(src[b..]);
    TrimsIsOne(src[b..], tail, TrimEnd(TrimStart(src[b..])));
    ExpressionIff(tail);
    var i, j :| 0 <= i <= j <= |src[b..]| && tail == src[b..][i..j] && AllTrim(src[b..][..i]) && AllTrim(src[b..][j..]);
    RewriteDiffers(src, b, tail, i, j);
  }

  /** Blank space around the tail cannot make up for what the rewrite adds, since it ends solid. */
  lemma RewriteDiffers(src: string, b: nat, tail: string, i: nat, j: nat)
    requires b < |src| && i <= j <= |src| - b && tail == src[b..][i..j]
    requires AllTrim(src[b..][..i]) && AllTrim(src[b..][j..])
    ensures src[..b] + ";return (\n" + tail + "\n);" != src
  {
    var out := src[..b] + (";return (\n" + tail + "\n);");
    assert out == src[..b] + ";return (\n" + tail + "\n);";
    assert out[b] == ';' && out[|out| - 1] == ';';
    if |out| == |src| {
      if i > 0 { assert src[b] == src[b..][..i][0]; }
      else { assert j < |src| - b && src[|src| - 1] == src[b..][j..][|src| - b - j - 1]; }
    }
  }

  lemma WhenRewritten(src: string)
    requires WrapAsyncCompletion(src) != src
    ensures Completable(src)
  {
    hide Scan, Reads, Balanced, LastEnd, ExpressionTail, IsExpression, UsesAwait;
    var b := Scan(NextOf(KEYWORDS), src, 0, true).value;
    ScanIsLastEnd(NextOf(KEYWORDS), src, b);
    var ts :| Reads(NextOf(KEYWORDS), src, ts) && Balanced(ts) && LastEnd(ts, 0, b);
    var tail := TrimEnd(TrimStart(src[b..]));
    TrimTrims(src[b..]);
    ExpressionIff(tail);
    assert Completes(src, ts, b, tail);
  }

  // ---- two cells -----------------------------------------------------------------------------

  /** The tokens read so far, how long they are and how deep they end. */
  ghost predicate SoFar(lx: Lexer, src: string, ts: seq<Token>, n: nat, d: nat) {
    Begins(lx, src, ts) && NeverUnder(ts) && Length(ts) == n && Depth(ts) == d
  }

  /** A token that reads the same wherever a slash stands for a regular expression and where not. */
  lemma ReadOne(lx: Lexer, src: string, ts: seq<Token>, n: nat, d: nat, t: Token)
    requires SoFar(lx, src, ts, n, d) && n < |src| && t.Token? && 0 < t.len <= |src| - n
    requires lx(src[n..], true) == lx(src[n..], false) == t && DepthAfter(t.kind, d).Some?
    ensures SoFar(lx, src, ts + [t], n + t.len, DepthAfter(t.kind, d).value)
  {
    hide Length, Depth, SlashIsRegex;
    var us := ts + [t];
    assert us[..|ts|] == ts && us[..|us|] == us;
    assert lx(src[n..], SlashIsRegex(ts)) == t;
    OneMore(us, |ts|);
    BeginsMore(lx, src, ts, t);
    NeverUnderMore(ts, t);
  }

  lemma WordToken(kw: Words, s: string, n: nat, ok: bool)
    requires s != "" && IdentStart(s[0]) && IdentLen(s[1..]) == n
    ensures Next(kw, s, ok) == Token(1 + n, Word(kw(s[..1 + n])))
  {
  }

  lemma AwaitToken(s: string, ok: bool)
    requires |s| >= 6 && s[..5] == "await" && !IdentPart(s[5])
    ensures Next(KEYWORDS, s, ok) == Token(5, Word(true))
  {
    assert s[0] == 'a' && s[1] == 'w' && s[2] == 'a' && s[3] == 'i' && s[4] == 't';
    assert IdentLen(s[5..]) == 0;
    assert s[4..][1..] == s[5..] && s[3..][1..] == s[4..] && s[2..][1..] == s[3..] && s[1..][1..] == s[2..];
    assert IdentLen(s[4..]) == 1;
    assert IdentLen(s[3..]) == 2;
    WordToken(KEYWORDS, s, 4, ok);
  }

  lemma NameToken(s: string, ok: bool)
    requires s == "f();x" || s == "x"
    ensures Next(KEYWORDS, s, ok) == Token(1, Word(false))
  {
    assert IdentLen(s[1..]) == 0;
    WordToken(KEYWORDS, s, 0, ok);
    assert s[..1] == "f" || s[..1] == "x";
  }

  lemma SignToken(s: string, kind: Kind)
    requires s != ""
    requires (s[0] == ' ' && kind == Trivia) || (s[0] == '(' && kind == Open) || (s[0] == ')' && kind == CloseOther)
      || (s[0] == ';' && kind == Semi)
    ensures Next(KEYWORDS, s, true) == Next(KEYWORDS, s, false) == Token(1, kind)
  {
    hide SkipString, SkipRegexBody;
  }

  const AWAIT_CELL: string := "await f();x"

  lemma AwaitFront() returns (ts: seq<Token>)
    ensures SoFar(NextOf(KEYWORDS), AWAIT_CELL, ts, 7, 0)
    ensures |ts| == 3 && forall i :: 0 <= i < 3 ==> ts[i].Token? && !ts[i].kind.Semi? && !ts[i].kind.CloseCurly?
  {
    hide Next, Begins, NeverUnder;
    var lx := NextOf(KEYWORDS);
    NothingRead(lx, AWAIT_CELL);
    assert AWAIT_CELL[0..] == AWAIT_CELL && AWAIT_CELL[6..] == "f();x" && AWAIT_CELL[5..][0] == ' ';
    AwaitToken(AWAIT_CELL, true);
    AwaitToken(AWAIT_CELL, false);
    ReadOne(lx, AWAIT_CELL, [], 0, 0, Token(5, Word(true)));
    SignToken(AWAIT_CELL[5..], Trivia);
    ts := [] + [Token(5, Word(true))];
    ReadOne(lx, AWAIT_CELL, ts, 5, 0, Token(1, Trivia));
    ts := ts + [Token(1, Trivia)];
    NameToken("f();x", true);
    NameToken("f();x", false);
    ReadOne(lx, AWAIT_CELL, ts, 6, 0, Token(1, Word(false)));
    ts := ts + [Token(1, Word(false))];
  }

  lemma NothingRead(lx: Lexer, src: string)
    ensures SoFar(lx, src, [], 0, 0)
  {
  }

  lemma AwaitMiddle(front: seq<Token>) returns (ts: seq<Token>)
    requires SoFar(NextOf(KEYWORDS), AWAIT_CELL, front, 7, 0)
    ensures SoFar(NextOf(KEYWORDS), AWAIT_CELL, ts, 10, 0)
    ensures ts == front + [Token(1, Open), Token(1, CloseOther), Token(1, Semi)]
  {
    hide Next, Begins, NeverUnder;
    var lx := NextOf(KEYWORDS);
    SignToken(AWAIT_CELL[7..], Open);
    ReadOne(lx, AWAIT_CELL, front, 7, 0, Token(1, Open));
    ts := front + [Token(1, Open)];
    SignToken(AWAIT_CELL[8..], CloseOther);
    ReadOne(lx, AWAIT_CELL, ts, 8, 1, Token(1, CloseOther));
    ts := ts + [Token(1, CloseOther)];
    SignToken(AWAIT_CELL[9..], Semi);
    ReadOne(lx, AWAIT_CELL, ts, 9, 0, Token(1, Semi));
    ts := ts + [Token(1, Semi)];
  }

  lemma AwaitCell() returns (ts: seq<Token>)
    ensures Reads(NextOf(KEYWORDS), AWAIT_CELL, ts) && Balanced(ts) && LastEnd(ts, 0, 10)
  {
    hide Next;
    var lx := NextOf(KEYWORDS);
    var front := AwaitFront();
    var cut := AwaitMiddle(front);
    assert AWAIT_CELL[10..] == "x";
    NameToken("x", true);
    NameToken("x", false);
    ReadOne(lx, AWAIT_CELL, cut, 10, 0, Token(1, Word(false)));
    ts := cut + [Token(1, Word(false))];
    FirstEnd(ts, cut);
  }

  /** The semicolon that cut ends with is the last end of a statement. */
  lemma FirstEnd(ts: seq<Token>, cut: seq<Token>)
    requires |cut| == 6 && cut[5] == Token(1, Semi) && ts == cut + [Token(1, Word(false))]
    requires Length(cut) == 10 && Depth(cut) == 0
    ensures LastEnd(ts, 0, 10)
  {
    hide Length, Depth;
    assert ts[..6] == cut && ts[..0] == [];
    EmptyLength();
    assert EndsStatement(ts, 5);
  }

  lemma AwaitCompletes(ts: seq<Token>)
    requires Reads(NextOf(KEYWORDS), AWAIT_CELL, ts) && Balanced(ts) && LastEnd(ts, 0, 10)
    ensures Completes(AWAIT_CELL, ts, 10, "x")
  {
    hide Reads, Balanced, LastEnd;
    assert AwaitAt(AWAIT_CELL, 0) by { assert AWAIT_CELL[0..5] == "await"; }
    assert AWAIT_CELL[10..] == "x" && "x"[0..1] == "x";
    assert Trims("x", "x");
    forall w | w in STMT_LEAD ensures !StartsWithWord("x", w) { LeadWordsAreLong(w); }
  }

  lemma LeadWordsAreLong(w: string)
    requires w in STMT_LEAD
    ensures |w| >= 2
  {
  }

  /** A call that is awaited before the last expression: the expression becomes the cell's value. */
  lemma AwaitedCellReturns()
    ensures WrapAsyncCompletion("await f();x") == "await f();;return (\nx\n);"
  {
    hide Completes, WrapAsyncCompletion, Reads, Balanced, LastEnd;
    var ts := AwaitCell();
    AwaitCompletes(ts);
    CompletionIff(AWAIT_CELL);
    assert AWAIT_CELL[..10] == "await f();";
  }

  lemma EmptyLength()
    ensures Length([]) == 0
  {
  }

  /** Without await, or with no more than a word that contains it, a cell is left alone. */
  lemma OtherCellsStay()
    ensures WrapAsyncCompletion("f();x") == "f();x"
    ensures WrapAsyncCompletion("awaits;x") == "awaits;x"
  {
    var p, q := "f();x", "awaits;x";
    forall i | 0 <= i < |p| ensures !AwaitAt(p, i) {
      if i == 0 { assert p[0..5][0] == 'f'; }
    }
    forall i | 0 <= i < |q| ensures !AwaitAt(q, i) {
      if 0 < i <= 3 { assert q[i..i + 5][0] == q[i] != 'a' || q[i..i + 5][1] == q[i + 1] != 'w'; }
    }
  }
}
