/**
 * scanTopLevel (apps/kernel/src/repl-transform.ts) over any way of reading tokens that has the
 * properties ReplTokens proves of its own: what a scan does after a cut, and one level deeper.
 */
module ReplScan {
  import opened Prelude
  import opened ReplTokens

  /** The depth after a token, when the scan goes on. */
  function DepthAfter(kind: Kind, depth: nat): Option<nat> {
    match kind
    case Open => Some(depth + 1)
    case CloseCurly => if depth == 0 then None else Some(depth - 1)
    case CloseOther => if depth == 0 then None else Some(depth - 1)
    case _ => Some(depth)
  }

  /** A depth-0 statement boundary: a semicolon, or a brace that returns to depth 0. */
  predicate IsBoundary(kind: Kind, depth: nat) {
    (kind.Semi? && depth == 0) || (kind.CloseCurly? && depth == 1)
  }

  function RegexOkAfter(kind: Kind, depth: nat, regexOk: bool): bool {
    match kind
    case Trivia => regexOk
    case Val => false
    case Oper => true
    case Open => true
    case CloseCurly => depth == 1
    case CloseOther => false
    case Semi => true
    case Word(keyword) => keyword
  }

  /**
   * scanTopLevel on the rest of a text: None when it is unbalanced or exotic, otherwise the end of
   * the last depth-0 boundary, 0 when there is none.
   */
  function Scan(lx: Lexer, s: string, depth: nat, regexOk: bool): (r: Option<nat>)
    ensures r.Some? ==> r.value <= |s|
    decreases |s|
  {
    if s == "" then (if depth == 0 then Some(0) else None)
    else
      var t := lx(s, regexOk);
      if t.Bad? || t.len == 0 || t.len > |s| then None
      else
        var d := DepthAfter(t.kind, depth);
        if d.None? then None
        else
          var rest := Scan(lx, s[t.len..], d.value, RegexOkAfter(t.kind, depth, regexOk));
          if rest.None? then None
          else if rest.value > 0 || IsBoundary(t.kind, depth) then Some(t.len + rest.value)
          else Some(0)
  }

  // ---- what is used of the tokens ------------------------------------------------------------

  ghost predicate Sized(lx: Lexer) {
    forall s, ok :: s != "" && lx(s, ok).Token? ==> 0 < lx(s, ok).len <= |s|
  }

  /** A token that ends inside two texts is the same in both. */
  ghost predicate Local(lx: Lexer) {
    forall s, t, ok :: EndsInside(lx, s, t, ok) ==> lx(t, ok) == lx(s, ok)
  }

  ghost predicate SameFirst(lx: Lexer, s: string, u: string, ok: bool) {
    && s != "" && u != "" && s[0] == u[0]
    && lx(s, ok).Token? && (lx(s, ok).kind.Semi? || lx(s, ok).kind.CloseCurly?)
  }

  ghost predicate OneCharBoundaries(lx: Lexer) {
    forall s, u, ok :: SameFirst(lx, s, u, ok) ==> lx(s, ok).len == 1 && lx(u, ok) == lx(s, ok)
  }

  ghost predicate Blanks(lx: Lexer) {
    forall x, ok :: x != "" && TrimSpace(x[0]) ==> lx(x, ok) == Token(1, Trivia) || lx(x, ok) == Token(1, Oper)
  }

  ghost predicate Edges(lx: Lexer) {
    forall t, x, ok :: AtEdge(lx, t, x, ok) ==> ReadsAtEdge(lx, t, lx(t + x, ok).kind, ok)
  }

  /** The punctuation and the word the rewrite inserts. */
  ghost predicate Inserted(lx: Lexer) {
    && (forall s, ok :: s != "" && s[0] == ';' ==> lx(s, ok) == Token(1, Semi))
    && (forall s, ok :: s != "" && s[0] == '(' ==> lx(s, ok) == Token(1, Open))
    && (forall s, ok :: s != "" && s[0] == ')' ==> lx(s, ok) == Token(1, CloseOther))
    && (forall s, ok :: s != "" && (s[0] == ' ' || s[0] == '\n') ==> lx(s, ok) == Token(1, Trivia))
    && (forall s :: |s| > 6 && s[..6] == "return" && s[6] == ' ' ==> lx(s, true) == Token(6, Word(true)))
  }

  ghost predicate Lexes(lx: Lexer) {
    Sized(lx) && Local(lx) && OneCharBoundaries(lx) && Blanks(lx) && Edges(lx) && Inserted(lx)
  }

  /** One turn of the scan over b, whose first token is r and whose rest scans as sub. */
  lemma StepTo(lx: Lexer, b: string, depth: nat, regexOk: bool, r: Token, sub: Option<nat>)
    requires b != "" && r == lx(b, regexOk) && r.Token? && 0 < r.len <= |b| && DepthAfter(r.kind, depth).Some?
    requires Scan(lx, b[r.len..], DepthAfter(r.kind, depth).value, RegexOkAfter(r.kind, depth, regexOk)) == sub
    ensures Scan(lx, b, depth, regexOk)
         == if sub.None? then None
            else if sub.value > 0 || IsBoundary(r.kind, depth) then Some(r.len + sub.value) else Some(0)
  {
  }

  /** Moving a found boundary by n characters of text without one. */
  function Further(n: nat, r: Option<nat>): Option<nat> {
    if r.None? || r.value == 0 then r else Some(n + r.value)
  }

  // ---- the part before the last boundary -----------------------------------------------------

  /** A text that starts with its last boundary. */
  lemma BoundaryFirst(lx: Lexer, s: string, depth: nat, regexOk: bool, u: string, r: Option<nat>)
    requires OneCharBoundaries(lx)
    requires s != "" && lx(s, regexOk).Token? && IsBoundary(lx(s, regexOk).kind, depth)
    requires u != "" && u[0] == s[0] && Scan(lx, u[1..], 0, true) == r
    ensures lx(s, regexOk).len == 1 && Scan(lx, u, depth, regexOk) == Plus(1, r)
  {
    assert SameFirst(lx, s, u, regexOk);
    StepTo(lx, u, depth, regexOk, lx(s, regexOk), r);
  }

  /** A text whose first token ends before b, continued differently from b on. */
  lemma TokenFirst(lx: Lexer, depth: nat, regexOk: bool, b: nat, u: string, r: Option<nat>, t: Token, d: nat, ok: bool)
    requires u != "" && t == lx(u, regexOk) && t.Token? && 0 < t.len < b <= |u|
    requires DepthAfter(t.kind, depth) == Some(d) && RegexOkAfter(t.kind, depth, regexOk) == ok
    requires Scan(lx, u[t.len..], d, ok) == Plus(b - t.len, r)
    ensures Scan(lx, u, depth, regexOk) == Plus(b, r)
  {
    StepTo(lx, u, depth, regexOk, t, Plus(b - t.len, r));
  }

  lemma SameTokenInside(lx: Lexer, s: string, regexOk: bool, b: nat, u: string)
    requires Local(lx) && s != "" && lx(s, regexOk).Token? && 0 < lx(s, regexOk).len < b <= |s|
    requires b <= |u| && u[..b] == s[..b]
    ensures lx(u, regexOk) == lx(s, regexOk)
  {
    var n := lx(s, regexOk).len;
    assert s[..n + 1] == s[..b][..n + 1] == u[..n + 1];
    assert EndsInside(lx, s, u, regexOk);
  }

  /** A scan that finds a boundary: its first token, and what the rest of it found. */
  lemma FirstTurn(lx: Lexer, s: string, depth: nat, regexOk: bool) returns (t: Token, d: nat, ok: bool, sub: nat)
    requires Scan(lx, s, depth, regexOk).Some? && Scan(lx, s, depth, regexOk).value > 0
    ensures s != "" && t == lx(s, regexOk) && t.Token? && 0 < t.len <= |s|
    ensures DepthAfter(t.kind, depth) == Some(d) && RegexOkAfter(t.kind, depth, regexOk) == ok
    ensures Scan(lx, s[t.len..], d, ok) == Some(sub) && Scan(lx, s, depth, regexOk) == Some(t.len + sub)
    ensures sub == 0 ==> IsBoundary(t.kind, depth) && d == 0 && ok
  {
    t := lx(s, regexOk);
    d := DepthAfter(t.kind, depth).value;
    ok := RegexOkAfter(t.kind, depth, regexOk);
    sub := Scan(lx, s[t.len..], d, ok).value;
  }

  /** Past its last boundary, at b, the scan is at depth 0, and it gets there whatever follows. */
  lemma {:induction false} BoundarySplits(
    lx: Lexer, s: string, depth: nat, regexOk: bool, b: nat, rest: string, r: Option<nat>)
    requires Local(lx) && OneCharBoundaries(lx)
    requires Scan(lx, s, depth, regexOk) == Some(b) && 0 < b <= |s| && Scan(lx, rest, 0, true) == r
    ensures Scan(lx, s[b..], 0, true) == Some(0) && Scan(lx, s[..b] + rest, depth, regexOk) == Plus(b, r)
    decreases |s|
  {
    hide Scan;
    var t, d, ok, sub := FirstTurn(lx, s, depth, regexOk);
    var u := s[..b] + rest;
    if sub == 0 {
      BoundaryFirst(lx, s, depth, regexOk, s, Some(0));
      assert u[1..] == rest;
      BoundaryFirst(lx, s, depth, regexOk, u, r);
    } else {
      BoundarySplits(lx, s[t.len..], d, ok, sub, rest, r);
      assert s[t.len..][..sub] + rest == u[t.len..] && s[t.len..][sub..] == s[b..];
      SameTokenInside(lx, s, regexOk, b, u);
      TokenFirst(lx, depth, regexOk, b, u, r, t, d, ok);
    }
  }

  // ---- the part after it ---------------------------------------------------------------------

  lemma {:induction false} ScanBlank(lx: Lexer, x: string, depth: nat, regexOk: bool)
    requires Blanks(lx) && AllTrim(x)
    ensures Scan(lx, x, depth, regexOk) == if depth == 0 then Some(0) else None
    decreases |x|
  {
    if x != "" {
      var t := lx(x, regexOk);
      ScanBlank(lx, x[1..], depth, RegexOkAfter(t.kind, depth, regexOk));
    }
  }

  lemma ScanClose(lx: Lexer, regexOk: bool)
    requires Inserted(lx)
    ensures Scan(lx, CLOSE, 1, regexOk) == Some(3)
  {
    var u1, u2 := CLOSE[1..], CLOSE[1..][1..];
    assert u1 == ");" && u2 == ";" && u2[1..] == "";
    assert Scan(lx, "", 0, true) == Some(0);
    assert Scan(lx, u2, 0, false) == Some(1);
    assert Scan(lx, u1, 1, regexOk) == Some(2);
  }

  /** One level deeper, a token that is no boundary moves the scan the same way. */
  lemma DeeperStep(kind: Kind, depth: nat, regexOk: bool)
    requires DepthAfter(kind, depth).Some? && !IsBoundary(kind, depth)
    ensures DepthAfter(kind, depth + 1) == Some(DepthAfter(kind, depth).value + 1)
    ensures RegexOkAfter(kind, depth + 1, regexOk) == RegexOkAfter(kind, depth, regexOk)
    ensures !IsBoundary(kind, depth + 1)
  {
  }

  /** A scan to the end without a boundary: its first token is none, nor does the rest find one. */
  lemma QuietTurn(lx: Lexer, s: string, depth: nat, regexOk: bool) returns (t: Token, d: nat, ok: bool)
    requires s != "" && Scan(lx, s, depth, regexOk) == Some(0)
    ensures t == lx(s, regexOk) && t.Token? && 0 < t.len <= |s| && !IsBoundary(t.kind, depth)
    ensures DepthAfter(t.kind, depth) == Some(d) && RegexOkAfter(t.kind, depth, regexOk) == ok
    ensures Scan(lx, s[t.len..], d, ok) == Some(0)
  {
    t := lx(s, regexOk);
    d := DepthAfter(t.kind, depth).value;
    ok := RegexOkAfter(t.kind, depth, regexOk);
  }

  /** What closing a tail of length n can give. */
  predicate ClosesAtEnd(r: Option<nat>, n: nat) {
    r.None? || r == Some(n)
  }

  /** The last token of a tail, before blank space and before CLOSE. */
  lemma MirrorEdge(lx: Lexer, t: string, x: string, depth: nat, regexOk: bool, r: Option<nat>)
    requires Lexes(lx) && AtEdge(lx, t, x, regexOk) && Scan(lx, t + x, depth, regexOk) == Some(0)
    requires Scan(lx, t + CLOSE, depth + 1, regexOk) == r
    ensures ClosesAtEnd(r, |t| + 3)
  {
    var tok, d, ok := QuietTurn(lx, t + x, depth, regexOk);
    var q := lx(t + CLOSE, regexOk);
    assert ReadsAtEdge(lx, t, tok.kind, regexOk);
    if q == Token(|t|, tok.kind) {
      assert (t + x)[tok.len..] == x[tok.len - |t|..];
      ScanBlank(lx, x[tok.len - |t|..], d, ok);
      EdgeCloses(lx, t, depth, regexOk, q, r);
    } else if q.Token? {
      EdgeSwallows(lx, t, depth, regexOk, q, r);
    }
  }

  /** The last token is the same before CLOSE, which then closes the tail. */
  lemma EdgeCloses(lx: Lexer, t: string, depth: nat, regexOk: bool, q: Token, r: Option<nat>)
    requires Inserted(lx) && t != "" && q == lx(t + CLOSE, regexOk) && q.Token? && q.len == |t|
    requires DepthAfter(q.kind, depth) == Some(0) && !IsBoundary(q.kind, depth)
    requires Scan(lx, t + CLOSE, depth + 1, regexOk) == r
    ensures r == Some(|t| + 3)
  {
    hide Scan;
    DeeperStep(q.kind, depth, regexOk);
    var ok := RegexOkAfter(q.kind, depth + 1, regexOk);
    assert (t + CLOSE)[|t|..] == CLOSE;
    ScanClose(lx, ok);
    StepTo(lx, t + CLOSE, depth + 1, regexOk, q, Some(3));
  }

  /** The last token takes CLOSE with it, and the scan ends unbalanced. */
  lemma EdgeSwallows(lx: Lexer, t: string, depth: nat, regexOk: bool, q: Token, r: Option<nat>)
    requires t != "" && q == lx(t + CLOSE, regexOk) && q.Token? && q.len == |t| + 3 && (q.kind.Trivia? || q.kind.Val?)
    requires Scan(lx, t + CLOSE, depth + 1, regexOk) == r
    ensures r == None
  {
    assert (t + CLOSE)[q.len..] == "";
    StepTo(lx, t + CLOSE, depth + 1, regexOk, q, None);
  }

  /** A token before the last one of a tail does not depend on what follows the tail. */
  lemma TokenInside(lx: Lexer, t: string, x: string, y: string, regexOk: bool, n: nat)
    requires Local(lx) && lx(t + x, regexOk).Token? && lx(t + x, regexOk).len == n
    requires 0 < n < |t|
    ensures lx(t + y, regexOk) == lx(t + x, regexOk)
    ensures (t + x)[n..] == t[n..] + x && (t + y)[n..] == t[n..] + y
  {
    assert (t + x)[..n + 1] == t[..n + 1] == (t + y)[..n + 1];
    assert EndsInside(lx, t + x, t + y, regexOk);
  }

  /** One turn of the tail, one level deeper. */
  lemma DeeperTurn(lx: Lexer, b: string, tok: Token, depth: nat, regexOk: bool, d: nat, ok: bool, sub: Option<nat>)
    requires b != "" && lx(b, regexOk) == tok && tok.Token? && 0 < tok.len <= |b|
    requires !IsBoundary(tok.kind, depth) && DepthAfter(tok.kind, depth) == Some(d)
    requires RegexOkAfter(tok.kind, depth, regexOk) == ok && Scan(lx, b[tok.len..], d + 1, ok) == sub
    ensures Scan(lx, b, depth + 1, regexOk) == Further(tok.len, sub)
  {
    hide Scan;
    DeeperStep(tok.kind, depth, regexOk);
    StepTo(lx, b, depth + 1, regexOk, tok, sub);
  }

  /**
   * The mirror: a tail scanned to the end at some depth without a boundary is, one level deeper
   * and closed by CLOSE, either unbalanced or ends with a boundary at its very end.
   */
  lemma {:induction false} TailMirrors(lx: Lexer, t: string, x: string, depth: nat, regexOk: bool, r: Option<nat>)
    requires Lexes(lx) && (t == "" || Solid(t)) && AllTrim(x)
    requires Scan(lx, t + x, depth, regexOk) == Some(0)
    requires Scan(lx, t + CLOSE, depth + 1, regexOk) == r
    ensures ClosesAtEnd(r, |t| + 3)
    decreases |t|
  {
    hide Scan;
    var a := t + x;
    if t == "" {
      assert a == x && t + CLOSE == CLOSE;
      ScanBlank(lx, x, depth, regexOk);
      ScanClose(lx, regexOk);
    } else if lx(a, regexOk).Token? && lx(a, regexOk).len >= |t| {
      MirrorEdge(lx, t, x, depth, regexOk, r);
    } else {
      var tok, d, ok := QuietTurn(lx, a, depth, regexOk);
      var sub := Scan(lx, t[tok.len..] + CLOSE, d + 1, ok);
      TokenInside(lx, t, x, CLOSE, regexOk, tok.len);
      DeeperTurn(lx, t + CLOSE, tok, depth, regexOk, d, ok, sub);
      TailMirrors(lx, t[tok.len..], x, d, ok, sub);
    }
  }

  // ---- around the rewrite --------------------------------------------------------------------

  function TrimStart(s: string): string {
    if s != "" && TrimSpace(s[0]) then TrimStart(s[1..]) else s
  }

  function TrimEnd(s: string): string {
    if s != "" && TrimSpace(s[|s| - 1]) then TrimEnd(s[..|s| - 1]) else s
  }

  lemma {:induction false} TrimStartScans(lx: Lexer, s: string)
    requires Blanks(lx) && Scan(lx, s, 0, true) == Some(0)
    ensures Scan(lx, TrimStart(s), 0, true) == Some(0)
    decreases |s|
  {
    if s != "" && TrimSpace(s[0]) {
      var t := lx(s, true);
      assert Scan(lx, s[1..], 0, true) == Some(0);
      TrimStartScans(lx, s[1..]);
    }
  }

  lemma {:induction false} TrimEndSplits(s: string) returns (x: string)
    ensures s == TrimEnd(s) + x && AllTrim(x) && (TrimEnd(s) == "" || Solid(TrimEnd(s)))
  {
    if s != "" && TrimSpace(s[|s| - 1]) {
      var y := TrimEndSplits(s[..|s| - 1]);
      x := y + [s[|s| - 1]];
      assert s == s[..|s| - 1] + [s[|s| - 1]];
    } else {
      x := "";
    }
  }

  const OPEN: string := ";return (\n"

  lemma OpenParenScans(lx: Lexer, rest: string, r: Option<nat>)
    requires lx(" (\n" + rest, true) == Token(1, Trivia)
    requires lx("(\n" + rest, true) == Token(1, Open)
    requires lx("\n" + rest, true) == Token(1, Trivia)
    requires Scan(lx, rest, 1, true) == r
    ensures Scan(lx, " (\n" + rest, 0, true) == Further(3, r)
  {
    hide Scan;
    var u2, u3, u4 := " (\n" + rest, "(\n" + rest, "\n" + rest;
    assert u2[1..] == u3 && u3[1..] == u4 && u4[1..] == rest;
    StepTo(lx, u4, 1, true, Token(1, Trivia), r);
    StepTo(lx, u3, 0, true, Token(1, Open), Further(1, r));
    StepTo(lx, u2, 0, true, Token(1, Trivia), Further(2, r));
  }

  lemma ReturnScans(lx: Lexer, rest: string, r: Option<nat>)
    requires lx("return (\n" + rest, true) == Token(6, Word(true))
    requires Scan(lx, " (\n" + rest, 0, true) == Further(3, r)
    ensures Scan(lx, "return (\n" + rest, 0, true) == Further(9, r)
  {
    var u := "return (\n" + rest;
    assert u[6..] == " (\n" + rest;
    StepTo(lx, u, 0, true, Token(6, Word(true)), Further(3, r));
  }

  /** What the inserted text gives, when what follows its open parenthesis gives r. */
  function Opened(r: Option<nat>): Option<nat> {
    if r.None? then None else Some(if r.value == 0 then 1 else 10 + r.value)
  }

  lemma SemiScans(lx: Lexer, rest: string, r: Option<nat>)
    requires lx(OPEN + rest, true) == Token(1, Semi)
    requires Scan(lx, "return (\n" + rest, 0, true) == Further(9, r)
    ensures Scan(lx, OPEN + rest, 0, true) == Opened(r)
  {
    var u := OPEN + rest;
    assert u[1..] == "return (\n" + rest;
    StepTo(lx, u, 0, true, Token(1, Semi), Further(9, r));
  }

  /** The inserted return statement is scanned up to its open parenthesis. */
  lemma OpenScans(lx: Lexer, rest: string, r: Option<nat>)
    requires Inserted(lx) && Scan(lx, rest, 1, true) == r
    ensures Scan(lx, OPEN + rest, 0, true) == Opened(r)
  {
    hide Scan;
    var u := "return (\n" + rest;
    assert u[..6] == "return" && u[6] == ' ';
    OpenParenScans(lx, rest, r);
    ReturnScans(lx, rest, r);
    SemiScans(lx, rest, r);
  }

  function Wrapped(head: string, tail: string): string {
    head + OPEN + tail + CLOSE
  }

  /** The text after the last boundary, trimmed and closed. */
  lemma TailCloses(lx: Lexer, after: string, r: Option<nat>)
    requires Lexes(lx) && Scan(lx, after, 0, true) == Some(0)
    requires Scan(lx, TrimEnd(TrimStart(after)) + CLOSE, 1, true) == r
    ensures ClosesAtEnd(r, |TrimEnd(TrimStart(after))| + 3)
  {
    hide Scan;
    TrimStartScans(lx, after);
    var x := TrimEndSplits(TrimStart(after));
    TailMirrors(lx, TrimEnd(TrimStart(after)), x, 0, true, r);
  }

  lemma WrappedShape(head: string, tail: string)
    ensures Wrapped(head, tail) == head + (OPEN + (tail + CLOSE))
  {
  }

  lemma EndsMeet(head: string, tail: string, closed: Option<nat>, r: Option<nat>)
    requires head != "" && ClosesAtEnd(closed, |tail| + 3) && r == Plus(|head|, Opened(closed))
    ensures ClosesAtEnd(r, |Wrapped(head, tail)|)
  {
  }

  /** The rewritten text scans as far as its tail, one level deeper, lets it. */
  lemma RewrittenScan(lx: Lexer, src: string, b: nat, tail: string, closed: Option<nat>)
    requires Local(lx) && OneCharBoundaries(lx) && Inserted(lx)
    requires Scan(lx, src, 0, true) == Some(b) && 0 < b <= |src|
    requires Scan(lx, tail + CLOSE, 1, true) == closed
    ensures Scan(lx, src[b..], 0, true) == Some(0)
    ensures Scan(lx, Wrapped(src[..b], tail), 0, true) == Plus(b, Opened(closed))
  {
    OpenScans(lx, tail + CLOSE, closed);
    WrappedShape(src[..b], tail);
    BoundarySplits(lx, src, 0, true, b, OPEN + (tail + CLOSE), Opened(closed));
  }

  lemma RewrittenCloses(lx: Lexer, head: string, after: string, closed: Option<nat>, r: Option<nat>)
    requires Lexes(lx) && head != "" && Scan(lx, after, 0, true) == Some(0)
    requires Scan(lx, TrimEnd(TrimStart(after)) + CLOSE, 1, true) == closed && r == Plus(|head|, Opened(closed))
    ensures ClosesAtEnd(r, |Wrapped(head, TrimEnd(TrimStart(after)))|)
  {
    TailCloses(lx, after, closed);
    EndsMeet(head, TrimEnd(TrimStart(after)), closed, r);
  }

  /** A rewritten cell rescans as unbalanced, or with its last boundary at its very end. */
  lemma RewrittenRescans(lx: Lexer, src: string, b: nat, tail: string, out: string, r: Option<nat>)
    requires Lexes(lx) && Scan(lx, src, 0, true) == Some(b) && 0 < b <= |src|
    requires tail == TrimEnd(TrimStart(src[b..])) && out == Wrapped(src[..b], tail)
    requires Scan(lx, out, 0, true) == r
    ensures ClosesAtEnd(r, |out|)
  {
    var closed := Scan(lx, tail + CLOSE, 1, true);
    RewrittenScan(lx, src, b, tail, closed);
    RewrittenCloses(lx, src[..b], src[b..], closed, r);
  }
}
