/**
 * The tokens of the REPL source scanners (apps/kernel/src/repl-transform.ts): strings with
 * template holes, regular expressions, comments and words, each as consumption of the remaining
 * text, and what reading one token depends on. The loops over one cursor are in ReplLoops.
 */
module ReplTokens {
  import opened Prelude

  // ---- characters ----------------------------------------------------------------------------

  predicate IdentStart(c: char) {
    'A' <= c <= 'Z' || 'a' <= c <= 'z' || c == '_' || c == '$'
  }

  predicate IdentPart(c: char) {
    IdentStart(c) || '0' <= c <= '9'
  }

  predicate ScanSpace(c: char) {
    c == ' ' || c == '\t' || c == '\r' || c == '\n'
  }

  /** What String.prototype.trim removes. */
  predicate TrimSpace(c: char) {
    || ScanSpace(c) || c == '\U{000B}' || c == '\U{000C}' || c == '\U{00A0}' || c == '\U{FEFF}'
    || c == '\U{1680}' || '\U{2000}' <= c <= '\U{200A}' || c == '\U{2028}' || c == '\U{2029}'
    || c == '\U{202F}' || c == '\U{205F}' || c == '\U{3000}'
  }

  predicate Quote(c: char) {
    c == '"' || c == '\'' || c == '`'
  }

  // ---- the skippers: how much of the text they consume ---------------------------------------

  function SkipLine(s: string): (k: nat)
    ensures k <= |s|
  {
    if s == "" || s[0] == '\n' then 0 else 1 + SkipLine(s[1..])
  }

  /** After the opening of a block comment; an unterminated one takes everything. */
  function SkipBlock(s: string): (k: nat)
    ensures k <= |s|
  {
    if s == "" then 0
    else if |s| >= 2 && s[0] == '*' && s[1] == '/' then 2
    else 1 + SkipBlock(s[1..])
  }

  function Plus(n: nat, k: Option<nat>): Option<nat> {
    if k.None? then None else Some(n + k.value)
  }

  /** skipString after the opening quote q. */
  function SkipString(s: string, q: char): (k: Option<nat>)
    ensures k.Some? ==> 0 < k.value <= |s|
    decreases |s|, 1
  {
    if s == "" then None
    else if s[0] == '\\' then (if |s| < 2 then None else Plus(2, SkipString(s[2..], q)))
    else if q == '`' then
      if s[0] == '`' then Some(1)
      else if |s| >= 2 && s[0] == '$' && s[1] == '{' then
        var e := SkipHole(s[2..], 1);
        if e.None? then None else Plus(2 + e.value, SkipString(s[2 + e.value..], q))
      else Plus(1, SkipString(s[1..], q))
    else if s[0] == q then Some(1)
    else if s[0] == '\n' then None
    else Plus(1, SkipString(s[1..], q))
  }

  /** The inside of a template hole until its braces balance or the text ends. */
  function SkipHole(s: string, d: nat): (k: Option<nat>)
    ensures k.Some? ==> k.value <= |s|
    decreases |s|, 0
  {
    if d == 0 || s == "" then Some(0)
    else if s[0] == '\\' then (if |s| < 2 then Some(1) else Plus(2, SkipHole(s[2..], d)))
    else if s[0] == '{' then Plus(1, SkipHole(s[1..], d + 1))
    else if s[0] == '}' then Plus(1, SkipHole(s[1..], d - 1))
    else if Quote(s[0]) then
      var inner := SkipString(s[1..], s[0]);
      if inner.None? then None else Plus(1 + inner.value, SkipHole(s[1 + inner.value..], d))
    else Plus(1, SkipHole(s[1..], d))
  }

  datatype Regex = Regex(len: nat, closed: bool) | NoRegex

  /** skipRegex after the opening slash, without its flags. */
  function SkipRegexBody(s: string, inClass: bool): (r: Regex)
    ensures r.Regex? ==> r.len <= |s| && (!r.closed ==> r.len == |s|) && (r.closed ==> r.len > 0)
  {
    if s == "" then Regex(0, false)
    else if s[0] == '\\' then (if |s| < 2 then Regex(1, false) else AddRegex(2, SkipRegexBody(s[2..], inClass)))
    else if s[0] == '[' then AddRegex(1, SkipRegexBody(s[1..], true))
    else if s[0] == ']' then AddRegex(1, SkipRegexBody(s[1..], false))
    else if s[0] == '/' && !inClass then Regex(1, true)
    else if s[0] == '\n' then NoRegex
    else AddRegex(1, SkipRegexBody(s[1..], inClass))
  }

  function AddRegex(n: nat, r: Regex): Regex {
    match r case NoRegex => NoRegex case Regex(len, closed) => Regex(n + len, closed)
  }

  function IdentLen(s: string): (k: nat)
    ensures k <= |s|
  {
    if s == "" || !IdentPart(s[0]) then 0 else 1 + IdentLen(s[1..])
  }

  // ---- tokens --------------------------------------------------------------------------------

  const STMT_LEAD: set<string> := {
    "if", "for", "while", "switch", "try", "do", "else", "return", "throw", "break",
    "continue", "var", "let", "const", "function", "class", "with", "debugger", "export", "import"}

  const OPERATOR_WORDS: set<string> := {
    "typeof", "instanceof", "in", "of", "new", "delete", "void", "yield", "await", "case"}

  /** Which words leave a following slash as the start of a regex. */
  type Words = string -> bool

  const KEYWORDS: Words := (w: string) => w in STMT_LEAD || w in OPERATOR_WORDS

  datatype Kind = Trivia | Val | Oper | Open | CloseCurly | CloseOther | Semi | Word(keyword: bool)

  datatype Token = Token(len: nat, kind: Kind) | Bad

  /** One turn of the scanner's loop. regexOk says whether a slash can start a regex. */
  function Next(kw: Words, s: string, regexOk: bool): (t: Token)
    requires s != ""
    ensures t.Token? ==> 0 < t.len <= |s|
  {
    var c := s[0];
    if ScanSpace(c) then Token(1, Trivia)
    else if c == '/' && |s| >= 2 && s[1] == '/' then Token(2 + SkipLine(s[2..]), Trivia)
    else if c == '/' && |s| >= 2 && s[1] == '*' then Token(2 + SkipBlock(s[2..]), Trivia)
    else if Quote(c) then
      var k := SkipString(s[1..], c);
      if k.None? then Bad else Token(1 + k.value, Val)
    else if c == '/' then
      if !regexOk then Token(1, Oper)
      else match SkipRegexBody(s[1..], false)
        case NoRegex => Bad
        case Regex(len, _) => Token(1 + len + IdentLen(s[1 + len..]), Val)
    else if c == '(' || c == '[' || c == '{' then Token(1, Open)
    else if c == '}' then Token(1, CloseCurly)
    else if c == ')' || c == ']' then Token(1, CloseOther)
    else if c == ';' then Token(1, Semi)
    else if IdentStart(c) then
      var k := 1 + IdentLen(s[1..]);
      Token(k, Word(kw(s[..k])))
    else Token(1, Oper)
  }

  /** What the rewrite puts behind the tail. */
  const CLOSE: string := "\n);"

  predicate AllTrim(x: string) {
    forall i :: 0 <= i < |x| ==> TrimSpace(x[i])
  }

  /** A nonempty text that trimming would not shorten at its end. */
  predicate Solid(t: string) {
    t != "" && !TrimSpace(t[|t| - 1])
  }

  /** Reading one token off the front of a text. */
  type Lexer = (string, bool) -> Token

  /** The token of s ends inside both texts, which agree up to and including the next character. */
  ghost predicate EndsInside(lx: Lexer, s: string, t: string, regexOk: bool) {
    && s != "" && t != ""
    && var k := lx(s, regexOk);
       k.Token? && k.len < |s| && k.len < |t| && s[..k.len + 1] == t[..k.len + 1]
  }

  /** How the last token of a tail is read once CLOSE follows it instead of blank space. */
  ghost predicate ReadsAtEdge(lx: Lexer, t: string, kind: Kind, regexOk: bool) {
    var r := lx(t + CLOSE, regexOk);
    || r.Bad?
    || r == Token(|t|, kind)
    || r == Token(|t| + 3, Trivia)
    || r == Token(|t| + 3, Val)
  }

  ghost predicate AtEdge(lx: Lexer, t: string, x: string, regexOk: bool) {
    && Solid(t) && AllTrim(x)
    && lx(t + x, regexOk).Token? && lx(t + x, regexOk).len >= |t|
  }

  function NextOf(kw: Words): Lexer {
    (s: string, regexOk: bool) => if s == "" then Bad else Next(kw, s, regexOk)
  }

  // ---- what a skipper sees -------------------------------------------------------------------

  /** A string literal is recognized from its own characters alone, and ends with its quote. */
  lemma {:induction false} StringIsLocal(s: string, t: string, q: char)
    requires SkipString(s, q).Some? && Quote(q)
    requires SkipString(s, q).value <= |t| && s[..SkipString(s, q).value] == t[..SkipString(s, q).value]
    ensures SkipString(t, q) == SkipString(s, q)
    ensures s[SkipString(s, q).value - 1] == q
    decreases |s|, 1
  {
    var k := SkipString(s, q).value;
    assert s[0] == s[..k][0] == t[0];
    if k > 1 { assert s[1] == s[..k][1] == t[1]; }
    if s[0] == '\\' {
      TailsAgree(s, t, k, 2);
      StringIsLocal(s[2..], t[2..], q);
    } else if q == '`' && s[0] == '`' {
    } else if q == '`' && |s| >= 2 && s[0] == '$' && s[1] == '{' {
      TemplateIsLocal(s, t);
    } else if q != '`' && s[0] == q {
    } else {
      TailsAgree(s, t, k, 1);
      StringIsLocal(s[1..], t[1..], q);
    }
  }

  /** A template literal that starts with a hole. */
  /** The hole a string begins with ends inside it. */
  lemma FirstHole(s: string) returns (e: nat)
    requires |s| >= 2 && s[0] == '$' && s[1] == '{' && SkipString(s, '`').Some?
    ensures SkipHole(s[2..], 1) == Some(e) && 2 + e <= |s| && SkipString(s[2 + e..], '`').Some?
  {
    e := SkipHole(s[2..], 1).value;
  }

  lemma {:induction false} TemplateIsLocal(s: string, t: string)
    requires |s| >= 2 && s[0] == '$' && s[1] == '{' && SkipString(s, '`').Some?
    requires SkipString(s, '`').value <= |t| && s[..SkipString(s, '`').value] == t[..SkipString(s, '`').value]
    ensures SkipString(t, '`') == SkipString(s, '`') && s[SkipString(s, '`').value - 1] == '`'
    decreases |s|, 0, 1
  {
    var k := SkipString(s, '`').value;
    var e := FirstHole(s);
    hide SkipString, SkipHole;
    HoleStep(s, SkipHole(s[2..], 1), SkipString(s[2 + e..], '`'));
    assert t[0] == t[..k][0] == s[0] && t[1] == t[..k][1] == s[1];
    TailsAgree(s, t, k, 2);
    TailsAgree(s, t, k, 2 + e);
    HoleIsLocal(s[2..], t[2..], 1, k - 2);
    StringIsLocal(s[2 + e..], t[2 + e..], '`');
    HoleStep(t, SkipHole(t[2..], 1), SkipString(t[2 + e..], '`'));
  }

  lemma HoleStep(s: string, hole: Option<nat>, rest: Option<nat>)
    requires |s| >= 2 && s[0] == '$' && s[1] == '{' && hole == SkipHole(s[2..], 1) && hole.Some?
    requires 2 + hole.value <= |s| && rest == SkipString(s[2 + hole.value..], '`')
    ensures SkipString(s, '`') == Plus(2 + hole.value, rest)
  {
  }

  /** Texts that agree up to k agree, after dropping n, up to any m <= k. */
  lemma Agree(s: string, t: string, k: nat, n: nat, m: nat)
    requires n <= m <= k <= |s| && k <= |t| && s[..k] == t[..k]
    ensures s[n..][..m - n] == t[n..][..m - n]
  {
    assert s[n..][..m - n] == s[..k][n..m];
    assert t[n..][..m - n] == t[..k][n..m];
  }

  lemma TailsAgree(s: string, t: string, k: nat, n: nat)
    requires n <= k <= |s| && k <= |t| && s[..k] == t[..k]
    ensures s[n..][..k - n] == t[n..][..k - n]
  {
    Agree(s, t, k, n, k);
  }

  lemma {:induction false} HoleQuoteIsLocal(s: string, t: string, d: nat, m: nat)
    requires d > 0 && s != "" && s[0] != '\\' && s[0] != '{' && s[0] != '}' && Quote(s[0])
    requires SkipHole(s, d).Some? && SkipHole(s, d).value < m <= |s| && m <= |t|
    requires s[..m] == t[..m]
    ensures SkipHole(t, d) == SkipHole(s, d)
    decreases |s|, 0, 0
  {
    assert s[0] == s[..m][0] == t[0];
    var inner := SkipString(s[1..], s[0]);
    var n := 1 + inner.value;
    assert SkipHole(s, d) == Plus(n, SkipHole(s[n..], d));
    assert SkipString(t[1..], t[0]) == inner by {
      Agree(s, t, m, 1, n);
      StringIsLocal(s[1..], t[1..], s[0]);
    }
    assert SkipHole(t, d) == Plus(n, SkipHole(t[n..], d));
    TailsAgree(s, t, m, n);
    HoleIsLocal(s[n..], t[n..], d, m - n);
  }

  /** A hole that ends before position m is recognized from the characters before m. */
  lemma {:induction false} HoleIsLocal(s: string, t: string, d: nat, m: nat)
    requires SkipHole(s, d).Some? && SkipHole(s, d).value < m <= |s| && m <= |t|
    requires s[..m] == t[..m]
    ensures SkipHole(t, d) == SkipHole(s, d)
    decreases |s|, 0, 1
  {
    if d > 0 {
      assert s[0] == s[..m][0] == t[0];
      var c := s[0];
      if c != '\\' && c != '{' && c != '}' && Quote(c) {
        HoleQuoteIsLocal(s, t, d, m);
      } else {
        var n := if c == '\\' then 2 else 1;
        assert n <= m;
        TailsAgree(s, t, m, n);
        HoleIsLocal(s[n..], t[n..], if c == '{' then d + 1 else if c == '}' then d - 1 else d, m - n);
      }
    }
  }

  lemma {:induction false} LineIsLocal(s: string, t: string)
    requires SkipLine(s) < |s| && SkipLine(s) < |t| && s[..SkipLine(s) + 1] == t[..SkipLine(s) + 1]
    ensures SkipLine(t) == SkipLine(s)
  {
    var k := SkipLine(s);
    assert s[0] == s[..k + 1][0] == t[0];
    if s[0] != '\n' {
      TailsAgree(s, t, k + 1, 1);
      LineIsLocal(s[1..], t[1..]);
    }
  }

  lemma {:induction false} BlockIsLocal(s: string, t: string)
    requires SkipBlock(s) < |s| && SkipBlock(s) < |t| && s[..SkipBlock(s)] == t[..SkipBlock(s)]
    ensures SkipBlock(t) == SkipBlock(s)
  {
    var k := SkipBlock(s);
    assert k >= 2;
    assert s[0] == s[..k][0] == t[0] && s[1] == s[..k][1] == t[1];
    if !(s[0] == '*' && s[1] == '/') {
      TailsAgree(s, t, k, 1);
      BlockIsLocal(s[1..], t[1..]);
    }
  }

  lemma {:induction false} IdentIsLocal(s: string, t: string)
    requires IdentLen(s) <= |t| && s[..IdentLen(s)] == t[..IdentLen(s)]
    requires IdentLen(s) < |t| ==> !IdentPart(t[IdentLen(s)])
    ensures IdentLen(t) == IdentLen(s)
  {
    var k := IdentLen(s);
    if k > 0 {
      assert s[0] == s[..k][0] == t[0];
      TailsAgree(s, t, k, 1);
      IdentIsLocal(s[1..], t[1..]);
    }
  }

  lemma {:induction false} IdentEnds(s: string)
    ensures IdentLen(s) < |s| ==> !IdentPart(s[IdentLen(s)])
    ensures forall i :: 0 <= i < IdentLen(s) ==> IdentPart(s[i])
  {
    if s != "" && IdentPart(s[0]) {
      IdentEnds(s[1..]);
      var k := IdentLen(s[1..]);
      assert k < |s[1..]| ==> s[1..][k] == s[k + 1];
      assert forall i :: 0 < i <= k ==> s[i] == s[1..][i - 1];
    }
  }

  lemma {:induction false} RegexIsLocal(s: string, t: string, inClass: bool)
    requires var r := SkipRegexBody(s, inClass);
      r.Regex? && r.closed && r.len <= |t| && s[..r.len] == t[..r.len]
    ensures SkipRegexBody(t, inClass) == SkipRegexBody(s, inClass)
    ensures s[SkipRegexBody(s, inClass).len - 1] == '/'
  {
    var k := SkipRegexBody(s, inClass).len;
    assert s[0] == s[..k][0] == t[0];
    var c := s[0];
    if !(c == '/' && !inClass) || c == '\\' || c == '[' || c == ']' {
      var n := if c == '\\' then 2 else 1;
      TailsAgree(s, t, k, n);
      RegexIsLocal(s[n..], t[n..], if c == '[' then true else if c == ']' then false else inClass);
    }
  }

  lemma FirstsAgree(kw: Words, s: string, t: string, regexOk: bool)
    requires EndsInside(NextOf(kw), s, t, regexOk)
    ensures |s| > 1 && |t| > 1 && s[0] == t[0] && s[1] == t[1]
  {
    var k := Next(kw, s, regexOk).len;
    assert s[0] == s[..k + 1][0] == t[0] && s[1] == s[..k + 1][1] == t[1];
  }

  lemma CommentNextIsLocal(kw: Words, s: string, t: string, regexOk: bool)
    requires EndsInside(NextOf(kw), s, t, regexOk) && |s| > 1 && s[0] == '/' && (s[1] == '/' || s[1] == '*')
    ensures Next(kw, t, regexOk) == Next(kw, s, regexOk)
  {
    FirstsAgree(kw, s, t, regexOk);
    var k := Next(kw, s, regexOk).len;
    if s[1] == '/' {
      TailsAgree(s, t, k + 1, 2);
      LineIsLocal(s[2..], t[2..]);
    } else {
      Agree(s, t, k + 1, 2, k);
      BlockIsLocal(s[2..], t[2..]);
    }
  }

  lemma StringNextIsLocal(kw: Words, s: string, t: string, regexOk: bool)
    requires EndsInside(NextOf(kw), s, t, regexOk) && Quote(s[0])
    ensures Next(kw, t, regexOk) == Next(kw, s, regexOk)
  {
    FirstsAgree(kw, s, t, regexOk);
    var k := Next(kw, s, regexOk).len;
    Agree(s, t, k + 1, 1, k);
    StringIsLocal(s[1..], t[1..], s[0]);
  }

  lemma WordNextIsLocal(kw: Words, s: string, t: string, regexOk: bool)
    requires EndsInside(NextOf(kw), s, t, regexOk) && IdentStart(s[0])
    ensures Next(kw, t, regexOk) == Next(kw, s, regexOk)
  {
    FirstsAgree(kw, s, t, regexOk);
    var k := Next(kw, s, regexOk).len;
    IdentEnds(s[1..]);
    assert s[1..][k - 1] == s[k] == s[..k + 1][k] == t[k] == t[1..][k - 1];
    Agree(s, t, k + 1, 1, k);
    IdentIsLocal(s[1..], t[1..]);
    assert s[..k] == s[..k + 1][..k] == t[..k];
  }

  /** A token that ends before both texts do depends only on itself and the next character. */
  lemma NextIsLocal(kw: Words, s: string, t: string, regexOk: bool)
    requires EndsInside(NextOf(kw), s, t, regexOk)
    ensures Next(kw, t, regexOk) == Next(kw, s, regexOk)
  {
    FirstsAgree(kw, s, t, regexOk);
    var c := s[0];
    if c == '/' {
      if s[1] == '/' || s[1] == '*' { CommentNextIsLocal(kw, s, t, regexOk); }
      else if regexOk { RegexNextIsLocal(kw, s, t); }
    } else if Quote(c) {
      StringNextIsLocal(kw, s, t, regexOk);
    } else if IdentStart(c) {
      WordNextIsLocal(kw, s, t, regexOk);
    }
  }

  lemma RegexNextIsLocal(kw: Words, s: string, t: string)
    requires EndsInside(NextOf(kw), s, t, true) && |s| > 1 && s[0] == '/' && s[1] != '/' && s[1] != '*'
    ensures Next(kw, t, true) == Next(kw, s, true)
  {
    FirstsAgree(kw, s, t, true);
    var k := Next(kw, s, true).len;
    var r := SkipRegexBody(s[1..], false);
    var m := 1 + r.len;
    Agree(s, t, k + 1, 1, m);
    RegexIsLocal(s[1..], t[1..], false);
    IdentEnds(s[m..]);
    var f := IdentLen(s[m..]);
    assert s[m..][f] == s[k] == s[..k + 1][k] == t[k] == t[m..][f];
    Agree(s, t, k + 1, m, k);
    IdentIsLocal(s[m..], t[m..]);
  }

  lemma BlankToken(kw: Words, x: string, regexOk: bool)
    requires x != "" && TrimSpace(x[0])
    ensures var t := Next(kw, x, regexOk); t == Token(1, Trivia) || t == Token(1, Oper)
  {
  }

  /** A semicolon or a closing brace is one character, and is the same token before any text. */
  lemma BoundaryToken(kw: Words, s: string, u: string, regexOk: bool)
    requires s != "" && Next(kw, s, regexOk).Token?
    requires Next(kw, s, regexOk).kind.Semi? || Next(kw, s, regexOk).kind.CloseCurly?
    requires u != "" && u[0] == s[0]
    ensures Next(kw, s, regexOk).len == 1 && Next(kw, u, regexOk) == Next(kw, s, regexOk)
  {
  }

  // ---- the last token of a tail --------------------------------------------------------------

  lemma {:induction false} LineEdge(u: string, x: string)
    requires SkipLine(u + x) >= |u|
    ensures SkipLine(u + CLOSE) == |u|
  {
    if u != "" {
      assert (u + x)[1..] == u[1..] + x && (u + CLOSE)[1..] == u[1..] + CLOSE;
      LineEdge(u[1..], x);
    }
  }

  lemma {:induction false} BlockEdge(u: string, x: string)
    requires AllTrim(x) && SkipBlock(u + x) >= |u|
    ensures SkipBlock(u + CLOSE) == |u| || SkipBlock(u + CLOSE) == |u| + 3
  {
    if u == "" {
      assert u + CLOSE == "\n);" && "\n);"[1..] == ");" && ");"[1..] == ";" && ";"[1..] == "";
      assert SkipBlock(";") == 1 && SkipBlock(");") == 2;
    } else {
      assert (u + x)[1..] == u[1..] + x && (u + CLOSE)[1..] == u[1..] + CLOSE;
      if |u| >= 2 && u[0] == '*' && u[1] == '/' {
      } else {
        BlockEdge(u[1..], x);
      }
    }
  }

  /** A text that ends in a backslash takes the first character behind it along. */
  lemma BackslashEdge(inClass: bool)
    ensures SkipRegexBody("\\" + CLOSE, inClass) == Regex(4, false)
  {
    assert ("\\" + CLOSE)[2..] == ");" && ");"[1..] == ";" && ";"[1..] == "";
    assert SkipRegexBody(";", inClass) == Regex(1, false);
    assert SkipRegexBody(");", inClass) == Regex(2, false);
  }

  lemma RegexStep(s: string, inClass: bool, n: nat, after: bool, r: Regex)
    requires s != "" && n == (if s[0] == '\\' then 2 else 1) && n <= |s| && !(s[0] == '/' && !inClass) && s[0] != '\n'
    requires after == if s[0] == '[' then true else if s[0] == ']' then false else inClass
    requires r == SkipRegexBody(s[n..], after)
    ensures SkipRegexBody(s, inClass) == AddRegex(n, r)
  {
  }

  lemma {:induction false} RegexEdge(u: string, x: string, inClass: bool)
    requires SkipRegexBody(u + x, inClass) == Regex(|u + x|, false)
    ensures var r := SkipRegexBody(u + CLOSE, inClass); r == NoRegex || r == Regex(|u| + 3, false)
  {
    if u == "" {
      assert u + CLOSE == CLOSE;
    } else if u == "\\" {
      BackslashEdge(inClass);
    } else {
      var n := if u[0] == '\\' then 2 else 1;
      var after := if u[0] == '[' then true else if u[0] == ']' then false else inClass;
      assert u[0] == '\\' ==> |u| > 1;
      assert (u + x)[n..] == u[n..] + x && (u + CLOSE)[n..] == u[n..] + CLOSE;
      RegexStep(u + x, inClass, n, after, SkipRegexBody(u[n..] + x, after));
      RegexEdge(u[n..], x, after);
      RegexStep(u + CLOSE, inClass, n, after, SkipRegexBody(u[n..] + CLOSE, after));
    }
  }

  lemma CommentEdge(kw: Words, t: string, x: string, regexOk: bool)
    requires AtEdge(NextOf(kw), t, x, regexOk) && t[0] == '/' && |t| > 1 && (t[1] == '/' || t[1] == '*')
    ensures ReadsAtEdge(NextOf(kw), t, Next(kw, t + x, regexOk).kind, regexOk)
  {
    assert (t + x)[2..] == t[2..] + x && (t + CLOSE)[2..] == t[2..] + CLOSE;
    if t[1] == '/' { LineEdge(t[2..], x); } else { BlockEdge(t[2..], x); }
  }

  /** A character of t + x that trimming keeps is in t. */
  lemma SolidInside(t: string, x: string, i: nat)
    requires AllTrim(x) && i < |t + x| && !TrimSpace((t + x)[i])
    ensures i < |t|
  {
  }

  lemma StringEdge(kw: Words, t: string, x: string, regexOk: bool)
    requires AtEdge(NextOf(kw), t, x, regexOk) && Quote(t[0])
    ensures ReadsAtEdge(NextOf(kw), t, Next(kw, t + x, regexOk).kind, regexOk)
  {
    var a, b := t + x, t + CLOSE;
    var k := SkipString(a[1..], t[0]).value;
    StringIsLocal(a[1..], a[1..], t[0]);
    assert a[k] == a[1..][k - 1] == t[0];
    SolidInside(t, x, k);
    assert a[1..][..k] == t[1..] == b[1..][..k];
    StringIsLocal(a[1..], b[1..], t[0]);
  }

  lemma {:induction false} IdentStaysInside(t: string, x: string)
    requires AllTrim(x)
    ensures IdentLen(t + x) <= |t| && IdentLen(t + CLOSE) == IdentLen(t + x)
  {
    if t == "" {
      assert t + x == x && t + CLOSE == CLOSE;
      assert x != "" ==> TrimSpace(x[0]);
    } else if IdentPart(t[0]) {
      assert (t + x)[1..] == t[1..] + x && (t + CLOSE)[1..] == t[1..] + CLOSE;
      IdentStaysInside(t[1..], x);
    }
  }

  lemma WordEdge(kw: Words, t: string, x: string, regexOk: bool)
    requires AtEdge(NextOf(kw), t, x, regexOk) && IdentStart(t[0])
    ensures ReadsAtEdge(NextOf(kw), t, Next(kw, t + x, regexOk).kind, regexOk)
  {
    assert (t + x)[1..] == t[1..] + x && (t + CLOSE)[1..] == t[1..] + CLOSE;
    IdentStaysInside(t[1..], x);
    assert (t + x)[..|t|] == t == (t + CLOSE)[..|t|];
  }

  /** A slash that does not open a comment, before blank space and before CLOSE. */
  lemma SlashAlone(t: string, x: string)
    requires Solid(t) && AllTrim(x) && t[0] == '/' && !(|t| > 1 && (t[1] == '/' || t[1] == '*'))
    ensures |t + x| > 1 ==> (t + x)[1] != '/' && (t + x)[1] != '*'
    ensures (t + CLOSE)[1] != '/' && (t + CLOSE)[1] != '*'
    ensures (t + x)[0] == '/' && (t + CLOSE)[0] == '/'
    ensures (t + x)[1..] == t[1..] + x && (t + CLOSE)[1..] == t[1..] + CLOSE
  {
    if |t| == 1 && |t + x| > 1 { assert (t + x)[1] == x[0]; }
  }

  lemma ClosedRegexEdge(kw: Words, t: string, x: string)
    requires AtEdge(NextOf(kw), t, x, true) && t[0] == '/' && !(|t| > 1 && (t[1] == '/' || t[1] == '*'))
    requires SkipRegexBody((t + x)[1..], false).closed
    ensures Next(kw, t + CLOSE, true) == Token(|t|, Val)
  {
    SlashAlone(t, x);
    var a, b := (t + x)[1..], (t + CLOSE)[1..];
    var r := SkipRegexBody(a, false);
    var n := 1 + r.len;
    RegexIsLocal(a, a, false);
    assert (t + x)[r.len] == a[r.len - 1] == '/';
    SolidInside(t, x, r.len);
    assert a[..r.len] == t[1..n] == b[..r.len];
    RegexIsLocal(a, b, false);
    assert (t + x)[n..] == t[n..] + x && (t + CLOSE)[n..] == t[n..] + CLOSE;
    IdentStaysInside(t[n..], x);
  }

  lemma OpenRegexEdge(kw: Words, t: string, x: string)
    requires AtEdge(NextOf(kw), t, x, true) && t[0] == '/' && !(|t| > 1 && (t[1] == '/' || t[1] == '*'))
    requires !SkipRegexBody((t + x)[1..], false).closed
    ensures var r := Next(kw, t + CLOSE, true); r.Bad? || r == Token(|t| + 3, Val)
  {
    SlashAlone(t, x);
    RegexEdge(t[1..], x, false);
    var q := SkipRegexBody((t + CLOSE)[1..], false);
    if q.Regex? {
      assert (t + CLOSE)[1 + q.len..] == "" && IdentLen("") == 0;
    }
  }

  lemma RegexTokenEdge(kw: Words, t: string, x: string)
    requires AtEdge(NextOf(kw), t, x, true) && t[0] == '/' && !(|t| > 1 && (t[1] == '/' || t[1] == '*'))
    ensures ReadsAtEdge(NextOf(kw), t, Next(kw, t + x, true).kind, true)
  {
    SlashAlone(t, x);
    if SkipRegexBody((t + x)[1..], false).closed { ClosedRegexEdge(kw, t, x); } else { OpenRegexEdge(kw, t, x); }
  }

  lemma OtherEdge(kw: Words, t: string, x: string, regexOk: bool)
    requires AtEdge(NextOf(kw), t, x, regexOk) && !Quote(t[0]) && !IdentStart(t[0])
    requires t[0] == '/' ==> !regexOk && !(|t| > 1 && (t[1] == '/' || t[1] == '*'))
    ensures ReadsAtEdge(NextOf(kw), t, Next(kw, t + x, regexOk).kind, regexOk)
  {
    assert (t + x)[0] == t[0] == (t + CLOSE)[0];
    assert |t| == 1;
    assert |t + x| > 1 ==> (t + x)[1] == x[0];
    assert (t + CLOSE)[1] == '\n';
  }

  lemma EdgeToken(kw: Words, t: string, x: string, regexOk: bool)
    requires AtEdge(NextOf(kw), t, x, regexOk)
    ensures ReadsAtEdge(NextOf(kw), t, Next(kw, t + x, regexOk).kind, regexOk)
  {
    if Quote(t[0]) { StringEdge(kw, t, x, regexOk); }
    else if IdentStart(t[0]) { WordEdge(kw, t, x, regexOk); }
    else if t[0] == '/' && |t| > 1 && (t[1] == '/' || t[1] == '*') { CommentEdge(kw, t, x, regexOk); }
    else if t[0] == '/' && regexOk { RegexTokenEdge(kw, t, x); }
    else { OtherEdge(kw, t, x, regexOk); }
  }

  lemma ReturnToken(kw: Words, s: string)
    requires kw("return") && |s| > 6 && s[..6] == "return" && s[6] == ' '
    ensures Next(kw, s, true) == Token(6, Word(true))
  {
    assert s[0] == s[..6][0] && s[1] == s[..6][1] && s[2] == s[..6][2]
        && s[3] == s[..6][3] && s[4] == s[..6][4] && s[5] == s[..6][5];
    assert IdentLen(s[6..]) == 0;
    assert s[5..][1..] == s[6..] && IdentLen(s[5..]) == 1;
    assert s[4..][1..] == s[5..] && IdentLen(s[4..]) == 2;
    assert s[3..][1..] == s[4..] && IdentLen(s[3..]) == 3;
    assert s[2..][1..] == s[3..] && IdentLen(s[2..]) == 4;
    assert s[1..][1..] == s[2..] && IdentLen(s[1..]) == 5;
  }
}
