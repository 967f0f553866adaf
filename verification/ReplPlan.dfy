/**
 * transformCell (apps/kernel/src/repl-transform.ts): which declarations of a cell it rewrites, on
 * cursor positions, and what comes out. The loops are in ReplPlanLoops.
 */
module ReplPlan {
  import opened Prelude
  import opened ReplTokens
  import opened ReplScan
  import opened ReplLoops
  import opened ReplEdits

  const RESERVED_HOST_GLOBALS: set<string> := {
    "crypto", "fetch", "host", "process", "console", "Buffer", "require", "use", "performance", "globalThis"}

  const REGEX_WORDS: set<string> := {
    "return", "typeof", "instanceof", "in", "of", "new", "delete", "void", "do", "else", "yield",
    "await", "case", "throw"}

  /** The word lists the scan consults. */
  datatype Lists = Lists(reserved: Words, regexAfter: Words)

  const LISTS: Lists := Lists((w: string) => w in RESERVED_HOST_GLOBALS, (w: string) => w in REGEX_WORDS)

  // ---- text ----------------------------------------------------------------------------------

  function Split(s: string, c: char): (parts: seq<string>)
    ensures parts != []
  {
    if s == "" then [""]
    else
      var rest := Split(s[1..], c);
      if s[0] == c then [""] + rest else [[s[0]] + rest[0]] + rest[1..]
  }

  function Trim(s: string): string {
    TrimEnd(TrimStart(s))
  }

  predicate IsName(s: string) {
    s != "" && IdentStart(s[0]) && IdentLen(s) == |s|
  }

  /** The names in a text, as the regular expression for identifiers finds them. */
  function Idents(s: string): seq<string> {
    if s == "" then []
    else if IdentStart(s[0]) then
      assert IdentLen(s) > 0;
      [s[..IdentLen(s)]] + Idents(s[IdentLen(s)..])
    else Idents(s[1..])
  }

  predicate BareEquals(s: string, j: nat) {
    && j < |s| && s[j] == '='
    && (j + 1 < |s| ==> s[j + 1] != '=')
    && (j > 0 ==> s[j - 1] != '=' && s[j - 1] != '!' && s[j - 1] != '<' && s[j - 1] != '>')
  }

  /** The end of the part of a destructuring declaration that binds names. */
  function BindingEnd(s: string, j: nat, depth: int): (e: nat)
    requires j <= |s|
    ensures e <= |s|
    decreases |s| - j
  {
    if j == |s| then j
    else if s[j] == '(' || s[j] == '{' || s[j] == '[' then BindingEnd(s, j + 1, depth + 1)
    else if s[j] == ')' || s[j] == '}' || s[j] == ']' then BindingEnd(s, j + 1, depth - 1)
    else if BareEquals(s, j) && depth == 0 then j
    else BindingEnd(s, j + 1, depth)
  }

  /** declListBindsReserved */
  predicate BindsReserved(w: Lists, text: string, pattern: bool) {
    if pattern then
      var ids := Idents(text[..BindingEnd(text, 0, 0)]);
      exists k :: 0 <= k < |ids| && w.reserved(ids[k])
    else
      var parts := Split(text, ',');
      exists k :: 0 <= k < |parts| && LeadsReserved(w, TrimStart(parts[k]))
  }

  predicate LeadsReserved(w: Lists, part: string) {
    part != "" && IdentStart(part[0]) && w.reserved(part[..IdentLen(part)])
  }

  /** The parts that are not blank, trimmed. */
  function Names(parts: seq<string>): seq<string> {
    if parts == [] then []
    else if Trim(parts[0]) == "" then Names(parts[1..])
    else [Trim(parts[0])] + Names(parts[1..])
  }

  function Quoted(name: string): string {
    "\"" + name + "\""
  }

  function Voids(names: seq<string>): string
    requires names != []
  {
    var first := "globalThis[" + Quoted(names[0]) + "] ??= undefined";
    if |names| == 1 then first else first + ", " + Voids(names[1..])
  }

  // ---- skipping over parts of a declaration --------------------------------------------------

  /** A string or a comment at the cursor; None for a string that does not end. */
  datatype Skipped = Skipped(end: nat) | Unclosed | Plain

  /** What every inner scan passes over first. */
  ghost function SkipAt(src: string, i: nat): (s: Skipped)
    requires i < |src|
    ensures s.Skipped? ==> s.end > i
  {
    var c := src[i];
    if Quote(c) then
      var e := StringEnd(src, i + 1, c);
      if e.None? then Unclosed else Skipped(e.value)
    else if c == '/' && i + 1 < |src| && src[i + 1] == '/' then Skipped(LineEnd(src, i + 2))
    else if c == '/' && i + 1 < |src| && src[i + 1] == '*' then Skipped(BlockEnd(src, i + 2) + 2)
    else Plain
  }

  /** ws and skipTrivia */
  ghost function TriviaEnd(src: string, i: nat): (e: nat)
    ensures e >= i
    decreases |src| - i
  {
    if i >= |src| then i
    else if ScanSpace(src[i]) then TriviaEnd(src, i + 1)
    else if src[i] == '/' && i + 1 < |src| && src[i + 1] == '/' then TriviaEnd(src, LineEnd(src, i + 2))
    else if src[i] == '/' && i + 1 < |src| && src[i + 1] == '*' then TriviaEnd(src, BlockEnd(src, i + 2) + 2)
    else i
  }

  predicate Opens(c: char) { c == '{' || c == '[' || c == '(' }

  predicate Closes(c: char) { c == '}' || c == ']' || c == ')' }

  /** skipBalanced, d brackets deep. */
  ghost function BalancedEnd(src: string, i: nat, d: int): (e: Option<nat>)
    ensures e.Some? ==> e.value > i
    decreases |src| - i
  {
    if i >= |src| then None
    else match SkipAt(src, i)
      case Unclosed => None
      case Skipped(end) => BalancedEnd(src, end, d)
      case Plain =>
        if Opens(src[i]) then BalancedEnd(src, i + 1, d + 1)
        else if Closes(src[i]) then (if d == 1 then Some(i + 1) else BalancedEnd(src, i + 1, d - 1))
        else BalancedEnd(src, i + 1, d)
  }

  /** prevNonWs lets a slash start a regular expression. */
  predicate RegexMayStart(src: string, j: nat)
    requires j <= |src|
  {
    if j == 0 then true
    else if TrimSpace(src[j - 1]) then RegexMayStart(src, j - 1)
    else src[j - 1] in "=+-*%&|^!<>?:(,[{~"
  }

  /** skipInitializer */
  ghost function InitEnd(src: string, i: nat, d: nat): (e: Option<nat>)
    ensures e.Some? ==> e.value >= i
    decreases |src| - i
  {
    if i >= |src| then Some(i)
    else match SkipAt(src, i)
      case Unclosed => None
      case Skipped(end) => InitEnd(src, end, d)
      case Plain =>
        if src[i] == '/' then
          if RegexMayStart(src, i) then
            var e := RegexEnd(src, i + 1, false);
            if e.None? then None else InitEnd(src, WordEnd(src, e.value), d)
          else InitEnd(src, i + 1, d)
        else if Opens(src[i]) then InitEnd(src, i + 1, d + 1)
        else if Closes(src[i]) then (if d == 0 then Some(i) else InitEnd(src, i + 1, d - 1))
        else if d == 0 && (src[i] == ',' || src[i] == ';') then Some(i)
        else InitEnd(src, i + 1, d)
  }

  /** One declarator: a name or a pattern, and its initializer. */
  ghost function DeclaratorEnd(src: string, j: nat): (e: Option<nat>)
    requires j < |src|
    ensures e.Some? ==> e.value > j
  {
    var k := if src[j] == '{' || src[j] == '[' then BalancedEnd(src, j, 0)
             else if IdentStart(src[j]) then Some(WordEnd(src, j + 1)) else None;
    if k.None? then None
    else
      var m := TriviaEnd(src, k.value);
      var v := if m < |src| && src[m] == '=' then InitEnd(src, m + 1, 0) else Some(m);
      if v.None? then None else Some(TriviaEnd(src, v.value))
  }

  /** validateDeclaratorList */
  ghost function DeclaratorsEnd(src: string, i: nat): (e: Option<nat>)
    ensures e.Some? ==> e.value >= i
    decreases |src| - i
  {
    var j := TriviaEnd(src, i);
    if j >= |src| then Some(j)
    else
      var t := DeclaratorEnd(src, j);
      if t.None? then None
      else if t.value < |src| && src[t.value] == ',' then DeclaratorsEnd(src, t.value + 1)
      else t
  }

  /** The first loop of skipToBlockEnd: to the opening brace. */
  ghost function ToBrace(src: string, i: nat): (e: Option<nat>)
    ensures e.Some? ==> i <= e.value < |src| && src[e.value] == '{'
    decreases |src| - i
  {
    if i >= |src| then None
    else if src[i] == '{' then Some(i)
    else match SkipAt(src, i)
      case Unclosed => None
      case Skipped(end) => ToBrace(src, end)
      case Plain => ToBrace(src, i + 1)
  }

  /** The second one: behind the brace that closes it. */
  ghost function BodyEnd(src: string, i: nat, d: int): (e: Option<nat>)
    ensures e.Some? ==> i < e.value <= |src| && src[e.value - 1] == '}'
    decreases |src| - i
  {
    if i >= |src| then None
    else match SkipAt(src, i)
      case Unclosed => None
      case Skipped(end) => BodyEnd(src, end, d)
      case Plain =>
        if src[i] == '{' then BodyEnd(src, i + 1, d + 1)
        else if src[i] == '}' then (if d == 1 then Some(i + 1) else BodyEnd(src, i + 1, d - 1))
        else BodyEnd(src, i + 1, d)
  }

  // ---- declarations --------------------------------------------------------------------------

  /** A rewritten declaration; `end` is where the scan goes on. */
  datatype Decl =
    | Assign(edit: Edit, end: nat)
    | ClassDecl(at: nat, end: nat, name: string)
    | Hoisted(at: nat, end: nat, name: string)

  /** Kept: the declaration binds a reserved name and is left alone. */
  datatype Handled = Bail | Kept(next: nat) | Rewritten(decl: Decl)

  function Begin(d: Decl): nat {
    match d case Assign(e, _) => e.at case ClassDecl(at, _, _) => at case Hoisted(at, _, _) => at
  }

  function Next(h: Handled): nat
    requires !h.Bail?
  {
    if h.Kept? then h.next else h.decl.end
  }

  ghost function HandleNamed(w: Lists, src: string, isClass: bool, at: nat, i: nat): (h: Handled)
    requires at < i
    ensures !h.Bail? ==> Next(h) > i
  {
    var j := TriviaEnd(src, i);
    if j >= |src| || (!isClass && src[j] == '*') || !IdentStart(src[j]) then Bail
    else
      var k := WordEnd(src, j + 1);
      var brace := ToBrace(src, k);
      if brace.None? then Bail
      else
        var end := BodyEnd(src, brace.value, 0);
        if end.None? then Bail
        else if w.reserved(src[j..k]) then Kept(end.value)
        else if isClass then Rewritten(ClassDecl(at, end.value, src[j..k]))
        else Rewritten(Hoisted(at, end.value, src[j..k]))
  }

  /** The rewrite of a let or const list from `first` to `declEnd`, whose declaration ends at `end`. */
  function RewriteList(src: string, at: nat, first: nat, declEnd: nat, end: nat, pattern: bool): Handled
    requires at < first < |src| && first <= declEnd
  {
    var text := src[first..Min(declEnd, |src|)];
    if '=' !in text && !pattern then
      var names := Names(Split(text, ','));
      if names != [] && (forall k :: 0 <= k < |names| ==> IsName(names[k])) then
        Rewritten(Assign(Edit(at, declEnd - at, "void(" + Voids(names) + ")", false), end))
      else Bail
    else if pattern then Rewritten(Assign(Edit(at, declEnd - at, "(" + text + ")", false), end))
    else Rewritten(Assign(Edit(at, first - at, "", false), end))
  }

  ghost function HandleList(w: Lists, src: string, at: nat, i: nat): (h: Handled)
    requires at < i
    ensures !h.Bail? ==> Next(h) > i
  {
    var first := TriviaEnd(src, i);
    if first >= |src| then Bail
    else
      var pattern := src[first] == '{' || src[first] == '[';
      var list := DeclaratorsEnd(src, first);
      if list.None? then Bail
      else
        var declEnd := TriviaEnd(src, list.value);
        var end := if declEnd < |src| && src[declEnd] == ';' then declEnd + 1 else declEnd;
        if BindsReserved(w, src[first..Min(declEnd, |src|)], pattern) then Kept(end)
        else RewriteList(src, at, first, declEnd, end, pattern)
  }

  ghost function HandleDeclaration(w: Lists, src: string, word: string, at: nat, i: nat): (h: Handled)
    requires at < i
    ensures !h.Bail? ==> Next(h) > i
  {
    if word == "function" || word == "class" then HandleNamed(w, src, word == "class", at, i)
    else HandleList(w, src, at, i)
  }

  // ---- the scan ------------------------------------------------------------------------------

  predicate Declares(word: string) {
    word == "let" || word == "const" || word == "function" || word == "class"
  }

  /**
   * The scanner's state at the cursor: bracket depth, at a statement start, a slash starts a
   * regex, async or export just seen.
   */
  datatype Scanner = Scanner(depth: nat, stmt: bool, rx: bool, pending: bool)

  const Fresh: Scanner := Scanner(0, true, true, false)

  /** What one token does: on with the scan, perhaps behind a rewritten declaration, or out of it. */
  datatype Turn = Turn(end: nat, next: Scanner, decl: Option<Decl>) | GiveUp

  /** planEdits on the token at j, which is no trivia. */
  ghost function TurnAt(w: Lists, src: string, j: nat, s: Scanner): (t: Turn)
    requires j < |src|
    ensures t.Turn? ==> t.end > j
  {
    var c := src[j];
    var value := s.(rx := false, stmt := false, pending := false);
    var operator := s.(rx := true, stmt := false, pending := false);
    if Quote(c) then
      var e := StringEnd(src, j + 1, c);
      if e.None? then GiveUp else Turn(e.value, value, None)
    else if c == '/' then
      if s.rx then
        var e := RegexEnd(src, j + 1, false);
        if e.None? then GiveUp else Turn(WordEnd(src, e.value), value, None)
      else Turn(j + 1, operator.(pending := s.pending), None)
    else if Opens(c) then Turn(j + 1, operator.(depth := s.depth + 1), None)
    else if Closes(c) then
      if s.depth == 0 then GiveUp
      else Turn(j + 1, Scanner(s.depth - 1, s.stmt || (s.depth == 1 && c == '}'), false, false), None)
    else if c == ';' then Turn(j + 1, Scanner(s.depth, s.stmt || s.depth == 0, true, false), None)
    else if c == ',' then Turn(j + 1, s.(rx := true, pending := false), None)
    else if IdentStart(c) then WordTurn(w, src, j, s)
    else Turn(j + 1, operator, None)
  }

  ghost function WordTurn(w: Lists, src: string, j: nat, s: Scanner): (t: Turn)
    requires j < |src| && IdentStart(src[j])
    ensures t.Turn? ==> t.end > j
  {
    var e := WordEnd(src, j + 1);
    var word := src[j..e];
    if s.depth == 0 && s.stmt && Declares(word) then
      if s.pending then GiveUp
      else
        var h := HandleDeclaration(w, src, word, j, e);
        if h.Bail? then GiveUp
        else Turn(Next(h), Fresh, if h.Kept? then None else Some(h.decl))
    else if word == "async" || word == "export" then Turn(e, Scanner(s.depth, false, true, true), None)
    else Turn(e, Scanner(s.depth, false, w.regexAfter(word), false), None)
  }

  /** planEdits from the cursor on: the declarations to rewrite, or None to leave the cell alone. */
  ghost function Plan(w: Lists, src: string, i: nat, s: Scanner): (ds: Option<seq<Decl>>)
    decreases |src| - i
  {
    var j := TriviaEnd(src, i);
    if j >= |src| then (if s.depth == 0 then Some([]) else None)
    else
      var t := TurnAt(w, src, j, s);
      if t.GiveUp? then None else Prepend(t.decl, Plan(w, src, t.end, t.next))
  }

  function Prepend(d: Option<Decl>, ds: Option<seq<Decl>>): Option<seq<Decl>> {
    if d.None? || ds.None? then ds else Some([d.value] + ds.value)
  }

  function EditsOf(d: Decl): seq<Edit> {
    match d
    case Assign(e, _) => [e]
    case ClassDecl(at, end, name) =>
      [Edit(at, 0, "globalThis[" + Quoted(name) + "] = ", false), Edit(end, 0, ";", false)]
    case Hoisted(at, end, _) => [Edit(at, Max(0, end - at), ";", false)]
  }

  /** The edits in the order they are pushed. */
  function Flat(ds: seq<Decl>): seq<Edit> {
    if ds == [] then [] else EditsOf(ds[0]) + Flat(ds[1..])
  }

  /** The hoisted functions, in source order. */
  function Hoists(src: string, ds: seq<Decl>): string {
    if ds == [] then ""
    else if ds[0].Hoisted? && ds[0].at <= ds[0].end <= |src| then
      "globalThis[" + Quoted(ds[0].name) + "] = " + src[ds[0].at..ds[0].end] + ";" + Hoists(src, ds[1..])
    else Hoists(src, ds[1..])
  }

  predicate HoistsAny(ds: seq<Decl>) {
    exists k :: 0 <= k < |ds| && ds[k].Hoisted?
  }

  function EditList(src: string, ds: seq<Decl>): seq<Edit> {
    if HoistsAny(ds) then Flat(ds) + [Edit(0, 0, Hoists(src, ds), true)] else Flat(ds)
  }

  /** A declaration keyword, not a property and not part of a longer word, stands at i. */
  predicate KeywordAt(src: string, i: nat, word: string) {
    && i + |word| < |src| && src[i..i + |word|] == word
    && (i == 0 || (src[i - 1] != '.' && !IdentPart(src[i - 1]))) && !IdentPart(src[i + |word|])
  }

  predicate MentionsDeclaration(src: string) {
    exists i :: 0 <= i < |src| && (
      KeywordAt(src, i, "let") || KeywordAt(src, i, "const") || KeywordAt(src, i, "function")
      || KeywordAt(src, i, "class"))
  }

  ghost function TransformCell(w: Lists, src: string): string {
    if src == "" || !MentionsDeclaration(src) then src
    else
      var ds := Plan(w, src, 0, Fresh);
      if ds.None? || EditList(src, ds.value) == [] then src
      else ApplyAll(src, StableSort(EditList(src, ds.value)))
  }

  // ---- where the edits are -------------------------------------------------------------------

  /** A rewritten declaration's edits lie within it, and a semicolon in front of it would show. */
  predicate DeclOk(src: string, d: Decl) {
    && Begin(d) < d.end && Begin(d) < |src|
    && match d
       case Assign(e, end) => !e.prefix && 0 < e.consume && e.at + e.consume <= end && Visible(src, e)
       case ClassDecl(_, end, _) => end <= |src|
       case Hoisted(_, end, _) => end <= |src| && src[end - 1] == '}'
  }

  /** Trivia that ends before the text does ends with blank space or with a comment's slash. */
  lemma {:induction false} TriviaEnds(src: string, i: nat)
    requires i < |src| && TriviaEnd(src, i) < |src|
    ensures TriviaEnd(src, i) > i ==> src[TriviaEnd(src, i) - 1] != ';'
    decreases |src| - i
  {
    if ScanSpace(src[i]) {
      TriviaEnds(src, i + 1);
    } else if src[i] == '/' && i + 1 < |src| && src[i + 1] == '/' {
      LineStops(src, i + 2);
      TriviaEnds(src, LineEnd(src, i + 2));
    } else if src[i] == '/' && i + 1 < |src| && src[i + 1] == '*' {
      BlockStops(src, i + 2);
      TriviaEnds(src, BlockEnd(src, i + 2) + 2);
    }
  }

  lemma {:induction false} LineStops(src: string, i: nat)
    ensures LineEnd(src, i) < |src| ==> src[LineEnd(src, i)] == '\n'
    decreases |src| - i
  {
    if i < |src| && src[i] != '\n' { LineStops(src, i + 1); }
  }

  lemma {:induction false} BlockStops(src: string, i: nat)
    ensures BlockEnd(src, i) + 1 < |src| ==> src[BlockEnd(src, i) + 1] == '/'
    decreases |src| - i
  {
    if !(i >= |src| || (src[i] == '*' && i + 1 < |src| && src[i + 1] == '/')) { BlockStops(src, i + 1); }
  }

  lemma {:induction false} WordIsParts(src: string, i: nat, k: nat)
    requires i <= k < WordEnd(src, i) && WordEnd(src, i) <= |src|
    ensures IdentPart(src[k])
    decreases |src| - i
  {
    if i < k { WordIsParts(src, i + 1, k); }
  }

  lemma NamedOk(w: Lists, src: string, isClass: bool, at: nat, i: nat)
    requires at < |src| && at < i && HandleNamed(w, src, isClass, at, i).Rewritten?
    ensures var d := HandleNamed(w, src, isClass, at, i).decl; DeclOk(src, d) && Begin(d) == at && d.end > i
  {
  }

  /** What is left out with the keyword does not end with a semicolon. */
  lemma KeywordEnds(src: string, at: nat, i: nat)
    requires at < |src| && IdentStart(src[at]) && i == WordEnd(src, at + 1) && TriviaEnd(src, i) < |src|
    ensures src[TriviaEnd(src, i) - 1] != ';'
  {
    TriviaEnds(src, i);
    if i > at + 1 { WordIsParts(src, at + 1, i - 1); }
  }

  lemma RewriteOk(src: string, at: nat, first: nat, declEnd: nat, end: nat, pattern: bool)
    requires at < first < |src| && first <= declEnd <= end && src[first - 1] != ';'
    requires RewriteList(src, at, first, declEnd, end, pattern).Rewritten?
    ensures var d := RewriteList(src, at, first, declEnd, end, pattern).decl;
      DeclOk(src, d) && Begin(d) == at && d.end == end
  {
  }

  lemma ListOk(w: Lists, src: string, at: nat, i: nat)
    requires at < |src| && IdentStart(src[at]) && i == WordEnd(src, at + 1) && HandleList(w, src, at, i).Rewritten?
    ensures var d := HandleList(w, src, at, i).decl; DeclOk(src, d) && Begin(d) == at && d.end > i
  {
    hide DeclOk, RewriteList, TriviaEnd, DeclaratorsEnd;
    var first := TriviaEnd(src, i);
    var pattern := src[first] == '{' || src[first] == '[';
    var declEnd := TriviaEnd(src, DeclaratorsEnd(src, first).value);
    var end := if declEnd < |src| && src[declEnd] == ';' then declEnd + 1 else declEnd;
    KeywordEnds(src, at, i);
    assert HandleList(w, src, at, i) == RewriteList(src, at, first, declEnd, end, pattern);
    RewriteOk(src, at, first, declEnd, end, pattern);
  }

  /** A handled declaration starts with its keyword and its edits are in order. */
  lemma HandledOk(w: Lists, src: string, word: string, at: nat, i: nat)
    requires at < |src| && IdentStart(src[at]) && i == WordEnd(src, at + 1)
    requires HandleDeclaration(w, src, word, at, i).Rewritten?
    ensures var d := HandleDeclaration(w, src, word, at, i).decl; DeclOk(src, d) && Begin(d) == at && d.end > i
  {
    if word == "function" || word == "class" {
      NamedOk(w, src, word == "class", at, i);
    } else {
      ListOk(w, src, at, i);
    }
  }

  /** Declarations one behind the other, from a position on. */
  predicate Placed(src: string, ds: seq<Decl>, from: nat) {
    ds == [] || (DeclOk(src, ds[0]) && Begin(ds[0]) >= from && Placed(src, ds[1..], ds[0].end))
  }

  lemma PlacedEarlier(src: string, ds: seq<Decl>, from: nat, to: nat)
    requires Placed(src, ds, from) && to <= from
    ensures Placed(src, ds, to)
  {
  }

  /** A turn's declaration, when it has one, begins at j and ends where the scan goes on. */
  predicate FoundAt(src: string, j: nat, t: Turn) {
    t.Turn? && t.decl.Some? ==> DeclOk(src, t.decl.value) && Begin(t.decl.value) == j && t.decl.value.end == t.end
  }

  lemma WordTurnOk(w: Lists, src: string, j: nat, s: Scanner)
    requires j < |src| && IdentStart(src[j])
    ensures FoundAt(src, j, WordTurn(w, src, j, s))
  {
    var e := WordEnd(src, j + 1);
    var word := src[j..e];
    if Declares(word) && HandleDeclaration(w, src, word, j, e).Rewritten? {
      HandledOk(w, src, word, j, e);
    }
  }

  lemma TurnOk(w: Lists, src: string, j: nat, s: Scanner)
    requires j < |src|
    ensures FoundAt(src, j, TurnAt(w, src, j, s))
  {
    if IdentStart(src[j]) { WordTurnOk(w, src, j, s); }
  }

  /** The scan finds its declarations in order and apart. */
  lemma {:induction false} PlanIsPlaced(w: Lists, src: string, i: nat, s: Scanner, ds: Option<seq<Decl>>)
    requires ds == Plan(w, src, i, s)
    ensures ds.Some? ==> Placed(src, ds.value, i)
    decreases |src| - i
  {
    var j := TriviaEnd(src, i);
    if j < |src| {
      var t := TurnAt(w, src, j, s);
      if t.Turn? {
        var rest := Plan(w, src, t.end, t.next);
        TurnOk(w, src, j, s);
        PlanIsPlaced(w, src, t.end, t.next, rest);
        if rest.Some? { PlacedFrom(src, t, rest.value, i, j); }
      }
    }
  }

  lemma PlacedFrom(src: string, t: Turn, rest: seq<Decl>, i: nat, j: nat)
    requires t.Turn? && i <= j < t.end && Placed(src, rest, t.end)
    requires FoundAt(src, j, t)
    ensures Placed(src, Prepend(t.decl, Some(rest)).value, i)
  {
    if t.decl.None? {
      PlacedEarlier(src, rest, t.end, i);
    } else {
      assert ([t.decl.value] + rest)[1..] == rest;
    }
  }

  // ---- the edits of placed declarations ------------------------------------------------------

  /** A class body ends at the very place where the next rewritten declaration begins. */
  predicate ClassMeets(ds: seq<Decl>, k: nat) {
    k + 1 < |ds| && ds[k].ClassDecl? && Begin(ds[k + 1]) == ds[k].end
  }

  predicate NoneMeet(ds: seq<Decl>) {
    forall k :: 0 <= k < |ds| ==> !ClassMeets(ds, k)
  }

  /** Flat is a list of spans from `from` on. */
  predicate FlatOk(src: string, edits: seq<Edit>, from: nat) {
    && Spans(edits, |src|) && SemiTouches(src, edits)
    && forall i :: 0 <= i < |edits| ==> edits[i].at >= from
  }

  lemma {:induction false} FlatIsSpans(src: string, ds: seq<Decl>, from: nat, edits: seq<Edit>)
    requires Placed(src, ds, from) && edits == Flat(ds)
    ensures FlatOk(src, edits, from) && (NoneTouch(edits) <==> NoneMeet(ds))
    ensures edits == [] <==> ds == []
    ensures ds != [] ==> edits[0].at == Begin(ds[0]) && Visible(src, edits[0]) && !Touches(edits, 1)
    decreases |ds|
  {
    if ds != [] {
      var d, rest := ds[0], Flat(ds[1..]);
      FlatIsSpans(src, ds[1..], d.end, rest);
      JoinSpans(src, d, rest, edits);
      JoinMeets(ds);
    }
  }

  lemma JoinMeets(ds: seq<Decl>)
    requires ds != []
    ensures NoneMeet(ds) <==> NoneMeet(ds[1..]) && !ClassMeets(ds, 0)
  {
    assert forall k :: 0 <= k < |ds| - 1 ==> ClassMeets(ds[1..], k) == ClassMeets(ds, k + 1);
    assert forall k :: 0 < k < |ds| ==> ClassMeets(ds, k) == ClassMeets(ds[1..], k - 1);
  }

  /** One more edit in front, ending before the others begin. */
  lemma PushFront(src: string, e: Edit, rest: seq<Edit>, edits: seq<Edit>)
    requires FlatOk(src, rest, e.at + e.consume) && !e.prefix && e.at <= |src| && edits == [e] + rest
    requires rest != [] && rest[0].at == e.at ==>
               e.text == ";" && e.consume == 0 && Visible(src, rest[0]) && !Touches(rest, 1)
    ensures FlatOk(src, edits, e.at)
    ensures NoneTouch(edits) <==> NoneTouch(rest) && !(rest != [] && rest[0].at == e.at)
  {
    PushTouches(e, rest, edits);
    PushSpans(src, e, rest, edits);
    PushSemis(src, e, rest, edits);
  }

  lemma PushSpans(src: string, e: Edit, rest: seq<Edit>, edits: seq<Edit>)
    requires Spans(rest, |src|) && (forall i :: 0 <= i < |rest| ==> rest[i].at >= e.at + e.consume)
    requires !e.prefix && e.at <= |src| && edits == [e] + rest
    ensures Spans(edits, |src|) && forall i :: 0 <= i < |edits| ==> edits[i].at >= e.at
  {
    assert forall i :: 0 < i < |edits| ==> edits[i] == rest[i - 1];
  }

  lemma PushSemis(src: string, e: Edit, rest: seq<Edit>, edits: seq<Edit>)
    requires SemiTouches(src, rest) && edits == [e] + rest
    requires rest != [] && rest[0].at == e.at ==>
               e.text == ";" && e.consume == 0 && Visible(src, rest[0]) && !Touches(rest, 1)
    ensures SemiTouches(src, edits)
  {
    forall i | 0 <= i < |edits| && Touches(edits, i)
      ensures edits[i - 1].text == ";" && edits[i - 1].consume == 0 && Visible(src, edits[i]) && !Touches(edits, i - 1)
    {
      if i > 1 {
        assert Touches(rest, i - 1);
        assert i == 2 || Touches(edits, i - 1) == Touches(rest, i - 2);
      }
    }
  }

  lemma PushTouches(e: Edit, rest: seq<Edit>, edits: seq<Edit>)
    requires edits == [e] + rest
    ensures Touches(edits, 1) == (rest != [] && rest[0].at == e.at) && !Touches(edits, 0)
    ensures NoneTouch(edits) <==> NoneTouch(rest) && !(rest != [] && rest[0].at == e.at)
  {
    assert forall i :: 1 < i < |edits| ==> Touches(edits, i) == Touches(rest, i - 1);
    assert Touches(edits, 1) == (rest != [] && rest[0].at == e.at);
    if NoneTouch(edits) {
      forall i | 0 <= i < |rest| ensures !Touches(rest, i) {
        assert i > 0 ==> Touches(edits, i + 1) == Touches(rest, i);
      }
    }
  }

  lemma Lower(src: string, edits: seq<Edit>, from: nat, to: nat)
    requires FlatOk(src, edits, from) && to <= from
    ensures FlatOk(src, edits, to)
  {
  }

  lemma JoinSemi(src: string, end: nat, rest: seq<Edit>, semi: seq<Edit>)
    requires end <= |src| && FlatOk(src, rest, end) && semi == [Edit(end, 0, ";", false)] + rest
    requires rest != [] ==> Visible(src, rest[0]) && !Touches(rest, 1)
    ensures FlatOk(src, semi, end) && semi[0].at == end
    ensures NoneTouch(semi) <==> NoneTouch(rest) && !(rest != [] && rest[0].at == end)
  {
    PushFront(src, Edit(end, 0, ";", false), rest, semi);
  }

  /** An insertion at the start of a class, and the semicolon behind it. */
  lemma JoinClass(src: string, e: Edit, end: nat, rest: seq<Edit>, semi: seq<Edit>, edits: seq<Edit>)
    requires e.at < end <= |src| && e.consume == 0 && !e.prefix && Visible(src, e) && FlatOk(src, rest, end)
    requires semi == [Edit(end, 0, ";", false)] + rest && edits == [e] + semi
    requires rest != [] ==> Visible(src, rest[0]) && !Touches(rest, 1)
    ensures FlatOk(src, edits, e.at) && edits[0] == e && !Touches(edits, 1)
    ensures NoneTouch(edits) <==> NoneTouch(rest) && !(rest != [] && rest[0].at == end)
  {
    JoinSemi(src, end, rest, semi);
    Lower(src, semi, end, e.at);
    PushFront(src, e, semi, edits);
  }

  lemma ClassTextShows(src: string, d: Decl)
    requires d.ClassDecl?
    ensures Visible(src, EditsOf(d)[0])
  {
    assert EditsOf(d)[0].text[0] == 'g';
  }

  lemma ClassEdits(d: Decl, e: Edit, rest: seq<Edit>, edits: seq<Edit>)
    requires d.ClassDecl? && edits == EditsOf(d) + rest && e == EditsOf(d)[0]
    ensures edits == [e] + ([Edit(d.end, 0, ";", false)] + rest) && e.consume == 0 && !e.prefix && e.at == d.at
  {
  }

  lemma JoinSpans(src: string, d: Decl, rest: seq<Edit>, edits: seq<Edit>)
    requires DeclOk(src, d) && FlatOk(src, rest, d.end) && edits == EditsOf(d) + rest
    requires rest != [] ==> Visible(src, rest[0]) && !Touches(rest, 1)
    ensures FlatOk(src, edits, Begin(d)) && edits != [] && edits[0].at == Begin(d) && Visible(src, edits[0])
    ensures !Touches(edits, 1)
    ensures NoneTouch(edits) <==> NoneTouch(rest) && !(d.ClassDecl? && rest != [] && rest[0].at == d.end)
  {
    var e := EditsOf(d)[0];
    if d.ClassDecl? {
      ClassTextShows(src, d);
      ClassEdits(d, e, rest, edits);
      JoinClass(src, e, d.end, rest, [Edit(d.end, 0, ";", false)] + rest, edits);
    } else {
      Lower(src, rest, d.end, e.at + e.consume);
      PushFront(src, e, rest, edits);
    }
  }

  // ---- what comes out ------------------------------------------------------------------------

  /** The replacement a plan stands for: all its spans at once, behind the hoisted functions. */
  ghost function Wanted(src: string, ds: seq<Decl>): string {
    Hoists(src, ds) + ReplaceAll(src, Flat(ds))
  }

  lemma {:induction false} NothingHoisted(src: string, ds: seq<Decl>)
    requires !HoistsAny(ds)
    ensures Hoists(src, ds) == ""
  {
    if ds != [] {
      assert !ds[0].Hoisted?;
      assert forall k :: 0 <= k < |ds| - 1 ==> ds[1..][k] == ds[k + 1];
      NothingHoisted(src, ds[1..]);
    }
  }

  /** The edits of a plan do what it stands for exactly when no class body meets the next rewrite. */
  lemma EditsMeanIff(w: Lists, src: string, ds: seq<Decl>)
    requires Plan(w, src, 0, Fresh) == Some(ds)
    ensures ApplyAll(src, StableSort(EditList(src, ds))) == Wanted(src, ds) <==> NoneMeet(ds)
  {
    PlanIsPlaced(w, src, 0, Fresh, Some(ds));
    FlatIsSpans(src, ds, 0, Flat(ds));
    AppliedIff(src, Flat(ds), Hoists(src, ds));
    if !HoistsAny(ds) { NothingHoisted(src, ds); }
  }

  /**
   * transformCell leaves a cell as it is, or replaces the spans of its plan, all at once, behind
   * the hoisted functions; that fails exactly for the plans in which a class body ends where the
   * next rewritten declaration begins.
   */
  lemma TransformIff(w: Lists, src: string, ds: Option<seq<Decl>>)
    requires ds == Plan(w, src, 0, Fresh)
    ensures src == "" || !MentionsDeclaration(src) || ds.None? || ds.value == [] ==> TransformCell(w, src) == src
    ensures src != "" && MentionsDeclaration(src) && ds.Some? && ds.value != [] ==>
      (TransformCell(w, src) == Wanted(src, ds.value) <==> NoneMeet(ds.value))
  {
    if ds.Some? {
      EditsMeanIff(w, src, ds.value);
      ListIsEmpty(src, ds.value);
    }
  }

  lemma ListIsEmpty(src: string, ds: seq<Decl>)
    ensures EditList(src, ds) == [] <==> ds == []
  {
    if ds != [] { assert EditsOf(ds[0]) != []; }
  }

  // ---- a cell that goes wrong ----------------------------------------------------------------

  const TwoClasses: string := "class A{}class B{}"

  lemma FirstClass(w: Lists)
    requires !w.reserved("A")
    ensures HandleNamed(w, TwoClasses, true, 0, 5) == Rewritten(ClassDecl(0, 9, "A"))
    ensures WordEnd(TwoClasses, 1) == 5 && TwoClasses[0..5] == "class"
  {
    assert TriviaEnd(TwoClasses, 5) == 6 && WordEnd(TwoClasses, 7) == 7 && TwoClasses[6..7] == "A";
    assert ToBrace(TwoClasses, 7) == Some(7) && BodyEnd(TwoClasses, 7, 0) == Some(9);
  }

  lemma SecondClass(w: Lists)
    requires !w.reserved("B")
    ensures HandleNamed(w, TwoClasses, true, 9, 14) == Rewritten(ClassDecl(9, 18, "B"))
    ensures WordEnd(TwoClasses, 10) == 14 && TwoClasses[9..14] == "class"
  {
    assert TriviaEnd(TwoClasses, 14) == 15 && WordEnd(TwoClasses, 16) == 16 && TwoClasses[15..16] == "B";
    assert ToBrace(TwoClasses, 16) == Some(16) && BodyEnd(TwoClasses, 16, 0) == Some(18);
  }

  /** Two classes with nothing between them: the semicolon that ends the first lands in the second. */
  lemma TwoClassesGoWrong(w: Lists)
    requires !w.reserved("A") && !w.reserved("B")
    ensures Plan(w, TwoClasses, 0, Fresh) == Some([ClassDecl(0, 9, "A"), ClassDecl(9, 18, "B")])
    ensures TransformCell(w, TwoClasses) != Wanted(TwoClasses, [ClassDecl(0, 9, "A"), ClassDecl(9, 18, "B")])
  {
    var first, second := ClassDecl(0, 9, "A"), ClassDecl(9, 18, "B");
    FirstClass(w);
    SecondClass(w);
    assert Plan(w, TwoClasses, 18, Fresh) == Some([]);
    assert TurnAt(w, TwoClasses, 9, Fresh) == Turn(18, Fresh, Some(second));
    assert TriviaEnd(TwoClasses, 9) == 9 && TriviaEnd(TwoClasses, 0) == 0;
    assert Plan(w, TwoClasses, 9, Fresh) == Some([second] + []);
    assert TurnAt(w, TwoClasses, 0, Fresh) == Turn(9, Fresh, Some(first));
    assert Plan(w, TwoClasses, 0, Fresh) == Some([first] + ([second] + []));
    assert [first] + ([second] + []) == [first, second];
    assert KeywordAt(TwoClasses, 0, "class");
    assert ClassMeets([first, second], 0);
    TransformIff(w, TwoClasses, Some([first, second]));
  }
}
