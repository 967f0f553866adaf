/**
 * transformCell (apps/kernel/src/repl-transform.ts) without its scanner: the pieces a cell is made
 * of, which of them are rewritten, and the text that comes out.
 */
module ReplCells {
  import opened Prelude
  import opened ReplTokens
  import opened ReplScan
  import opened ReplLoops
  import opened ReplEdits
  import opened ReplPlan

  // ---- the pieces of a cell ------------------------------------------------------------------

  datatype Sort =
    | Literal                       // a string or a regular expression
    | Divide
    | Opener
    | Closer(curly: bool)
    | Semicolon
    | Comma
    | Name(word: string)
    | Declaration(d: Option<Decl>)  // a whole declaration; None when it keeps its keyword
    | Sign                          // any other character

  datatype Piece = Piece(at: nat, end: nat, sort: Sort)

  /** Brackets opened and not closed. */
  function Open(ps: seq<Piece>): int {
    if ps == [] then 0
    else
      var p := ps[|ps| - 1].sort;
      Open(ps[..|ps| - 1]) + if p.Opener? then 1 else if p.Closer? then -1 else 0
  }

  /** A statement starts behind these pieces. */
  predicate Starts(ps: seq<Piece>) {
    if ps == [] then true
    else
      var p := ps[|ps| - 1].sort;
      || p.Declaration?
      || (p.Semicolon? && Open(ps) == 0)
      || (p == Closer(true) && Open(ps) == 0)
      || ((p.Semicolon? || p.Closer? || p.Comma?) && Starts(ps[..|ps| - 1]))
  }

  /** A slash behind these pieces opens a regular expression. */
  predicate SlashOpens(w: Lists, ps: seq<Piece>) {
    if ps == [] then true
    else
      var p := ps[|ps| - 1].sort;
      !p.Literal? && !p.Closer? && (p.Name? ==> p.word == "async" || p.word == "export" || w.regexAfter(p.word))
  }

  /** async or export stands right before; a division in between does not matter. */
  predicate Marked(ps: seq<Piece>) {
    if ps == [] then false
    else
      var p := ps[|ps| - 1].sort;
      if p.Divide? then Marked(ps[..|ps| - 1]) else p.Name? && (p.word == "async" || p.word == "export")
  }

  /** The word that starts at `at` declares something here: outside all brackets, at a statement's start. */
  ghost predicate DeclaresHere(src: string, before: seq<Piece>, at: nat)
    requires at < |src|
  {
    && IdentStart(src[at]) && Open(before) == 0 && Starts(before)
    && src[at..WordEnd(src, at + 1)] in {"let", "const", "function", "class"}
  }

  ghost predicate FitsWord(w: Lists, src: string, before: seq<Piece>, p: Piece)
    requires p.at < |src| && IdentStart(src[p.at])
  {
    var e := WordEnd(src, p.at + 1);
    if DeclaresHere(src, before, p.at) then
      var h := HandleDeclaration(w, src, src[p.at..e], p.at, e);
      && !Marked(before) && !h.Bail?
      && p.end == ReplPlan.Next(h) && p.sort == Declaration(if h.Kept? then None else Some(h.decl))
    else p.end == e && p.sort == Name(src[p.at..e])
  }

  /** p is what stands at its place, behind the pieces before it. */
  ghost predicate Fits(w: Lists, src: string, before: seq<Piece>, p: Piece) {
    && p.at < |src|
    && var c := src[p.at];
       if Quote(c) then p.sort == Literal && StringEnd(src, p.at + 1, c) == Some(p.end)
       else if c == '/' && SlashOpens(w, before) then
         var e := RegexEnd(src, p.at + 1, false);
         p.sort == Literal && e.Some? && p.end == WordEnd(src, e.value)
       else if IdentStart(c) then FitsWord(w, src, before, p)
       else
         && p.end == p.at + 1
         && (c in {')', ']', '}'} ==> Open(before) > 0)
         && p.sort == if c == '/' then Divide
                      else if c in {'(', '[', '{'} then Opener
                      else if c in {')', ']', '}'} then Closer(c == '}')
                      else if c == ';' then Semicolon
                      else if c == ',' then Comma
                      else Sign
  }

  function EndOf(ps: seq<Piece>): nat {
    if ps == [] then 0 else ps[|ps| - 1].end
  }

  ghost predicate PieceFits(w: Lists, src: string, ps: seq<Piece>, i: nat) {
    i < |ps| && ps[i].at == TriviaEnd(src, EndOf(ps[..i])) && Fits(w, src, ps[..i], ps[i])
  }

  /** ps are the first pieces of the cell. */
  ghost predicate Begins(w: Lists, src: string, ps: seq<Piece>) {
    forall i :: 0 <= i < |ps| ==> PieceFits(w, src, ps, i)
  }

  /** ps are the pieces of the cell, all of them, and every bracket is closed. */
  ghost predicate Pieces(w: Lists, src: string, ps: seq<Piece>) {
    Begins(w, src, ps) && TriviaEnd(src, EndOf(ps)) >= |src| && Open(ps) == 0
  }

  /** The declarations among them that are rewritten. */
  function Rewrites(ps: seq<Piece>): seq<Decl> {
    if ps == [] then []
    else
      var p := ps[|ps| - 1].sort;
      Rewrites(ps[..|ps| - 1]) + if p.Declaration? && p.d.Some? then [p.d.value] else []
  }

  // ---- the scan finds exactly them -----------------------------------------------------------

  ghost predicate Same(w: Lists, s: Scanner, ps: seq<Piece>) {
    s.depth == Open(ps) && s.stmt == Starts(ps) && s.rx == SlashOpens(w, ps) && s.pending == Marked(ps)
  }

  lemma OneMore(w: Lists, ps: seq<Piece>, p: Piece)
    ensures (ps + [p])[..|ps|] == ps && EndOf(ps + [p]) == p.end
    ensures Rewrites(ps + [p]) == Rewrites(ps) + if p.sort.Declaration? && p.sort.d.Some? then [p.sort.d.value] else []
  {
  }

  lemma WordIsTurn(w: Lists, src: string, ps: seq<Piece>, p: Piece, s: Scanner)
    requires p.at < |src| && IdentStart(src[p.at]) && FitsWord(w, src, ps, p) && Same(w, s, ps)
    ensures var t := WordTurn(w, src, p.at, s);
      t.Turn? && t.end == p.end && Same(w, t.next, ps + [p])
      && t.decl == if p.sort.Declaration? then p.sort.d else None
  {
    hide HandleDeclaration, WordEnd;
    OneMore(w, ps, p);
  }

  lemma PieceIsTurn(w: Lists, src: string, ps: seq<Piece>, p: Piece, s: Scanner)
    requires Fits(w, src, ps, p) && Same(w, s, ps)
    ensures var t := TurnAt(w, src, p.at, s);
      t.Turn? && t.end == p.end && Same(w, t.next, ps + [p])
      && t.decl == if p.sort.Declaration? then p.sort.d else None
  {
    hide HandleDeclaration, WordEnd, RegexEnd, StringEnd, WordTurn;
    OneMore(w, ps, p);
    if !Quote(src[p.at]) && IdentStart(src[p.at]) { WordIsTurn(w, src, ps, p, s); }
  }

  lemma WordHasPiece(w: Lists, src: string, ps: seq<Piece>, j: nat, s: Scanner) returns (p: Piece)
    requires j < |src| && IdentStart(src[j]) && Same(w, s, ps) && WordTurn(w, src, j, s).Turn?
    ensures p.at == j && FitsWord(w, src, ps, p)
  {
    hide HandleDeclaration, WordEnd;
    var e := WordEnd(src, j + 1);
    if DeclaresHere(src, ps, j) {
      var h := HandleDeclaration(w, src, src[j..e], j, e);
      p := Piece(j, ReplPlan.Next(h), Declaration(if h.Kept? then None else Some(h.decl)));
    } else {
      p := Piece(j, e, Name(src[j..e]));
    }
  }

  lemma TurnHasPiece(w: Lists, src: string, ps: seq<Piece>, j: nat, s: Scanner) returns (p: Piece)
    requires j < |src| && Same(w, s, ps) && TurnAt(w, src, j, s).Turn?
    ensures p.at == j && Fits(w, src, ps, p)
  {
    hide HandleDeclaration, WordEnd, RegexEnd, StringEnd, WordTurn;
    var c := src[j];
    if Quote(c) || (c == '/' && s.rx) { p := Piece(j, TurnAt(w, src, j, s).end, Literal); }
    else if IdentStart(c) { p := WordHasPiece(w, src, ps, j, s); }
    else {
      p := Piece(j, j + 1,
        if c == '/' then Divide else if Opens(c) then Opener else if Closes(c) then Closer(c == '}')
        else if c == ';' then Semicolon else if c == ',' then Comma else Sign);
    }
  }

  /** One turn of the plan. */
  lemma PlanTurn(w: Lists, src: string, i: nat, s: Scanner, t: Turn, rest: Option<seq<Decl>>)
    requires TriviaEnd(src, i) < |src| && t == TurnAt(w, src, TriviaEnd(src, i), s)
    requires t.Turn? ==> rest == Plan(w, src, t.end, t.next)
    ensures Plan(w, src, i, s) == if t.GiveUp? then None else Prepend(t.decl, rest)
  {
    hide TurnAt;
  }

  lemma PlanEnds(w: Lists, src: string, i: nat, s: Scanner)
    requires TriviaEnd(src, i) >= |src|
    ensures Plan(w, src, i, s) == if s.depth == 0 then Some([]) else None
  {
  }

  lemma Prefixes(ps: seq<Piece>, i: nat)
    requires i < |ps|
    ensures ps[..i + 1] == ps[..i] + [ps[i]]
  {
  }

  lemma {:induction false} PlanFinds(w: Lists, src: string, ps: seq<Piece>, i: nat, s: Scanner)
    returns (rest: seq<Decl>)
    requires Pieces(w, src, ps) && i <= |ps| && Same(w, s, ps[..i])
    ensures Plan(w, src, EndOf(ps[..i]), s) == Some(rest) && Rewrites(ps[..i]) + rest == Rewrites(ps)
    decreases |ps| - i
  {
    hide Plan, TurnAt, Fits, Rewrites, Same, Open;
    if i == |ps| {
      assert ps[..i] == ps;
      LastPiece(w, src, ps, s);
      rest := [];
      assert Rewrites(ps) + rest == Rewrites(ps);
    } else {
      assert PieceFits(w, src, ps, i);
      var before, p := ps[..i], ps[i];
      Prefixes(ps, i);
      OneMore(w, before, p);
      assert p.at < |src| by { FitsInside(w, src, before, p); }
      PieceIsTurn(w, src, before, p, s);
      var t := TurnAt(w, src, p.at, s);
      var sub := PlanFinds(w, src, ps, i + 1, t.next);
      PlanTurn(w, src, EndOf(before), s, t, Some(sub));
      var found := if t.decl.Some? then [t.decl.value] else [];
      rest := found + sub;
      assert t.decl.None? ==> rest == sub;
      assert (Rewrites(before) + found) + sub == Rewrites(before) + rest;
    }
  }

  lemma LastPiece(w: Lists, src: string, ps: seq<Piece>, s: Scanner)
    requires Pieces(w, src, ps) && Same(w, s, ps)
    ensures Plan(w, src, EndOf(ps), s) == Some([])
  {
    PlanEnds(w, src, EndOf(ps), s);
  }

  lemma SameDepth(w: Lists, s: Scanner, ps: seq<Piece>)
    requires Same(w, s, ps)
    ensures s.depth == Open(ps)
  {
  }

  lemma FitsInside(w: Lists, src: string, before: seq<Piece>, p: Piece)
    requires Fits(w, src, before, p)
    ensures p.at < |src|
  {
  }

  lemma {:induction false} BeginsMore(w: Lists, src: string, ps: seq<Piece>, p: Piece)
    requires Begins(w, src, ps) && p.at == TriviaEnd(src, EndOf(ps)) && Fits(w, src, ps, p)
    ensures Begins(w, src, ps + [p])
  {
    hide Fits, TriviaEnd;
    var qs := ps + [p];
    assert qs[..|ps|] == ps;
    forall i | 0 <= i < |qs| ensures PieceFits(w, src, qs, i) {
      if i < |ps| { assert PieceFits(w, src, ps, i) && qs[..i] == ps[..i] && qs[i] == ps[i]; }
    }
  }

  lemma {:induction false} PlanHasPieces(
    w: Lists, src: string, begun: seq<Piece>, s: Scanner, ds: seq<Decl>) returns (ps: seq<Piece>)
    requires Begins(w, src, begun) && Same(w, s, begun) && Plan(w, src, EndOf(begun), s) == Some(ds)
    ensures Pieces(w, src, ps) && Rewrites(ps) == Rewrites(begun) + ds
    decreases |src| - EndOf(begun)
  {
    hide Plan, TurnAt, Fits, Rewrites, Same, Open, Begins;
    var j := TriviaEnd(src, EndOf(begun));
    if j >= |src| {
      PlanEnds(w, src, EndOf(begun), s);
      SameDepth(w, s, begun);
      ps := begun;
    } else {
      var t := TurnAt(w, src, j, s);
      PlanTurn(w, src, EndOf(begun), s, t, if t.Turn? then Plan(w, src, t.end, t.next) else None);
      var p := TurnHasPiece(w, src, begun, j, s);
      PieceIsTurn(w, src, begun, p, s);
      BeginsMore(w, src, begun, p);
      OneMore(w, begun, p);
      var sub := Plan(w, src, t.end, t.next).value;
      assert ds == (if t.decl.Some? then [t.decl.value] else []) + sub;
      ps := PlanHasPieces(w, src, begun + [p], t.next, sub);
    }
  }

  /**
   * The scan rewrites a cell exactly when it is made of such pieces, none of which it gives up on,
   * and then rewrites the declarations among them that bind no reserved name.
   */
  lemma PlanIffPieces(w: Lists, src: string, ds: seq<Decl>)
    ensures Plan(w, src, 0, Fresh) == Some(ds) <==> exists ps :: Pieces(w, src, ps) && Rewrites(ps) == ds
  {
    hide Plan;
    if Plan(w, src, 0, Fresh) == Some(ds) {
      var ps := PlanHasPieces(w, src, [], Fresh, ds);
    }
    if ps :| Pieces(w, src, ps) && Rewrites(ps) == ds {
      assert ps[..0] == [];
      var rest := PlanFinds(w, src, ps, 0, Fresh);
      assert Rewrites([]) + rest == rest;
    }
  }

  /**
   * The scan means to give a cell up at a declaration behind async or export, but never does: the
   * word before it has ended the statement start already, so such a declaration is not one of the
   * pieces that declare, and the rest of the cell is rewritten as usual.
   */
  lemma {:induction false} MarkedStartsNothing(ps: seq<Piece>)
    ensures Marked(ps) ==> !Starts(ps)
  {
    if ps != [] && ps[|ps| - 1].sort.Divide? { MarkedStartsNothing(ps[..|ps| - 1]); }
  }

  lemma NeverGivesUpAtAsync(w: Lists, src: string, before: seq<Piece>, p: Piece)
    requires p.at < |src| && IdentStart(src[p.at]) && Marked(before)
    ensures FitsWord(w, src, before, p)
       <==> p.end == WordEnd(src, p.at + 1) && p.sort == Name(src[p.at..WordEnd(src, p.at + 1)])
  {
    MarkedStartsNothing(before);
  }

  // ---- what comes out ------------------------------------------------------------------------

  /** The text from a up to b, as far as there is any. */
  function Between(src: string, a: nat, b: nat): string {
    From(Upto(src, b), a)
  }

  /** What stands for a declaration: a class is assigned, a hoisted function leaves a semicolon. */
  function NewText(src: string, d: Decl): string {
    match d
    case Assign(e, end) => e.text + Between(src, e.at + e.consume, end)
    case ClassDecl(at, end, name) => "globalThis[\"" + name + "\"] = " + Between(src, at, end) + ";"
    case Hoisted(_, _, _) => ";"
  }

  /** The text from a position on, each declaration rewritten and everything else as it was. */
  function Output(src: string, ds: seq<Decl>, from: nat): string {
    if ds == [] then From(src, from)
    else Between(src, from, Begin(ds[0])) + NewText(src, ds[0]) + Output(src, ds[1..], ds[0].end)
  }

  /** What goes in front: the hoisted functions, assigned, in source order. */
  function Prefix(src: string, ds: seq<Decl>): string {
    if ds == [] then ""
    else
      var d := ds[0];
      (if d.Hoisted? then "globalThis[\"" + d.name + "\"] = " + Between(src, d.at, d.end) + ";" else "")
        + Prefix(src, ds[1..])
  }

  /** The spans replaced from the front. */
  function Front(src: string, spans: seq<Edit>, from: nat): string {
    if spans == [] then From(src, from)
    else Between(src, from, spans[0].at) + spans[0].text + Front(src, spans[1..], spans[0].at + spans[0].consume)
  }

  lemma FrontOne(src: string, e: Edit, rest: seq<Edit>, spans: seq<Edit>, from: nat, after: string)
    requires spans != [] && spans[0] == e && spans[1..] == rest && after == Front(src, rest, e.at + e.consume)
    ensures Front(src, spans, from) == Between(src, from, e.at) + e.text + after
  {
  }

  lemma {:induction false} FrontLast(src: string, pre: seq<Edit>, e: Edit, from: nat)
    requires e.at <= |src| && forall i :: 0 <= i < |pre| ==> pre[i].at <= e.at
    ensures Front(src, pre + [e], from)
         == Front(Upto(src, e.at), pre, from) + e.text + From(src, e.at + e.consume)
    decreases |pre|
  {
    var all, cut, last := pre + [e], Upto(src, e.at), From(src, e.at + e.consume);
    if pre == [] {
      assert all[1..] == [];
    } else {
      hide Front, Upto, From;
      var x := pre[0];
      var next := x.at + x.consume;
      var sub := Front(cut, pre[1..], next);
      assert all[0] == x && all[1..] == pre[1..] + [e];
      FrontLast(src, pre[1..], e, next);
      UptoUpto(src, x.at, e.at);
      FrontOne(src, x, all[1..], all, from, sub + e.text + last);
      FrontOne(cut, x, pre[1..], pre, from, sub);
      Associate(Between(src, from, x.at), x.text, sub, e.text, last);
    }
  }

  lemma Associate(a: string, b: string, c: string, d: string, e: string)
    ensures a + b + (c + d + e) == (a + b + c) + d + e
  {
  }

  lemma UptoUpto(src: string, a: nat, b: nat)
    requires a <= b
    ensures Upto(Upto(src, b), a) == Upto(src, a)
  {
  }

  lemma ReplaceLast(src: string, pre: seq<Edit>, e: Edit)
    ensures ReplaceAll(src, pre + [e]) == ReplaceAll(Upto(src, e.at), pre) + e.text + From(src, e.at + e.consume)
  {
    assert (pre + [e])[..|pre|] == pre;
  }

  lemma SpansFront(spans: seq<Edit>, n: nat, last: nat)
    requires Spans(spans, n) && |spans| == last + 1
    ensures spans[last].at <= n && Spans(spans[..last], spans[last].at)
    ensures forall i :: 0 <= i < last ==> spans[..last][i].at <= spans[last].at
  {
  }

  /** Replacing from the back or from the front is the same. */
  lemma {:induction false} ReplaceIsFront(src: string, spans: seq<Edit>)
    requires Spans(spans, |src|)
    ensures ReplaceAll(src, spans) == Front(src, spans, 0)
    decreases |spans|
  {
    if spans == [] {
      assert From(src, 0) == src;
    } else {
      hide ReplaceAll, Front, From, Spans;
      var n := |spans| - 1;
      var pre, e := spans[..n], spans[n];
      assert spans == pre + [e];
      SpansFront(spans, |src|, n);
      assert |Upto(src, e.at)| == e.at;
      ReplaceIsFront(Upto(src, e.at), pre);
      ReplaceLast(src, pre, e);
      FrontLast(src, pre, e, 0);
    }
  }

  /** Text that no span reaches is copied. */
  lemma FrontCopies(src: string, spans: seq<Edit>, a: nat, b: nat)
    requires a <= b && (spans != [] ==> b <= spans[0].at <= |src|)
    ensures Front(src, spans, a) == Between(src, a, b) + Front(src, spans, b)
  {
    if spans == [] {
      BetweenAll(src, a, b);
    } else {
      hide Between, Front;
      var e := spans[0];
      var after := Front(src, spans[1..], e.at + e.consume);
      FrontOne(src, e, spans[1..], spans, a, after);
      FrontOne(src, e, spans[1..], spans, b, after);
      BetweenSplits(src, a, b, e.at);
      Regroups(Between(src, a, b), Between(src, b, e.at), e.text, after);
    }
  }

  lemma Regroups(a: string, b: string, c: string, d: string)
    ensures (a + b) + c + d == a + (b + c + d)
  {
  }

  lemma BetweenAll(src: string, a: nat, b: nat)
    requires a <= b
    ensures From(src, a) == Between(src, a, b) + From(src, b)
  {
  }

  lemma BetweenSplits(src: string, a: nat, b: nat, c: nat)
    requires a <= b <= c <= |src|
    ensures Between(src, a, c) == Between(src, a, b) + Between(src, b, c)
  {
  }

  lemma {:induction false} FlatIsOutput(src: string, ds: seq<Decl>, from: nat)
    requires Placed(src, ds, from)
    ensures Front(src, Flat(ds), from) == Output(src, ds, from)
    ensures ds != [] ==> Flat(ds) != [] && Flat(ds)[0].at == Begin(ds[0])
    decreases |ds|
  {
    if ds != [] {
      var d, rest := ds[0], Flat(ds[1..]);
      FlatIsOutput(src, ds[1..], d.end);
      DeclIsNewText(src, d, rest, from, Output(src, ds[1..], d.end));
    }
  }

  lemma AssignIsNewText(src: string, d: Decl, rest: seq<Edit>, from: nat, after: string)
    requires DeclOk(src, d) && d.Assign? && from <= Begin(d) && after == Front(src, rest, d.end)
    requires rest != [] ==> d.end <= rest[0].at <= |src|
    ensures Front(src, EditsOf(d) + rest, from) == Between(src, from, Begin(d)) + NewText(src, d) + after
  {
    hide Front, Between;
    var e, all := d.edit, EditsOf(d) + rest;
    var gap := Between(src, e.at + e.consume, d.end);
    assert all[0] == e && all[1..] == rest;
    FrontCopies(src, rest, e.at + e.consume, d.end);
    FrontOne(src, e, rest, all, from, gap + after);
    assert Between(src, from, e.at) + e.text + (gap + after) == Between(src, from, e.at) + (e.text + gap) + after;
  }

  lemma ClassIsNewText(src: string, d: Decl, rest: seq<Edit>, from: nat, after: string)
    requires d.ClassDecl? && d.at <= d.end && after == Front(src, rest, d.end)
    ensures Front(src, EditsOf(d) + rest, from) == Between(src, from, d.at) + NewText(src, d) + after
  {
    hide Front, Between;
    var x, y := EditsOf(d)[0], Edit(d.end, 0, ";", false);
    var tail := [y] + rest;
    var all, body := EditsOf(d) + rest, Between(src, d.at, d.end);
    assert all[0] == x && all[1..] == tail && tail[1..] == rest;
    assert x.text == "globalThis[\"" + d.name + "\"] = ";
    FrontOne(src, y, rest, tail, d.at, after);
    FrontOne(src, x, tail, all, from, body + ";" + after);
    assert Between(src, from, d.at) + x.text + (body + ";" + after)
        == Between(src, from, d.at) + (x.text + body + ";") + after;
  }

  lemma DeclIsNewText(src: string, d: Decl, rest: seq<Edit>, from: nat, after: string)
    requires DeclOk(src, d) && from <= Begin(d) && after == Front(src, rest, d.end)
    requires rest != [] ==> d.end <= rest[0].at <= |src|
    ensures Front(src, EditsOf(d) + rest, from) == Between(src, from, Begin(d)) + NewText(src, d) + after
  {
    hide Front, Between;
    if d.Assign? { AssignIsNewText(src, d, rest, from, after); }
    else if d.ClassDecl? { ClassIsNewText(src, d, rest, from, after); }
    else {
      assert (EditsOf(d) + rest)[1..] == rest;
      FrontOne(src, EditsOf(d)[0], rest, EditsOf(d) + rest, from, after);
    }
  }

  lemma {:induction false} PrefixIsHoists(src: string, ds: seq<Decl>, from: nat)
    requires Placed(src, ds, from)
    ensures Hoists(src, ds) == Prefix(src, ds)
    decreases |ds|
  {
    if ds != [] {
      var rest := Prefix(src, ds[1..]);
      PrefixIsHoists(src, ds[1..], ds[0].end);
      if ds[0].Hoisted? { HoistIsAssigned(src, ds, rest); }
    }
  }

  lemma LeadIs(name: string)
    ensures "globalThis[" + Quoted(name) + "] = " == "globalThis[\"" + name + "\"] = "
  {
  }

  lemma FirstHoist(src: string, ds: seq<Decl>, rest: string)
    requires ds != [] && ds[0].Hoisted? && ds[0].at <= ds[0].end <= |src| && Hoists(src, ds[1..]) == rest
    ensures Hoists(src, ds)
         == "globalThis[" + Quoted(ds[0].name) + "] = " + src[ds[0].at..ds[0].end] + ";" + rest
  {
    hide Quoted;
  }

  lemma BetweenInside(src: string, a: nat, b: nat)
    requires a <= b <= |src|
    ensures Between(src, a, b) == src[a..b]
  {
  }

  lemma HoistIsAssigned(src: string, ds: seq<Decl>, rest: string)
    requires ds != [] && ds[0].Hoisted? && ds[0].at <= ds[0].end <= |src| && Hoists(src, ds[1..]) == rest
    ensures Hoists(src, ds)
         == "globalThis[\"" + ds[0].name + "\"] = " + Between(src, ds[0].at, ds[0].end) + ";" + rest
  {
    hide Hoists, Quoted, Between;
    LeadIs(ds[0].name);
    FirstHoist(src, ds, rest);
    BetweenInside(src, ds[0].at, ds[0].end);
  }

  /**
   * What a cell becomes when no class body ends where the next rewritten declaration begins: the
   * hoisted functions in front, each class assigned, each let and const without its keyword or
   * with its own text, a semicolon for each function, and everything else untouched.
   */
  lemma CellBecomes(w: Lists, src: string, ds: seq<Decl>)
    requires Plan(w, src, 0, Fresh) == Some(ds) && NoneMeet(ds) && MentionsDeclaration(src)
    ensures TransformCell(w, src) == Prefix(src, ds) + Output(src, ds, 0)
  {
    hide Plan, StableSort, ApplyAll;
    PlanIsPlaced(w, src, 0, Fresh, Some(ds));
    FlatIsSpans(src, ds, 0, Flat(ds));
    ReplaceIsFront(src, Flat(ds));
    FlatIsOutput(src, ds, 0);
    PrefixIsHoists(src, ds, 0);
    TransformIff(w, src, Some(ds));
    if ds == [] { assert From(src, 0) == src; }
  }

  // ---- the scans inside a declaration --------------------------------------------------------

  /** What stands before j, but for blank space from k on, is nothing at all or an operator. */
  predicate OperatorBefore(src: string, k: nat, j: nat) {
    && k <= j <= |src| && (forall m :: k <= m < j ==> TrimSpace(src[m]))
    && (k == 0 || (src[k - 1] in "=+-*%&|^!<>?:(,[{~" && !TrimSpace(src[k - 1])))
  }

  /** A slash in an initializer opens a regular expression behind an operator or at the very start. */
  lemma {:induction false} RegexMayStartIff(src: string, j: nat)
    requires j <= |src|
    ensures RegexMayStart(src, j) <==> exists k: nat :: OperatorBefore(src, k, j)
  {
    hide TrimSpace;
    if j == 0 {
      assert OperatorBefore(src, 0, 0);
    } else if TrimSpace(src[j - 1]) {
      RegexMayStartIff(src, j - 1);
      var i := j - 1;
      if k: nat :| OperatorBefore(src, k, i) { assert OperatorBefore(src, k, j); }
      if k: nat :| OperatorBefore(src, k, j) { assert OperatorBefore(src, k, i); }
    } else {
      if src[j - 1] in "=+-*%&|^!<>?:(,[{~" { assert OperatorBefore(src, j, j); }
    }
  }

  /** An initializer ends at a comma, a semicolon or a closing bracket outside its own brackets. */
  lemma InitializerStops(src: string, i: nat)
    requires i < |src| && src[i] in {',', ';', ')', ']', '}'}
    ensures InitEnd(src, i, 0) == Some(i)
    ensures src[i] in {',', ';'} ==> forall d: nat :: d > 0 ==> InitEnd(src, i, d) == InitEnd(src, i + 1, d)
  {
  }

  // ---- what a list of variables becomes ------------------------------------------------------

  function Join(parts: seq<string>, sep: string): string {
    if parts == [] then "" else if |parts| == 1 then parts[0] else parts[0] + sep + Join(parts[1..], sep)
  }

  /** The declarations of bare names, none of which loses a value it has. */
  function Defined(names: seq<string>): string {
    Join(seq(|names|, k requires 0 <= k < |names| => "globalThis[\"" + names[k] + "\"] ??= undefined"), ", ")
  }

  lemma {:induction false} VoidsIsDefined(names: seq<string>)
    requires names != []
    ensures Voids(names) == Defined(names)
  {
    var parts := seq(|names|, k requires 0 <= k < |names| => "globalThis[\"" + names[k] + "\"] ??= undefined");
    assert parts[0] == "globalThis[" + Quoted(names[0]) + "] ??= undefined";
    if |names| > 1 {
      VoidsIsDefined(names[1..]);
      assert parts[1..]
        == seq(|names| - 1, k requires 0 <= k < |names| - 1 => "globalThis[\"" + names[1..][k] + "\"] ??= undefined");
    }
  }

  /** The parts of a text between its commas. */
  lemma {:induction false} SplitIsJoined(s: string)
    ensures Join(Split(s, ','), ",") == s
    ensures forall k :: 0 <= k < |Split(s, ',')| ==> ',' !in Split(s, ',')[k]
  {
    if s != "" {
      var rest := Split(s[1..], ',');
      SplitIsJoined(s[1..]);
      if s[0] == ',' {
        assert ([""] + rest)[1..] == rest;
        assert s == "," + s[1..];
      } else {
        assert ([[s[0]] + rest[0]] + rest[1..])[1..] == rest[1..];
        assert s == [s[0]] + s[1..];
      }
    }
  }

  /**
   * A let or const list that is rewritten: a pattern goes into parentheses, a list with a value
   * only loses its keyword, and bare names are each defined unless they are already.
   */
  lemma ListBecomes(w: Lists, src: string, at: nat, i: nat, first: nat, list: nat)
    requires at < i && first == TriviaEnd(src, i) < |src| && DeclaratorsEnd(src, first) == Some(list)
    requires HandleList(w, src, at, i).Rewritten?
    ensures var d, declEnd := HandleList(w, src, at, i).decl, TriviaEnd(src, list);
      && d.Assign? && d.edit.at == at && declEnd <= d.end <= declEnd + 1 && d.edit.at + d.edit.consume <= declEnd
      && var text, out := Between(src, first, declEnd), d.edit.text + Between(src, d.edit.at + d.edit.consume, declEnd);
         && (src[first] in {'{', '['} ==> out == "(" + text + ")")
         && (src[first] !in {'{', '['} && '=' in text ==> out == text)
         && (src[first] !in {'{', '['} && '=' !in text ==>
               && (forall name :: name in Names(Split(text, ',')) ==> IsName(name))
               && out == "void(" + Defined(Names(Split(text, ','))) + ")")
  {
    hide TriviaEnd, DeclaratorsEnd, BindsReserved, Voids, Names, Split, Defined;
    var declEnd := TriviaEnd(src, list);
    var text := src[first..Min(declEnd, |src|)];
    assert text == Between(src, first, declEnd);
    assert Between(src, declEnd, declEnd) == "";
    var names := Names(Split(text, ','));
    if names != [] { VoidsIsDefined(names); }
    assert forall name :: name in names <==> exists k :: 0 <= k < |names| && names[k] == name;
  }
}
