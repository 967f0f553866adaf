/** The loops of transformCell over its cursor, each against its function in ReplPlan. */
module ReplPlanLoops {
  import opened Prelude
  import opened ReplTokens
  import opened ReplScan
  import opened ReplLoops
  import opened ReplEdits
  import opened ReplPlan

  /** skipTrivia and ws */
  method SkipTrivia(src: string, start: nat) returns (i: nat)
    ensures i == TriviaEnd(src, start)
  {
    i := start;
    while i < |src|
      invariant i >= start && TriviaEnd(src, i) == TriviaEnd(src, start)
      decreases |src| - i
    {
      if ScanSpace(src[i]) {
        i := i + 1;
      } else if src[i] == '/' && i + 1 < |src| && src[i + 1] == '/' {
        i := SkipLineFrom(src, i + 2);
      } else if src[i] == '/' && i + 1 < |src| && src[i + 1] == '*' {
        i := SkipBlockFrom(src, i + 2);
        i := i + 2;
      } else {
        return;
      }
    }
  }

  /** The strings and comments every inner scan passes over first. */
  method TrySkip(src: string, i: nat) returns (s: Skipped)
    requires i < |src|
    ensures s == SkipAt(src, i)
  {
    var c := src[i];
    if Quote(c) {
      var ok, j := SkipStringFrom(src, i, c);
      return if ok then Skipped(j) else Unclosed;
    }
    if c == '/' && i + 1 < |src| && src[i + 1] == '/' {
      var j := SkipLineFrom(src, i + 2);
      return Skipped(j);
    }
    if c == '/' && i + 1 < |src| && src[i + 1] == '*' {
      var j := SkipBlockFrom(src, i + 2);
      return Skipped(j + 2);
    }
    return Plain;
  }

  method SkipBalanced(src: string, start: nat) returns (e: Option<nat>)
    ensures e == BalancedEnd(src, start, 0)
  {
    var i, d := start, 0;
    while i < |src|
      invariant BalancedEnd(src, i, d) == BalancedEnd(src, start, 0)
      decreases |src| - i
    {
      var s := TrySkip(src, i);
      if s.Unclosed? { return None; }
      if s.Skipped? {
        i := s.end;
      } else if Opens(src[i]) {
        d, i := d + 1, i + 1;
      } else if Closes(src[i]) {
        d, i := d - 1, i + 1;
        if d == 0 { return Some(i); }
      } else {
        i := i + 1;
      }
    }
    return None;
  }

  /** prevNonWs, and whether a regular expression may follow it. */
  method RegexMayFollow(src: string, i: nat) returns (r: bool)
    requires i <= |src|
    ensures r == RegexMayStart(src, i)
  {
    var j: nat := i;
    while j > 0 && TrimSpace(src[j - 1])
      invariant j <= |src| && RegexMayStart(src, j) == RegexMayStart(src, i)
    {
      j := j - 1;
    }
    return j == 0 || src[j - 1] in "=+-*%&|^!<>?:(,[{~";
  }

  method SkipInitializer(src: string, start: nat) returns (e: Option<nat>)
    ensures e == InitEnd(src, start, 0)
  {
    var i, d: nat := start, 0;
    while i < |src|
      invariant InitEnd(src, i, d) == InitEnd(src, start, 0)
      decreases |src| - i
    {
      var s := TrySkip(src, i);
      if s.Unclosed? { return None; }
      if s.Skipped? {
        i := s.end;
      } else if src[i] == '/' {
        var regex := RegexMayFollow(src, i);
        if regex {
          var ok, j := SkipRegexFrom(src, i);
          if !ok { return None; }
          i := j;
        } else {
          i := i + 1;
        }
      } else if Opens(src[i]) {
        d, i := d + 1, i + 1;
      } else if Closes(src[i]) {
        if d == 0 { return Some(i); }
        d, i := d - 1, i + 1;
      } else if d == 0 && (src[i] == ',' || src[i] == ';') {
        return Some(i);
      } else {
        i := i + 1;
      }
    }
    return Some(i);
  }

  /** One turn of validateDeclaratorList. */
  method ValidateDeclarator(src: string, start: nat) returns (e: Option<nat>)
    requires start < |src|
    ensures e == DeclaratorEnd(src, start)
  {
    var i := start;
    if src[i] == '{' || src[i] == '[' {
      var k := SkipBalanced(src, i);
      if k.None? { return None; }
      i := k.value;
    } else if IdentStart(src[i]) {
      i := SkipWord(src, i + 1);
    } else {
      return None;
    }
    i := SkipTrivia(src, i);
    if i < |src| && src[i] == '=' {
      var v := SkipInitializer(src, i + 1);
      if v.None? { return None; }
      i := v.value;
    }
    i := SkipTrivia(src, i);
    return Some(i);
  }

  method ValidateDeclaratorList(src: string, start: nat) returns (e: Option<nat>)
    ensures e == DeclaratorsEnd(src, start)
  {
    hide TriviaEnd, DeclaratorEnd;
    var i := start;
    while true
      invariant DeclaratorsEnd(src, i) == DeclaratorsEnd(src, start)
      decreases |src| - i
    {
      i := SkipTrivia(src, i);
      if i >= |src| { return Some(i); }
      var k := ValidateDeclarator(src, i);
      if k.None? { return None; }
      i := k.value;
      if !(i < |src| && src[i] == ',') { return Some(i); }
      i := i + 1;
    }
  }

  /** skipToBlockEnd */
  method SkipToBlockEnd(src: string, start: nat) returns (e: Option<nat>)
    ensures e == var brace := ToBrace(src, start); if brace.None? then None else BodyEnd(src, brace.value, 0)
  {
    var i := start;
    while i < |src| && src[i] != '{'
      invariant ToBrace(src, i) == ToBrace(src, start)
      decreases |src| - i
    {
      var s := TrySkip(src, i);
      if s.Unclosed? { return None; }
      i := if s.Skipped? then s.end else i + 1;
    }
    if i >= |src| { return None; }
    ghost var brace := i;
    var d := 0;
    while i < |src|
      invariant BodyEnd(src, i, d) == BodyEnd(src, brace, 0)
      decreases |src| - i
    {
      var s := TrySkip(src, i);
      if s.Unclosed? { return None; }
      if s.Skipped? {
        i := s.end;
      } else if src[i] == '{' {
        d, i := d + 1, i + 1;
      } else if src[i] == '}' {
        d, i := d - 1, i + 1;
        if d == 0 { return Some(i); }
      } else {
        i := i + 1;
      }
    }
    return None;
  }

  /** handleDeclaration for a function or a class. */
  method HandleFunctionOrClass(w: Lists, src: string, isClass: bool, at: nat, start: nat) returns (h: Handled)
    requires at < start
    ensures h == HandleNamed(w, src, isClass, at, start)
  {
    var i := SkipTrivia(src, start);
    if i >= |src| || (!isClass && src[i] == '*') { return Bail; }
    if !IdentStart(src[i]) { return Bail; }
    var ns := i;
    i := SkipWord(src, i + 1);
    var name := src[ns..i];
    var end := SkipToBlockEnd(src, i);
    if end.None? { return Bail; }
    if w.reserved(name) { return Kept(end.value); }
    return Rewritten(if isClass then ClassDecl(at, end.value, name) else Hoisted(at, end.value, name));
  }

  /** handleDeclaration for let and const. */
  method HandleLetOrConst(w: Lists, src: string, at: nat, start: nat) returns (h: Handled)
    requires at < start
    ensures h == HandleList(w, src, at, start)
  {
    hide TriviaEnd, DeclaratorsEnd, RewriteList, BindsReserved;
    var first := SkipTrivia(src, start);
    if first >= |src| { return Bail; }
    var pattern := src[first] == '{' || src[first] == '[';
    var list := ValidateDeclaratorList(src, first);
    if list.None? { return Bail; }
    var declEnd := SkipTrivia(src, list.value);
    var end := declEnd;
    if declEnd < |src| && src[declEnd] == ';' { end := declEnd + 1; }
    var text := src[first..Min(declEnd, |src|)];
    if BindsReserved(w, text, pattern) { return Kept(end); }
    return RewriteList(src, at, first, declEnd, end, pattern);
  }

  /** planEdits on a word. */
  method ReadWord(w: Lists, src: string, j: nat, s: Scanner) returns (t: Turn)
    requires j < |src| && IdentStart(src[j])
    ensures t == WordTurn(w, src, j, s)
  {
    var i := SkipWord(src, j + 1);
    var word := src[j..i];
    if s.depth == 0 && s.stmt && Declares(word) {
      if s.pending { return GiveUp; }
      var h;
      if word == "function" || word == "class" {
        h := HandleFunctionOrClass(w, src, word == "class", j, i);
      } else {
        h := HandleLetOrConst(w, src, j, i);
      }
      match h {
        case Bail => return GiveUp;
        case Kept(next) => return Turn(next, Fresh, None);
        case Rewritten(d) => return Turn(d.end, Fresh, Some(d));
      }
    }
    if word == "async" || word == "export" { return Turn(i, Scanner(s.depth, false, true, true), None); }
    return Turn(i, Scanner(s.depth, false, w.regexAfter(word), false), None);
  }

  /** planEdits on the token at j. */
  method ReadTurn(w: Lists, src: string, j: nat, s: Scanner) returns (t: Turn)
    requires j < |src|
    ensures t == TurnAt(w, src, j, s)
  {
    var c := src[j];
    if Quote(c) {
      var ok, i := SkipStringFrom(src, j, c);
      if !ok { return GiveUp; }
      return Turn(i, Scanner(s.depth, false, false, false), None);
    }
    if c == '/' {
      if !s.rx { return Turn(j + 1, Scanner(s.depth, false, true, s.pending), None); }
      var ok, i := SkipRegexFrom(src, j);
      if !ok { return GiveUp; }
      return Turn(i, Scanner(s.depth, false, false, false), None);
    }
    if Opens(c) { return Turn(j + 1, Scanner(s.depth + 1, false, true, false), None); }
    if Closes(c) {
      if s.depth == 0 { return GiveUp; }
      var stmt := s.stmt;
      if s.depth == 1 && c == '}' { stmt := true; }
      return Turn(j + 1, Scanner(s.depth - 1, stmt, false, false), None);
    }
    if c == ';' { return Turn(j + 1, Scanner(s.depth, s.stmt || s.depth == 0, true, false), None); }
    if c == ',' { return Turn(j + 1, Scanner(s.depth, s.stmt, true, false), None); }
    if IdentStart(c) {
      t := ReadWord(w, src, j, s);
      return;
    }
    return Turn(j + 1, Scanner(s.depth, false, true, false), None);
  }

  /** What a plan's head and its rest give together. */
  ghost function Whole(done: seq<Decl>, rest: Option<seq<Decl>>): Option<seq<Decl>> {
    if rest.None? then None else Some(done + rest.value)
  }

  lemma {:induction false} FlatAppend(ds: seq<Decl>, d: Decl)
    ensures Flat(ds + [d]) == Flat(ds) + EditsOf(d)
  {
    if ds == [] {
      assert ([] + [d])[1..] == [];
    } else {
      assert (ds + [d])[1..] == ds[1..] + [d];
      FlatAppend(ds[1..], d);
    }
  }

  lemma {:induction false} HoistsAppend(src: string, ds: seq<Decl>, d: Decl)
    ensures Hoists(src, ds + [d]) == Hoists(src, ds) + Hoists(src, [d])
  {
    if ds == [] {
      assert [] + [d] == [d];
    } else {
      assert (ds + [d])[1..] == ds[1..] + [d];
      HoistsAppend(src, ds[1..], d);
    }
  }

  /** The last turn of planEdits. */
  lemma PlanEnds(w: Lists, src: string, i: nat, s: Scanner, j: nat)
    requires j == TriviaEnd(src, i)
    ensures j >= |src| ==> Plan(w, src, i, s) == if s.depth == 0 then Some([]) else None
    ensures j < |src| && TurnAt(w, src, j, s).GiveUp? ==> Plan(w, src, i, s) == None
  {
  }

  /** Any other turn. */
  lemma PlanTurns(w: Lists, src: string, i: nat, s: Scanner, j: nat, t: Turn)
    requires j == TriviaEnd(src, i) && j < |src| && t == TurnAt(w, src, j, s) && t.Turn?
    ensures Plan(w, src, i, s) == Prepend(t.decl, Plan(w, src, t.end, t.next))
  {
  }

  /** A declaration found moves from the rest to what is done. */
  lemma WholeMoves(done: seq<Decl>, d: Option<Decl>, rest: Option<seq<Decl>>)
    ensures Whole(done, Prepend(d, rest)) == Whole(Found(done, d), rest)
    ensures Whole(done, Some([])) == Some(done)
    ensures Whole([], rest) == rest
  {
    assert done + [] == done;
    if rest.Some? {
      assert [] + rest.value == rest.value;
      if d.Some? { assert done + ([d.value] + rest.value) == done + [d.value] + rest.value; }
    }
  }

  function Found(done: seq<Decl>, d: Option<Decl>): seq<Decl> {
    if d.None? then done else done + [d.value]
  }

  lemma Pushes(src: string, done: seq<Decl>, d: Option<Decl>)
    ensures Flat(Found(done, d)) == Flat(done) + if d.None? then [] else EditsOf(d.value)
    ensures Hoists(src, Found(done, d)) == Hoists(src, done) + if d.None? then "" else Hoists(src, [d.value])
    ensures HoistsAny(Found(done, d)) == (HoistsAny(done) || (d.Some? && d.value.Hoisted?))
  {
    if d.Some? {
      FlatAppend(done, d.value);
      HoistsAppend(src, done, d.value);
      assert (done + [d.value])[|done|] == d.value;
      assert forall k :: 0 <= k < |done| ==> (done + [d.value])[k] == done[k];
    }
  }

  /** planEdits */
  method PlanEdits(w: Lists, src: string) returns (edits: Option<seq<Edit>>)
    ensures var ds := Plan(w, src, 0, Fresh);
      edits == if ds.None? then None else Some(EditList(src, ds.value))
  {
    var i: nat, s := 0, Fresh;
    var list: seq<Edit>, hoisted: string, any := [], "", false;
    ghost var done: seq<Decl>, goal := [], Plan(w, src, 0, Fresh);
    WholeMoves([], None, goal);
    while true
      invariant list == Flat(done) && hoisted == Hoists(src, done) && any == HoistsAny(done)
      invariant goal == Whole(done, Plan(w, src, i, s))
      decreases |src| - i
    {
      var j := SkipTrivia(src, i);
      PlanEnds(w, src, i, s, j);
      if j >= |src| {
        WholeMoves(done, None, None);
        break;
      }
      var t := ReadTurn(w, src, j, s);
      if t.GiveUp? { return None; }
      PlanTurns(w, src, i, s, j, t);
      WholeMoves(done, t.decl, Plan(w, src, t.end, t.next));
      Pushes(src, done, t.decl);
      if t.decl.Some? {
        list := list + EditsOf(t.decl.value);
        hoisted := hoisted + Hoists(src, [t.decl.value]);
        any := any || t.decl.value.Hoisted?;
      }
      done := Found(done, t.decl);
      i, s := t.end, t.next;
    }
    if s.depth != 0 { return None; }
    if any { list := list + [Edit(0, 0, hoisted, true)]; }
    return Some(list);
  }

  /** transformCell */
  method Transform(w: Lists, src: string) returns (out: string)
    ensures out == TransformCell(w, src)
  {
    if src == "" || !MentionsDeclaration(src) { return src; }
    var edits := PlanEdits(w, src);
    if edits.None? || edits.value == [] { return src; }
    var sorted := StableSort(edits.value);
    out := src;
    for k := 0 to |sorted|
      invariant ApplyAll(out, sorted[k..]) == ApplyAll(src, sorted)
    {
      assert sorted[k..][1..] == sorted[k + 1..];
      out := ApplyOne(out, sorted[k]);
    }
  }
}
