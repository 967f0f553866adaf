/** Cells of one declaration each, and what transformCell makes of them, character by character. */
module ReplSamples {
  import opened Prelude
  import opened ReplTokens
  import opened ReplScan
  import opened ReplLoops
  import opened ReplEdits
  import opened ReplPlan
  import opened ReplCells

  // ---- a cell that is one declaration --------------------------------------------------------

  /** The cell starts with the keyword, and the declaration goes on to its end. */
  ghost predicate IsOne(w: Lists, src: string, word: string, h: Handled) {
    && KeywordAt(src, 0, word) && word in {"let", "const", "function", "class"}
    && WordEnd(src, 1) == |word| && h == HandleDeclaration(w, src, word, 0, |word|)
    && (!h.Bail? ==> ReplPlan.Next(h) >= |src|)
  }

  lemma FirstTurn(w: Lists, src: string, word: string, h: Handled)
    requires IsOne(w, src, word, h)
    ensures src != "" && TriviaEnd(src, 0) == 0 && MentionsDeclaration(src)
    ensures TurnAt(w, src, 0, Fresh)
         == if h.Bail? then GiveUp
            else Turn(ReplPlan.Next(h), Fresh, if h.Kept? then None else Some(h.decl))
  {
    hide HandleDeclaration;
    assert src[0..|word|] == word && IdentStart(src[0]) by { assert src[0] == word[0]; }
  }

  lemma PlanOfOne(w: Lists, src: string, word: string, h: Handled)
    requires IsOne(w, src, word, h)
    ensures src != "" && MentionsDeclaration(src)
    ensures Plan(w, src, 0, Fresh) == if h.Bail? then None else Some(if h.Kept? then [] else [h.decl])
  {
    FirstTurn(w, src, word, h);
    hide HandleDeclaration, TurnAt, Plan, TriviaEnd;
    var t := TurnAt(w, src, 0, Fresh);
    if t.Turn? { NothingBehind(w, src, t.end); }
    PlanTurn(w, src, 0, Fresh, t, if t.Turn? then Plan(w, src, t.end, t.next) else None);
    if h.Rewritten? { assert [h.decl] + [] == [h.decl]; }
  }

  lemma NothingBehind(w: Lists, src: string, end: nat)
    requires end >= |src|
    ensures Plan(w, src, end, Fresh) == Some([])
  {
  }

  /** What is left alone stays as it is. */
  lemma OneStays(w: Lists, src: string, word: string, h: Handled)
    requires IsOne(w, src, word, h) && !h.Rewritten?
    ensures TransformCell(w, src) == src
  {
    hide HandleDeclaration, StableSort, ApplyAll;
    PlanOfOne(w, src, word, h);
    if h.Kept? { TransformIff(w, src, Some([])); }
  }

  /** And what is rewritten is the whole of the new cell. */
  lemma OneBecomes(w: Lists, src: string, word: string, d: Decl)
    requires IsOne(w, src, word, Handled.Rewritten(d))
    ensures TransformCell(w, src) == Prefix(src, [d]) + NewText(src, d)
  {
    PlanOfOne(w, src, word, Handled.Rewritten(d));
    hide HandleDeclaration, Plan, TransformCell, NewText, Prefix;
    StartsAtZero(w, src, word, d);
    CellBecomes(w, src, [d]);
    OutputOfOne(src, d);
  }

  lemma StartsAtZero(w: Lists, src: string, word: string, d: Decl)
    requires IsOne(w, src, word, Handled.Rewritten(d))
    ensures Begin(d) == 0 && d.end >= |src|
  {
    assert IdentStart(src[0]) by { assert src[0..|word|] == word && src[0] == word[0]; }
    HandledOk(w, src, word, 0, |word|);
  }

  lemma OutputOfOne(src: string, d: Decl)
    requires Begin(d) == 0 && d.end >= |src|
    ensures Output(src, [d], 0) == NewText(src, d)
  {
    hide NewText;
    assert [d][1..] == [] && From(src, d.end) == "" && Between(src, 0, 0) == "";
  }

  // ---- functions and classes -----------------------------------------------------------------

  /** A named declaration: its name from j to k, its body from the brace at b on. */
  lemma NamedIs(w: Lists, src: string, isClass: bool, i: nat, j: nat, k: nat, b: nat, end: nat)
    requires 0 < i && TriviaEnd(src, i) == j < |src| && IdentStart(src[j]) && (isClass || src[j] != '*')
    requires WordEnd(src, j + 1) == k && ToBrace(src, k) == Some(b) && BodyEnd(src, b, 0) == Some(end)
    ensures k <= |src|
    ensures HandleNamed(w, src, isClass, 0, i)
         == if w.reserved(src[j..k]) then Kept(end)
            else Handled.Rewritten(if isClass then ClassDecl(0, end, src[j..k]) else Hoisted(0, end, src[j..k]))
  {
    hide TriviaEnd, ToBrace, BodyEnd;
  }

  lemma ClassIsOne(w: Lists)
    requires !w.reserved("A")
    ensures IsOne(w, "class A{}", "class", Handled.Rewritten(ClassDecl(0, 9, "A")))
  {
    var src := "class A{}";
    assert TriviaEnd(src, 5) == 6 && WordEnd(src, 7) == 7 && src[6..7] == "A" && WordEnd(src, 1) == 5;
    assert ToBrace(src, 7) == Some(7) && BodyEnd(src, 7, 0) == Some(9) && src[0..5] == "class";
    hide TriviaEnd, ToBrace, BodyEnd, HandleNamed, WordEnd;
    NamedIs(w, src, true, 5, 6, 7, 7, 9);
  }

  /** A class is assigned where it stands. */
  lemma ClassCell(w: Lists)
    requires !w.reserved("A")
    ensures TransformCell(w, "class A{}") == "globalThis[\"A\"] = class A{};"
  {
    hide TransformCell, IsOne;
    ClassIsOne(w);
    OneBecomes(w, "class A{}", "class", ClassDecl(0, 9, "A"));
    assert Between("class A{}", 0, 9) == "class A{}";
  }

  lemma FunctionWord(src: string)
    requires |src| > 8 && src[..8] == "function" && !IdentPart(src[8])
    ensures WordEnd(src, 1) == 8 && KeywordAt(src, 0, "function")
  {
    assert forall i :: 0 <= i < 8 ==> src[i] == "function"[i];
    assert WordEnd(src, 8) == 8;
    assert WordEnd(src, 7) == 8;
    assert WordEnd(src, 6) == 8;
    assert WordEnd(src, 5) == 8;
    assert WordEnd(src, 4) == 8;
    assert WordEnd(src, 3) == 8;
    assert src[0..8] == "function";
  }

  lemma FunctionIsOne(w: Lists)
    requires !w.reserved("f")
    ensures IsOne(w, "function f(){}", "function", Handled.Rewritten(Hoisted(0, 14, "f")))
  {
    var src := "function f(){}";
    FunctionWord(src);
    FunctionName();
    FunctionBody();
    hide TriviaEnd, ToBrace, BodyEnd, HandleNamed, WordEnd;
    NamedIs(w, src, false, 8, 9, 10, 12, 14);
  }

  lemma FunctionName()
    ensures TriviaEnd("function f(){}", 8) == 9 && WordEnd("function f(){}", 10) == 10 && "function f(){}"[9..10] == "f"
  {
  }

  lemma FunctionBody()
    ensures ToBrace("function f(){}", 10) == Some(12) && BodyEnd("function f(){}", 12, 0) == Some(14)
  {
  }

  /** A function moves to the front and leaves a semicolon. */
  lemma FunctionCell(w: Lists)
    requires !w.reserved("f")
    ensures TransformCell(w, "function f(){}") == "globalThis[\"f\"] = function f(){};;"
  {
    hide TransformCell, IsOne;
    var src, d := "function f(){}", Hoisted(0, 14, "f");
    FunctionIsOne(w);
    OneBecomes(w, src, "function", d);
    assert Between(src, 0, 14) == src && [d][1..] == [];
    assert Prefix(src, [d]) == "globalThis[\"f\"] = function f(){};";
  }

  /** A generator is left alone, and so is a function with the name of something of the host's. */
  lemma FunctionsThatStay(w: Lists)
    requires w.reserved("use")
    ensures TransformCell(w, "function*g(){}") == "function*g(){}"
    ensures TransformCell(w, "function use(){}") == "function use(){}"
  {
    hide TransformCell, IsOne;
    GeneratorIsOne(w);
    HostNameIsOne(w);
    OneStays(w, "function*g(){}", "function", Bail);
    OneStays(w, "function use(){}", "function", Kept(16));
  }

  lemma GeneratorIsOne(w: Lists)
    ensures IsOne(w, "function*g(){}", "function", Bail)
  {
    var src := "function*g(){}";
    FunctionWord(src);
    assert TriviaEnd(src, 8) == 8;
  }

  lemma HostNameIsOne(w: Lists)
    requires w.reserved("use")
    ensures IsOne(w, "function use(){}", "function", Kept(16))
  {
    var src := "function use(){}";
    FunctionWord(src);
    assert TriviaEnd(src, 8) == 9 && WordEnd(src, 10) == 12 && src[9..12] == "use";
    HostBody();
    hide TriviaEnd, ToBrace, BodyEnd, HandleNamed, WordEnd;
    NamedIs(w, src, false, 8, 9, 12, 14, 16);
  }

  lemma HostBody()
    ensures ToBrace("function use(){}", 12) == Some(14) && BodyEnd("function use(){}", 14, 0) == Some(16)
  {
  }

  // ---- variables -----------------------------------------------------------------------------

  /** Where a list stands: its text from `first` up to declEnd, the declaration's end at `end`. */
  ghost predicate ListAt(src: string, i: nat, first: nat, declEnd: nat, end: nat, text: string) {
    && 0 < i && TriviaEnd(src, i) == first < |src|
    && DeclaratorsEnd(src, first).Some? && TriviaEnd(src, DeclaratorsEnd(src, first).value) == declEnd
    && end == (if declEnd < |src| && src[declEnd] == ';' then declEnd + 1 else declEnd)
    && first <= declEnd <= |src| && text == src[first..declEnd]
  }

  lemma KeptIsOne(w: Lists, src: string, word: string, first: nat, declEnd: nat, text: string)
    requires KeywordAt(src, 0, word) && (word == "let" || word == "const") && WordEnd(src, 1) == |word|
    requires ListAt(src, |word|, first, declEnd, |src|, text)
    requires BindsReserved(w, text, src[first] == '{' || src[first] == '[')
    ensures IsOne(w, src, word, Kept(|src|))
  {
    hide TriviaEnd, DeclaratorsEnd, BindsReserved, RewriteList;
  }

  predicate AllNames(names: seq<string>) {
    names != [] && forall k :: 0 <= k < |names| ==> IsName(names[k])
  }

  /** The three ways of rewriting a list that binds no name of the host's. */
  function ListEdit(first: nat, declEnd: nat, text: string, pattern: bool): Edit
    requires pattern || '=' in text || Names(Split(text, ',')) != []
  {
    if pattern then Edit(0, declEnd, "(" + text + ")", false)
    else if '=' in text then Edit(0, first, "", false)
    else Edit(0, declEnd, "void(" + Voids(Names(Split(text, ','))) + ")", false)
  }

  lemma ListIsOne(w: Lists, src: string, word: string, first: nat, declEnd: nat, text: string, pattern: bool)
    requires KeywordAt(src, 0, word) && (word == "let" || word == "const") && WordEnd(src, 1) == |word|
    requires ListAt(src, |word|, first, declEnd, |src|, text)
    requires pattern == (src[first] == '{' || src[first] == '[') && !BindsReserved(w, text, pattern)
    requires pattern || '=' in text || AllNames(Names(Split(text, ',')))
    ensures IsOne(w, src, word, Handled.Rewritten(Assign(ListEdit(first, declEnd, text, pattern), |src|)))
  {
    hide TriviaEnd, DeclaratorsEnd, BindsReserved, Voids, Names, Split, IsName;
  }

  lemma BetweenEnd(src: string, a: nat)
    requires a <= |src|
    ensures Between(src, a, |src|) == src[a..]
  {
  }

  lemma TextOfEdit(src: string, e: Edit)
    requires e.at == 0 && e.consume <= |src|
    ensures NewText(src, Assign(e, |src|)) == e.text + src[e.consume..]
  {
    hide From, Upto;
    BetweenEnd(src, e.consume);
  }

  lemma NothingInFront(src: string, d: Decl)
    requires d.Assign?
    ensures Prefix(src, [d]) == ""
  {
    assert [d][1..] == [];
  }

  /** A cell that is one list: in parentheses, without its keyword, or each name defined. */
  lemma ListCell(w: Lists, src: string, word: string, first: nat, declEnd: nat, text: string, pattern: bool)
    requires KeywordAt(src, 0, word) && (word == "let" || word == "const") && WordEnd(src, 1) == |word|
    requires ListAt(src, |word|, first, declEnd, |src|, text)
    requires pattern == (src[first] == '{' || src[first] == '[') && !BindsReserved(w, text, pattern)
    requires pattern || '=' in text || AllNames(Names(Split(text, ',')))
    ensures first <= declEnd <= |src|
    ensures TransformCell(w, src)
         == if pattern then "(" + text + ")" + src[declEnd..]
            else if '=' in text then src[first..]
            else "void(" + Defined(Names(Split(text, ','))) + ")" + src[declEnd..]
  {
    hide TransformCell, IsOne, WordEnd, BindsReserved, Split, Names, Voids, IsName, TriviaEnd, DeclaratorsEnd, Defined;
    hide NewText, Prefix, KeywordAt;
    ListIsOne(w, src, word, first, declEnd, text, pattern);
    var e := ListEdit(first, declEnd, text, pattern);
    OneBecomes(w, src, word, Assign(e, |src|));
    TextOfEdit(src, e);
    NothingInFront(src, Assign(e, |src|));
    if !pattern && '=' !in text { VoidsIsDefined(Names(Split(text, ','))); }
  }

  lemma PatternListCell(w: Lists, src: string, word: string, first: nat, declEnd: nat, text: string)
    requires KeywordAt(src, 0, word) && (word == "let" || word == "const") && WordEnd(src, 1) == |word|
    requires ListAt(src, |word|, first, declEnd, |src|, text)
    requires (src[first] == '{' || src[first] == '[') && !BindsReserved(w, text, true)
    ensures TransformCell(w, src) == "(" + text + ")" + src[declEnd..]
  {
    hide TransformCell, BindsReserved, Split, Names, IsName, TriviaEnd, DeclaratorsEnd, WordEnd, Defined, KeywordAt;
    ListCell(w, src, word, first, declEnd, text, true);
  }

  /** The word of a plain list's only part. */
  lemma OnePartBinds(w: Lists, text: string, word: string)
    requires ',' !in text && IsName(word) && word <= text && (|word| == |text| || !IdentPart(text[|word|]))
    ensures BindsReserved(w, text, false) <==> w.reserved(word)
  {
    NoComma(text);
    NameIsLead(text, word);
    assert Split(text, ',')[0] == text;
  }

  lemma {:induction false} NoComma(text: string)
    requires ',' !in text
    ensures Split(text, ',') == [text]
  {
    if text != "" {
      assert text[0] in text && forall c :: c in text[1..] ==> c in text;
      NoComma(text[1..]);
      assert [text[0]] + text[1..] == text;
    }
  }

  lemma NameIsLead(text: string, word: string)
    requires IsName(word) && word <= text && (|word| == |text| || !IdentPart(text[|word|]))
    ensures TrimStart(text) == text && IdentStart(text[0]) && text[..IdentLen(text)] == word
  {
    assert text[0] == word[0];
    IdentRun(text, word);
  }

  lemma {:induction false} IdentRun(text: string, word: string)
    requires IdentLen(word) == |word| && word <= text && (|word| == |text| || !IdentPart(text[|word|]))
    ensures IdentLen(text) == |word|
  {
    if word != "" {
      assert text[0] == word[0] && word[1..] <= text[1..];
      IdentRun(text[1..], word[1..]);
    }
  }

  lemma LetOneEnds()
    ensures WordEnd("let x=1;", 1) == 3 && ListAt("let x=1;", 3, 4, 7, 8, "x=1")
  {
    var src := "let x=1;";
    assert InitEnd(src, 6, 0) == Some(7) && TriviaEnd(src, 7) == 7 && TriviaEnd(src, 5) == 5;
    assert DeclaratorEnd(src, 4) == Some(7);
  }

  /** A variable with a value loses its keyword. */
  lemma LetCell(w: Lists)
    requires !w.reserved("x")
    ensures TransformCell(w, "let x=1;") == "x=1;"
  {
    hide TransformCell, WordEnd, BindsReserved, Split, Names, TriviaEnd, DeclaratorsEnd;
    LetOneEnds();
    OnePartBinds(w, "x=1", "x");
    assert "let x=1;"[0..3] == "let" && '=' in "x=1";
    ListCell(w, "let x=1;", "let", 4, 7, "x=1", false);
    assert "let x=1;"[4..] == "x=1;";
  }

  lemma BareEnds()
    ensures WordEnd("let a,b", 1) == 3 && ListAt("let a,b", 3, 4, 7, 7, "a,b")
  {
    var src := "let a,b";
    assert DeclaratorEnd(src, 4) == Some(5) && DeclaratorEnd(src, 6) == Some(7);
    assert TriviaEnd(src, 4) == 4 && TriviaEnd(src, 6) == 6;
    assert DeclaratorsEnd(src, 6) == Some(7);
  }

  lemma BareParts()
    ensures Split("a,b", ',') == ["a", "b"]
  {
    assert "a,b"[1..] == ",b" && ",b"[1..] == "b" && "b"[1..] == "";
    assert ['a'] + "" == "a" && ['b'] + "" == "b";
    var none := Split("", ',');
    assert none == [""];
    var last := Split("b", ',');
    assert last == [['b'] + none[0]] + none[1..] == ["b"];
    var two := Split(",b", ',');
    assert two == [""] + last;
    assert Split("a,b", ',') == [['a'] + two[0]] + two[1..];
  }

  lemma BareNames()
    ensures Names(["a", "b"]) == ["a", "b"] && IsName("a") && IsName("b")
  {
    assert Trim("a") == "a" && Trim("b") == "b";
    assert ["a", "b"][1..] == ["b"] && ["b"][1..] == [];
    assert Names(["b"]) == ["b"];
  }

  lemma TwoDefined()
    ensures Defined(["a", "b"])
         == ("globalThis[\"" + "a" + "\"] ??= undefined") + ", " + ("globalThis[\"" + "b" + "\"] ??= undefined")
  {
    var x, y := "globalThis[\"" + "a" + "\"] ??= undefined", "globalThis[\"" + "b" + "\"] ??= undefined";
    var parts := seq(2, k requires 0 <= k < 2 => "globalThis[\"" + ["a", "b"][k] + "\"] ??= undefined");
    assert parts == [x, y] && [x, y][1..] == [y];
    assert Join([x, y], ", ") == x + ", " + y;
  }

  lemma BareBinds(w: Lists)
    requires !w.reserved("a") && !w.reserved("b")
    ensures !BindsReserved(w, "a,b", false)
  {
    BareParts();
    NameIsLead("a", "a");
    NameIsLead("b", "b");
  }

  /** Bare names are defined unless they are already. */
  lemma BareCell(w: Lists)
    requires !w.reserved("a") && !w.reserved("b")
    ensures TransformCell(w, "let a,b")
         == "void("
          + (("globalThis[\"" + "a" + "\"] ??= undefined") + ", " + ("globalThis[\"" + "b" + "\"] ??= undefined"))
          + ")"
  {
    BareEnds();
    BareParts();
    BareNames();
    BareBinds(w);
    TwoDefined();
    hide TransformCell, WordEnd, ListAt, BindsReserved, Split, Names, IsName, Defined;
    assert "let a,b"[0..3] == "let" && '=' !in "a,b" && "let a,b"[7..] == "";
    ListCell(w, "let a,b", "let", 4, 7, "a,b", false);
  }

  lemma PatternEnds()
    ensures WordEnd("const {a}=use", 1) == 5 && ListAt("const {a}=use", 5, 6, 13, 13, "{a}=use")
  {
    var src := "const {a}=use";
    assert BalancedEnd(src, 6, 0) == Some(9) && InitEnd(src, 10, 0) == Some(13);
    assert TriviaEnd(src, 9) == 9 && TriviaEnd(src, 6) == 6 && TriviaEnd(src, 13) == 13;
    assert DeclaratorEnd(src, 6) == Some(13);
  }

  lemma PatternBinds(w: Lists)
    requires !w.reserved("a")
    ensures !BindsReserved(w, "{a}=use", true)
  {
    assert BindingEnd("{a}=use", 0, 0) == 3 && "{a}=use"[..3] == "{a}";
    assert "{a}"[1..] == "a}" && "a}"[1..] == "}" && IdentLen("a}") == 1 && "a}"[..1] == "a";
    assert Idents("}") == [];
    assert Idents("a}") == ["a"];
    assert Idents("{a}") == ["a"];
  }

  /** A pattern goes into parentheses; a host name to its right does not matter. */
  lemma PatternCell(w: Lists)
    requires !w.reserved("a")
    ensures TransformCell(w, "const {a}=use") == "({a}=use)"
  {
    hide TransformCell, WordEnd, BindsReserved, TriviaEnd, DeclaratorsEnd;
    PatternEnds();
    PatternBinds(w);
    assert "const {a}=use"[0..5] == "const" && "const {a}=use"[13..] == "";
    PatternListCell(w, "const {a}=use", "const", 6, 13, "{a}=use");
  }

  lemma HostPatternEnds()
    ensures WordEnd("let {a=use}=o", 1) == 3 && ListAt("let {a=use}=o", 3, 4, 13, 13, "{a=use}=o")
  {
    var src := "let {a=use}=o";
    assert BalancedEnd(src, 4, 0) == Some(11) && InitEnd(src, 12, 0) == Some(13);
    assert TriviaEnd(src, 11) == 11 && TriviaEnd(src, 4) == 4 && TriviaEnd(src, 13) == 13;
    assert DeclaratorEnd(src, 4) == Some(13);
  }

  lemma HostPatternNames()
    ensures |Idents("{a=use}")| >= 2 && Idents("{a=use}")[1] == "use"
  {
    assert "{a=use}"[1..] == "a=use}" && "a=use}"[1..] == "=use}" && "=use}"[1..] == "use}";
    assert IdentLen("a=use}") == 1 && IdentLen("use}") == 3 && "use}"[..3] == "use" && "use}"[3..] == "}";
    var rest := Idents("}");
    assert Idents("use}") == ["use"] + rest;
    assert Idents("=use}") == Idents("use}");
    assert Idents("a=use}") == ["a=use}"[..1]] + Idents("=use}");
    assert Idents("{a=use}") == Idents("a=use}");
  }

  lemma HostPatternRegion()
    ensures BindingEnd("{a=use}=o", 0, 0) == 7 && "{a=use}=o"[..7] == "{a=use}"
  {
  }

  lemma HostPatternBinds(w: Lists)
    requires w.reserved("use")
    ensures BindsReserved(w, "{a=use}=o", true)
  {
    HostPatternNames();
    HostPatternRegion();
    hide BindingEnd, Idents;
  }

  /** But one inside the pattern, be it as a default, keeps the declaration. */
  lemma HostPatternStays(w: Lists)
    requires w.reserved("use")
    ensures TransformCell(w, "let {a=use}=o") == "let {a=use}=o"
  {
    hide TransformCell, IsOne, WordEnd, BindsReserved, TriviaEnd, DeclaratorsEnd;
    HostPatternEnds();
    HostPatternBinds(w);
    assert "let {a=use}=o"[0..3] == "let";
    KeptIsOne(w, "let {a=use}=o", "let", 4, 13, "{a=use}=o");
    OneStays(w, "let {a=use}=o", "let", Kept(13));
  }

  lemma HostVariableEnds()
    ensures WordEnd("let use=1", 1) == 3 && ListAt("let use=1", 3, 4, 9, 9, "use=1")
  {
    var src := "let use=1";
    assert InitEnd(src, 8, 0) == Some(9) && TriviaEnd(src, 9) == 9 && TriviaEnd(src, 7) == 7 && WordEnd(src, 5) == 7;
    assert DeclaratorEnd(src, 4) == Some(9);
  }

  /** So does a variable with the name of something of the host's. */
  lemma HostVariableStays(w: Lists)
    requires w.reserved("use")
    ensures TransformCell(w, "let use=1") == "let use=1"
  {
    hide TransformCell, IsOne, WordEnd, BindsReserved, TriviaEnd, DeclaratorsEnd;
    HostVariableEnds();
    OnePartBinds(w, "use=1", "use");
    assert "let use=1"[0..3] == "let";
    KeptIsOne(w, "let use=1", "let", 4, 9, "use=1");
    OneStays(w, "let use=1", "let", Kept(9));
  }
}
