/**
 * How transformCell (apps/kernel/src/repl-transform.ts) applies its edits: sorted from the right,
 * one at a time. Compared with replacing all the spans at once.
 */
module ReplEdits {
  import opened Prelude

  /** Replace `consume` characters at `at` by text; the hoisted functions go in with `prefix` set. */
  datatype Edit = Edit(at: nat, consume: nat, text: string, prefix: bool)

  /** JavaScript's slice keeps within the string. */
  function From(s: string, i: nat): string {
    if i <= |s| then s[i..] else ""
  }

  function Upto(s: string, i: nat): string {
    if i <= |s| then s[..i] else s
  }

  function ApplyOne(out: string, e: Edit): string {
    Upto(out, e.at) + e.text + From(out, e.at + e.consume)
  }

  function ApplyAll(out: string, edits: seq<Edit>): string
    decreases |edits|
  {
    if edits == [] then out else ApplyAll(ApplyOne(out, edits[0]), edits[1..])
  }

  // ---- the sort ------------------------------------------------------------------------------

  /** The comparison of the sort is negative. */
  predicate Before(a: Edit, b: Edit) {
    a.at > b.at || (a.at == b.at && !a.prefix && b.prefix)
  }

  /** Behind everything it does not come before. */
  function Insert(sorted: seq<Edit>, e: Edit): seq<Edit> {
    if sorted == [] || Before(e, sorted[0]) then [e] + sorted
    else [sorted[0]] + Insert(sorted[1..], e)
  }

  /** A stable sort, the edits taken in the order they were pushed. */
  function StableSort(edits: seq<Edit>): seq<Edit> {
    if edits == [] then [] else Insert(StableSort(edits[..|edits| - 1]), edits[|edits| - 1])
  }

  predicate Ordered(sorted: seq<Edit>) {
    forall i :: 0 < i < |sorted| ==> !Before(sorted[i], sorted[i - 1])
  }

  lemma {:induction false} InsertOrders(sorted: seq<Edit>, e: Edit)
    requires Ordered(sorted)
    ensures Ordered(Insert(sorted, e)) && multiset(Insert(sorted, e)) == multiset(sorted) + multiset{e}
    ensures Insert(sorted, e)[0] == e || (sorted != [] && Insert(sorted, e)[0] == sorted[0])
  {
    if sorted == [] || Before(e, sorted[0]) {
    } else {
      assert sorted == [sorted[0]] + sorted[1..];
      InsertOrders(sorted[1..], e);
    }
  }

  /** What Array.prototype.sort promises: an ordered permutation. */
  lemma {:induction false} SortSorts(edits: seq<Edit>)
    ensures Ordered(StableSort(edits)) && multiset(StableSort(edits)) == multiset(edits)
  {
    if edits != [] {
      var n := |edits| - 1;
      assert edits == edits[..n] + [edits[n]];
      SortSorts(edits[..n]);
      InsertOrders(StableSort(edits[..n]), edits[n]);
    }
  }

  // ---- what is wanted ------------------------------------------------------------------------

  /** All spans, in ascending order, replaced at once. */
  function ReplaceAll(src: string, spans: seq<Edit>): string
    decreases |spans|
  {
    if spans == [] then src
    else
      var e := spans[|spans| - 1];
      ReplaceAll(Upto(src, e.at), spans[..|spans| - 1]) + e.text + From(src, e.at + e.consume)
  }

  /** Ascending, disjoint spans of a text of length n; only the last may claim to end beyond it. */
  predicate Spans(spans: seq<Edit>, n: nat) {
    && (forall i :: 0 <= i < |spans| ==> !spans[i].prefix && spans[i].at <= n)
    && (forall i, j :: 0 <= i < j < |spans| ==> spans[i].at + spans[i].consume <= spans[j].at)
  }

  /** Span i begins where the one before it ends with an insertion. */
  predicate Touches(spans: seq<Edit>, i: int) {
    0 < i < |spans| && spans[i - 1].at == spans[i].at
  }

  predicate NoneTouch(spans: seq<Edit>) {
    forall i :: 0 <= i < |spans| ==> !Touches(spans, i)
  }

  /** A semicolon put in front of span e of src would show, wherever it ends up. */
  predicate Visible(src: string, e: Edit) {
    && (e.text == "" || e.text == ";" ==>
          0 < e.consume && e.at + e.consume <= |src| && src[e.at + e.consume - 1] != ';')
    && (e.text == "" || e.text == ";" || e.text[0] != ';')
  }

  /** Spans touch only behind an inserted semicolon, and no two in a row. */
  predicate SemiTouches(src: string, spans: seq<Edit>) {
    forall i :: 0 <= i < |spans| && Touches(spans, i) ==>
      && spans[i - 1].text == ";" && spans[i - 1].consume == 0
      && Visible(src, spans[i]) && !Touches(spans, i - 1)
  }

  // ---- the order in which a plan's edits are applied -----------------------------------------

  lemma {:induction false} ApplyAppend(out: string, x: seq<Edit>, y: seq<Edit>)
    ensures ApplyAll(out, x + y) == ApplyAll(ApplyAll(out, x), y)
    decreases |x|
  {
    if x == [] {
      assert x + y == y;
    } else {
      assert (x + y)[1..] == x[1..] + y;
      ApplyAppend(ApplyOne(out, x[0]), x[1..], y);
    }
  }

  lemma SortFront(spans: seq<Edit>, n: nat)
    requires Spans(spans, n) && spans != []
    ensures StableSort(spans) != [] && StableSort(spans)[0].at == spans[|spans| - 1].at
  {
    SortSorts(spans);
    SameMembers(StableSort(spans), spans);
    MostIsLast(StableSort(spans), spans, n);
  }

  lemma MostIsLast(sorted: seq<Edit>, spans: seq<Edit>, n: nat)
    requires Spans(spans, n) && spans != [] && Ordered(sorted)
    requires |sorted| == |spans| && forall e :: e in sorted <==> e in spans
    ensures sorted[0].at == spans[|spans| - 1].at
  {
    var m := |spans| - 1;
    assert spans[m] in spans;
    FirstIsMost(sorted, spans[m]);
    assert sorted[0] in sorted;
  }

  lemma SameMembers(x: seq<Edit>, y: seq<Edit>)
    requires multiset(x) == multiset(y)
    ensures |x| == |y| && forall e :: e in x <==> e in y
  {
    assert |multiset(x)| == |x| && |multiset(y)| == |y|;
    forall e ensures e in x <==> e in y {
      assert e in x <==> e in multiset(x);
    }
  }

  lemma {:induction false} FirstIsMost(sorted: seq<Edit>, e: Edit)
    requires Ordered(sorted) && e in sorted
    ensures sorted[0].at >= e.at
    decreases |sorted|
  {
    var n := |sorted| - 1;
    if e != sorted[0] {
      assert sorted == [sorted[0]] + sorted[1..];
      FirstIsMost(sorted[1..], e);
      assert !Before(sorted[1], sorted[0]);
    }
  }

  /** A span behind all others is applied first. */
  lemma SortLast(spans: seq<Edit>, n: nat)
    requires Spans(spans, n) && spans != [] && !Touches(spans, |spans| - 1)
    ensures StableSort(spans) == [spans[|spans| - 1]] + StableSort(spans[..|spans| - 1])
  {
    var m := |spans| - 1;
    if m > 0 {
      SortFront(spans[..m], n);
      assert Before(spans[m], StableSort(spans[..m])[0]);
    }
  }

  /** Of two at one place the earlier one is applied first. */
  lemma SortTouching(spans: seq<Edit>, n: nat)
    requires Spans(spans, n) && Touches(spans, |spans| - 1) && !Touches(spans, |spans| - 2)
    ensures var m := |spans| - 1; StableSort(spans) == [spans[m - 1], spans[m]] + StableSort(spans[..m - 1])
  {
    var m := |spans| - 1;
    var front := spans[..m];
    assert !Touches(front, m - 1);
    SortLast(front, n);
    var rest := StableSort(front[..m - 1]);
    assert front[..m - 1] == spans[..m - 1];
    assert StableSort(front) == [spans[m - 1]] + rest;
    if m > 1 {
      SortFront(spans[..m - 1], n);
      assert Before(spans[m], rest[0]);
    }
    InsertBehind(spans[m - 1], spans[m], rest);
  }

  lemma InsertBehind(l: Edit, e: Edit, rest: seq<Edit>)
    requires !Before(e, l) && (rest == [] || Before(e, rest[0]))
    ensures Insert([l] + rest, e) == [l, e] + rest
  {
    assert ([l] + rest)[1..] == rest && Insert(rest, e) == [e] + rest;
    assert [l] + ([e] + rest) == [l, e] + rest;
  }

  /** The hoisted functions go in last. */
  lemma {:induction false} PrefixIsLast(spans: seq<Edit>, p: Edit)
    requires p.at == 0 && p.prefix
    ensures StableSort(spans + [p]) == StableSort(spans) + [p]
  {
    assert (spans + [p])[..|spans|] == spans;
    InsertLast(StableSort(spans), p);
  }

  lemma {:induction false} InsertLast(sorted: seq<Edit>, p: Edit)
    requires p.at == 0 && p.prefix
    ensures Insert(sorted, p) == sorted + [p]
  {
    if sorted != [] {
      InsertLast(sorted[1..], p);
      assert sorted == [sorted[0]] + sorted[1..];
    }
  }

  // ---- applying is replacing -----------------------------------------------------------------

  /** The edits in the order the sort gives them. */
  function FromTheBack(out: string, spans: seq<Edit>): string
    decreases |spans|
  {
    if spans == [] then out
    else
      var m := |spans| - 1;
      if Touches(spans, m) then FromTheBack(ApplyOne(ApplyOne(out, spans[m - 1]), spans[m]), spans[..m - 1])
      else FromTheBack(ApplyOne(out, spans[m]), spans[..m])
  }

  /** No three spans at one place. */
  predicate Pairs(spans: seq<Edit>) {
    forall i :: 0 <= i < |spans| && Touches(spans, i) ==> !Touches(spans, i - 1)
  }

  lemma SortsOne(out: string, spans: seq<Edit>, n: nat, e: Edit, rest: seq<Edit>, r: string)
    requires Spans(spans, n) && spans != [] && !Touches(spans, |spans| - 1) && e == spans[|spans| - 1]
    requires rest == StableSort(spans[..|spans| - 1]) && r == ApplyAll(ApplyOne(out, e), rest)
    requires r == FromTheBack(ApplyOne(out, e), spans[..|spans| - 1])
    ensures ApplyAll(out, StableSort(spans)) == r && FromTheBack(out, spans) == r
  {
    SortLast(spans, n);
    assert ([e] + rest)[1..] == rest;
    BackOne(out, spans, ApplyOne(out, e), r);
  }

  lemma SortsTwo(out: string, spans: seq<Edit>, n: nat, after: string, rest: seq<Edit>, r: string)
    requires Spans(spans, n) && Touches(spans, |spans| - 1) && !Touches(spans, |spans| - 2)
    requires after == ApplyOne(ApplyOne(out, spans[|spans| - 2]), spans[|spans| - 1])
    requires rest == StableSort(spans[..|spans| - 2]) && r == ApplyAll(after, rest)
    requires r == FromTheBack(after, spans[..|spans| - 2])
    ensures ApplyAll(out, StableSort(spans)) == r && FromTheBack(out, spans) == r
  {
    SortTouching(spans, n);
    ApplyTwo(out, spans[|spans| - 2], spans[|spans| - 1], rest);
    BackTwo(out, spans, after, r);
  }

  lemma FrontPairs(spans: seq<Edit>, m: nat, n: nat)
    requires Spans(spans, n) && Pairs(spans) && m <= |spans|
    ensures Spans(spans[..m], n) && Pairs(spans[..m])
  {
    FrontIsSpans(spans, m, n);
  }

  lemma LastPairStands(spans: seq<Edit>)
    requires Pairs(spans) && spans != [] && Touches(spans, |spans| - 1)
    ensures !Touches(spans, |spans| - 2)
  {
  }

  lemma {:induction false} SortIsFromTheBack(out: string, spans: seq<Edit>, n: nat)
    requires Spans(spans, n) && Pairs(spans)
    ensures ApplyAll(out, StableSort(spans)) == FromTheBack(out, spans)
    decreases |spans|
  {
    if spans != [] {
      hide Spans, Pairs, StableSort, ApplyAll, ApplyOne, FromTheBack;
      var m := |spans| - 1;
      if Touches(spans, m) {
        var after := ApplyOne(ApplyOne(out, spans[m - 1]), spans[m]);
        LastPairStands(spans);
        FrontPairs(spans, m - 1, n);
        SortIsFromTheBack(after, spans[..m - 1], n);
        SortsTwo(out, spans, n, after, StableSort(spans[..m - 1]), FromTheBack(after, spans[..m - 1]));
      } else {
        var after := ApplyOne(out, spans[m]);
        FrontPairs(spans, m, n);
        SortIsFromTheBack(after, spans[..m], n);
        SortsOne(out, spans, n, spans[m], StableSort(spans[..m]), FromTheBack(after, spans[..m]));
      }
    }
  }

  lemma ApplyTwo(out: string, a: Edit, b: Edit, rest: seq<Edit>)
    ensures ApplyAll(out, [a, b] + rest) == ApplyAll(ApplyOne(ApplyOne(out, a), b), rest)
  {
    assert ([a, b] + rest)[1..] == [b] + rest && ([b] + rest)[1..] == rest;
    assert ApplyAll(out, [a, b] + rest) == ApplyAll(ApplyOne(out, a), [b] + rest);
  }

  lemma FrontIsSpans(spans: seq<Edit>, m: nat, n: nat)
    requires Spans(spans, n) && m <= |spans|
    ensures Spans(spans[..m], n) && (Pairs(spans) ==> Pairs(spans[..m]))
    ensures forall i :: 0 <= i < m ==> Touches(spans[..m], i) == Touches(spans, i)
  {
    assert forall i :: 0 <= i < m ==> spans[..m][i] == spans[i];
    assert forall i :: 0 <= i < m ==> Touches(spans[..m], i) == Touches(spans, i);
    assert forall i :: i <= 0 ==> !Touches(spans[..m], i);
  }

  // ---- applying is replacing -----------------------------------------------------------------

  /** Edits within x leave what follows it. */
  lemma ApplyInFront(x: string, y: string, e: Edit)
    requires e.at + e.consume <= |x|
    ensures ApplyOne(x + y, e) == ApplyOne(x, e) + y && |ApplyOne(x, e)| >= e.at
  {
    assert (x + y)[e.at + e.consume..] == x[e.at + e.consume..] + y;
    assert (x + y)[..e.at] == x[..e.at];
  }

  /** All spans end within n characters. */
  predicate Within(spans: seq<Edit>, n: nat) {
    forall i :: 0 <= i < |spans| ==> spans[i].at + spans[i].consume <= n
  }

  /** One turn, or the two turns of a touching pair; r is what the rest of the spans make of it. */
  lemma BackOne(out: string, spans: seq<Edit>, after: string, r: string)
    requires spans != [] && !Touches(spans, |spans| - 1) && after == ApplyOne(out, spans[|spans| - 1])
    requires FromTheBack(after, spans[..|spans| - 1]) == r
    ensures FromTheBack(out, spans) == r
  {
  }

  lemma BackTwo(out: string, spans: seq<Edit>, after: string, r: string)
    requires Touches(spans, |spans| - 1)
    requires after == ApplyOne(ApplyOne(out, spans[|spans| - 2]), spans[|spans| - 1])
    requires FromTheBack(after, spans[..|spans| - 2]) == r
    ensures FromTheBack(out, spans) == r
  {
  }

  lemma {:induction false} FrontStays(x: string, y: string, spans: seq<Edit>, n: nat, r: string)
    requires Spans(spans, n) && Within(spans, |x|) && r == FromTheBack(x, spans)
    ensures FromTheBack(x + y, spans) == r + y
    decreases |spans|
  {
    hide Pairs, SemiTouches, ApplyAll;
    if spans != [] {
      var m := |spans| - 1;
      var e := spans[m];
      if Touches(spans, m) {
        FrontIsSpans(spans, m - 1, n);
        ApplyInFront(x, y, spans[m - 1]);
        var x1 := ApplyOne(x, spans[m - 1]);
        assert |x1| + spans[m - 1].consume >= |x|;
        ApplyInFront(x1, y, e);
        var x2 := ApplyOne(x1, e);
        FrontStays(x2, y, spans[..m - 1], n, FromTheBack(x2, spans[..m - 1]));
        BackTwo(x, spans, x2, FromTheBack(x2, spans[..m - 1]));
        BackTwo(x + y, spans, x2 + y, r + y);
      } else {
        FrontIsSpans(spans, m, n);
        ApplyInFront(x, y, e);
        var x1 := ApplyOne(x, e);
        FrontStays(x1, y, spans[..m], n, FromTheBack(x1, spans[..m]));
        BackOne(x + y, spans, x1 + y, r + y);
      }
    }
  }

  lemma ReplaceLast(src: string, spans: seq<Edit>, e: Edit, b: string)
    requires spans != [] && e == spans[|spans| - 1] && ReplaceAll(Upto(src, e.at), spans[..|spans| - 1]) == b
    ensures ReplaceAll(src, spans) == b + (e.text + From(src, e.at + e.consume))
  {
    Associates(b, e.text, From(src, e.at + e.consume));
  }

  lemma Associates(a: string, b: string, c: string)
    ensures a + b + c == a + (b + c)
  {
  }

  /** Off the front of a text and its last span: what either way makes of them. */
  lemma LastSpan(src: string, spans: seq<Edit>, x: string, e: Edit, tail: string, a: string, b: string)
    requires Spans(spans, |src|) && spans != [] && !Touches(spans, |spans| - 1) && e == spans[|spans| - 1]
    requires x == Upto(src, e.at) && tail == e.text + From(src, e.at + e.consume)
    requires a == FromTheBack(x, spans[..|spans| - 1]) && b == ReplaceAll(x, spans[..|spans| - 1])
    ensures FromTheBack(src, spans) == a + tail && ReplaceAll(src, spans) == b + tail
  {
    var front := spans[..|spans| - 1];
    FrontIsSpans(spans, |spans| - 1, |src|);
    assert ApplyOne(src, e) == x + tail;
    FrontStays(x, tail, front, |src|, a);
    BackOne(src, spans, x + tail, a + tail);
    ReplaceLast(src, spans, e, b);
  }

  lemma WholeText(x: string)
    ensures Upto(x, |x|) == x && ";" + From(x, |x|) == ";"
  {
  }

  lemma InsertionAtEnd(x: string, spans: seq<Edit>, b: string)
    requires spans != [] && spans[|spans| - 1].at == |x|
    requires spans[|spans| - 1].text == ";" && spans[|spans| - 1].consume == 0
    requires b == ReplaceAll(x, spans[..|spans| - 1])
    ensures ReplaceAll(x, spans) == b + ";"
  {
    hide ReplaceAll, Upto, From;
    WholeText(x);
    ReplaceLast(x, spans, spans[|spans| - 1], b);
  }

  lemma WantedOfPair(src: string, spans: seq<Edit>, x: string, e: Edit, wanted: string, b: string)
    requires Spans(spans, |src|) && Touches(spans, |spans| - 1) && e == spans[|spans| - 1]
    requires spans[|spans| - 2].text == ";" && spans[|spans| - 2].consume == 0
    requires x == src[..e.at] && wanted == ";" + (e.text + From(src, e.at + e.consume))
    requires b == ReplaceAll(x, spans[..|spans| - 2])
    ensures ReplaceAll(src, spans) == b + wanted
  {
    var m := |spans| - 1;
    var both := spans[..m];
    assert both[..m - 1] == spans[..m - 1] && both[m - 1] == spans[m - 1];
    InsertionAtEnd(x, both, b);
    ReplaceLast(src, spans, e, b + ";");
    Associates(b, ";", e.text + From(src, e.at + e.consume));
  }

  /** The semicolon of a touching pair, then its second edit. */
  lemma PairApplies(src: string, semi: Edit, e: Edit, x: string, applied: string)
    requires semi.at == e.at <= |src| && semi.text == ";" && semi.consume == 0
    requires x == src[..e.at] && applied == e.text + From(";" + src[e.at..], e.consume)
    ensures ApplyOne(ApplyOne(src, semi), e) == x + applied
  {
    assert ApplyOne(src, semi) == x + (";" + src[e.at..]);
    assert ApplyOne(x + (";" + src[e.at..]), e) == x + applied;
  }

  lemma FrontWithin(spans: seq<Edit>, m: nat, n: nat)
    requires Spans(spans, n) && 0 < m < |spans| && spans[m - 1].at == spans[m].at
    ensures Within(spans[..m - 1], spans[m].at)
  {
  }

  lemma AppliedOfPair(src: string, spans: seq<Edit>, x: string, e: Edit, applied: string, a: string)
    requires Spans(spans, |src|) && Pairs(spans) && Touches(spans, |spans| - 1) && e == spans[|spans| - 1]
    requires spans[|spans| - 2].text == ";" && spans[|spans| - 2].consume == 0
    requires x == src[..e.at] && applied == e.text + From(";" + src[e.at..], e.consume)
    requires a == FromTheBack(x, spans[..|spans| - 2])
    ensures FromTheBack(src, spans) == a + applied
  {
    var m := |spans| - 1;
    FrontIsSpans(spans, m - 1, |src|);
    PairApplies(src, spans[m - 1], e, x, applied);
    FrontWithin(spans, m, |src|);
    hide Spans, Pairs, FromTheBack, ApplyOne, From, Touches, Within;
    FrontStays(x, applied, spans[..m - 1], |src|, a);
    BackTwo(src, spans, x + applied, a + applied);
  }

  /** The semicolon of a touching pair shows. */
  lemma PairDiffers(src: string, e: Edit, applied: string, wanted: string)
    requires e.at <= |src| && Visible(src, e)
    requires applied == e.text + From(";" + src[e.at..], e.consume)
    requires wanted == ";" + (e.text + From(src, e.at + e.consume))
    ensures applied != wanted
    ensures e.at + e.consume <= |src| ==> |applied| == |wanted|
  {
    if e.text == "" {
      assert applied[0] == src[e.at + e.consume - 1];
    } else if e.text == ";" {
      assert applied[1] == src[e.at + e.consume - 1] && wanted[1] == ';';
    } else {
      assert applied[0] == e.text[0] && wanted[0] == ';';
    }
  }

  lemma FrontTouches(src: string, spans: seq<Edit>, m: nat, p: nat)
    requires Spans(spans, |src|) && SemiTouches(src, spans) && m <= |spans| && p <= |src| && Within(spans[..m], p)
    ensures SemiTouches(src[..p], spans[..m]) && Pairs(spans[..m])
    ensures (NoneTouch(spans) ==> NoneTouch(spans[..m]))
  {
    FrontIsSpans(spans, m, |src|);
    forall i | 0 <= i < m && Touches(spans[..m], i)
      ensures Visible(src[..p], spans[i]) && !Touches(spans[..m], i - 1)
    {
      assert spans[..m][i].at + spans[..m][i].consume <= p;
      if i > 0 { assert Touches(spans[..m], i - 1) == Touches(spans, i - 1); }
    }
  }

  /** The spans before the last one, or the last two that touch, over the text before them. */
  lemma Front(src: string, spans: seq<Edit>, k: nat)
    requires Spans(spans, |src|) && SemiTouches(src, spans) && spans != []
    requires k == if Touches(spans, |spans| - 1) then |spans| - 2 else |spans| - 1
    ensures var p := spans[|spans| - 1].at; var x := src[..p];
      Spans(spans[..k], |x|) && Within(spans[..k], |x|) && SemiTouches(x, spans[..k])
    ensures k == |spans| - 1 ==> (NoneTouch(spans[..k]) <==> NoneTouch(spans))
  {
    var p := spans[|spans| - 1].at;
    assert Within(spans[..k], p);
    FrontTouches(src, spans, k, p);
    FrontIsSpans(spans, k, |src|);
  }

  lemma AllPairs(src: string, spans: seq<Edit>)
    requires SemiTouches(src, spans)
    ensures Pairs(spans)
  {
  }

  /** The result has the length it should have. */
  lemma {:induction false} SameLength(src: string, spans: seq<Edit>, a: string, b: string)
    requires Spans(spans, |src|) && Within(spans, |src|) && SemiTouches(src, spans)
    requires a == FromTheBack(src, spans) && b == ReplaceAll(src, spans)
    ensures |a| == |b|
    decreases |spans|
  {
    if spans != [] {
      var m := |spans| - 1;
      var e := spans[m];
      var x, k := src[..e.at], if Touches(spans, m) then m - 1 else m;
      var fx, rx := FromTheBack(x, spans[..k]), ReplaceAll(x, spans[..k]);
      Front(src, spans, k);
      SameLength(x, spans[..k], fx, rx);
      LastOfBoth(src, spans, x, fx, rx, a, b);
    }
  }

  /** Either way ends in the same text, or, behind a touching pair, in different ones. */
  lemma LastOfBoth(src: string, spans: seq<Edit>, x: string, fx: string, rx: string, a: string, b: string)
    requires Spans(spans, |src|) && SemiTouches(src, spans) && spans != [] && x == src[..spans[|spans| - 1].at]
    requires a == FromTheBack(src, spans) && b == ReplaceAll(src, spans)
    requires var k := if Touches(spans, |spans| - 1) then |spans| - 2 else |spans| - 1;
      |fx| == |rx| && fx == FromTheBack(x, spans[..k]) && rx == ReplaceAll(x, spans[..k])
    ensures Within(spans, |src|) ==> |a| == |b|
    ensures a == b <==> !Touches(spans, |spans| - 1) && fx == rx
  {
    var m := |spans| - 1;
    var e := spans[m];
    if Touches(spans, m) {
      var applied := e.text + From(";" + src[e.at..], e.consume);
      var wanted := ";" + (e.text + From(src, e.at + e.consume));
      AllPairs(src, spans);
      AppliedOfPair(src, spans, x, e, applied, fx);
      WantedOfPair(src, spans, x, e, wanted, rx);
      PairDiffers(src, e, applied, wanted);
      EndsDiffer(fx, applied, rx, wanted);
    } else {
      var tail := e.text + From(src, e.at + e.consume);
      LastSpan(src, spans, x, e, tail, fx, rx);
      SameTail(fx, rx, tail);
    }
  }

  /** Applied one at a time from the back, the edits replace all spans exactly when none touch. */
  lemma {:induction false} FromTheBackIff(src: string, spans: seq<Edit>, a: string, b: string)
    requires Spans(spans, |src|) && SemiTouches(src, spans)
    requires a == FromTheBack(src, spans) && b == ReplaceAll(src, spans)
    ensures a == b <==> NoneTouch(spans)
    decreases |spans|
  {
    if spans != [] {
      var m := |spans| - 1;
      var e := spans[m];
      var x, k := src[..e.at], if Touches(spans, m) then m - 1 else m;
      var fx, rx := FromTheBack(x, spans[..k]), ReplaceAll(x, spans[..k]);
      Front(src, spans, k);
      SameLength(x, spans[..k], fx, rx);
      LastOfBoth(src, spans, x, fx, rx, a, b);
      if !Touches(spans, m) {
        FromTheBackIff(x, spans[..m], fx, rx);
      }
    }
  }

  lemma EndsDiffer(a: string, x: string, b: string, y: string)
    requires |a| == |b|
    ensures a + x == b + y ==> x == y
  {
    assert x == (a + x)[|a|..] && y == (b + y)[|b|..];
  }

  lemma SameTail(a: string, b: string, t: string)
    ensures a + t == b + t <==> a == b
  {
    if a + t == b + t {
      assert |a| == |b|;
      assert a == (a + t)[..|a|] == (b + t)[..|b|] == b;
    }
  }

  lemma PrefixApplies(src: string, spans: seq<Edit>, prefix: string, out: string)
    requires out == ApplyAll(src, StableSort(spans))
    ensures ApplyAll(src, StableSort(spans + [Edit(0, 0, prefix, true)])) == prefix + out
  {
    var p := Edit(0, 0, prefix, true);
    PrefixIsLast(spans, p);
    ApplyAppend(src, StableSort(spans), [p]);
    ApplySingle(out, p);
    InsertInFront(out, prefix);
  }

  lemma ApplySingle(out: string, e: Edit)
    ensures ApplyAll(out, [e]) == ApplyOne(out, e)
  {
    assert [e][1..] == [];
  }

  lemma InsertInFront(out: string, prefix: string)
    ensures ApplyOne(out, Edit(0, 0, prefix, true)) == prefix + out
  {
    assert out[..0] == "" && out[0..] == out;
  }

  /**
   * The sort and the edits, and the hoisted functions after them, are the simultaneous
   * replacement behind the hoisted text exactly when no two spans touch.
   */
  lemma AppliedIff(src: string, spans: seq<Edit>, prefix: string)
    requires Spans(spans, |src|) && SemiTouches(src, spans)
    ensures ApplyAll(src, StableSort(spans + [Edit(0, 0, prefix, true)])) == prefix + ReplaceAll(src, spans)
       <==> NoneTouch(spans)
    ensures ApplyAll(src, StableSort(spans)) == ReplaceAll(src, spans) <==> NoneTouch(spans)
  {
    var out, wanted := FromTheBack(src, spans), ReplaceAll(src, spans);
    AllPairs(src, spans);
    SortIsFromTheBack(src, spans, |src|);
    FromTheBackIff(src, spans, out, wanted);
    PrefixApplies(src, spans, prefix, out);
    SameHead(prefix, out, wanted);
  }

  lemma SameHead(h: string, a: string, b: string)
    ensures h + a == h + b <==> a == b
  {
    if h + a == h + b {
      assert a == (h + a)[|h|..] == (h + b)[|h|..] == b;
    }
  }
}
