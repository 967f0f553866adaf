/**
 * The path resolver, written twice: one fold in Rust (apps/kernel/src/lib.rs) and two passes in
 * TypeScript (packages/engram-fs/src/keys.ts).
 */
module Paths {
  import opened Prelude
  import StagedFs

  const ROOT: string := "/workspace"

  datatype PathError = HasNul | Escapes | IsRoot | NoSession

  // ---- strings as segments -------------------------------------------------------------------

  function Split(s: string): (r: seq<string>)
    ensures r != []
    ensures forall seg, c | seg in r && c in seg :: c != '/'
  {
    if s == "" then [""]
    else
      var rest := Split(s[1..]);
      if s[0] == '/' then [""] + rest else [[s[0]] + rest[0]] + rest[1..]
  }

  function Join(segs: seq<string>): string {
    if segs == [] then "" else if |segs| == 1 then segs[0] else segs[0] + "/" + Join(segs[1..])
  }

  predicate Clean(seg: string) {
    seg != "" && seg != "." && seg != ".." && forall c | c in seg :: c != '/'
  }

  predicate AllClean(segs: seq<string>) {
    forall seg | seg in segs :: Clean(seg)
  }

  lemma {:induction false} SplitOne(seg: string)
    requires forall c | c in seg :: c != '/'
    ensures Split(seg) == [seg]
  {
    if seg != "" {
      assert forall c | c in seg[1..] :: c in seg;
      assert seg[0] in seg;
      SplitOne(seg[1..]);
      assert [seg[0]] + seg[1..] == seg;
    }
  }

  lemma {:induction false} SplitFirst(seg: string, rest: string)
    requires forall c | c in seg :: c != '/'
    ensures Split(seg + "/" + rest) == [seg] + Split(rest)
  {
    var s := seg + "/" + rest;
    if seg == "" {
      assert s == "/" + rest && s[1..] == rest;
    } else {
      assert forall c | c in seg[1..] :: c in seg;
      assert seg[0] in seg;
      SplitFirst(seg[1..], rest);
      assert s[1..] == seg[1..] + "/" + rest && [seg[0]] + seg[1..] == seg;
    }
  }

  lemma {:induction false} SplitJoin(segs: seq<string>)
    requires segs != [] && AllClean(segs)
    ensures Split(Join(segs)) == segs
  {
    assert segs[0] in segs;
    if |segs| == 1 {
      SplitOne(segs[0]);
      assert segs == [segs[0]];
    } else {
      assert AllClean(segs[1..]) && forall c | c in segs[0] :: c != '/';
      hide Split, Clean, AllClean;
      SplitJoin(segs[1..]);
      SplitFirst(segs[0], Join(segs[1..]));
    }
  }

  predicate Contains(s: string, c: char) {
    exists i :: 0 <= i < |s| && s[i] == c
  }

  // ---- normalization -------------------------------------------------------------------------

  /** Drop empty and "." segments, pop on "..", and refuse to pop the first floor segments. */
  function Fold(segs: seq<string>, out: seq<string>, floor: nat): Option<seq<string>> {
    if segs == [] then Some(out)
    else if segs[0] == "" || segs[0] == "." then Fold(segs[1..], out, floor)
    else if segs[0] == ".." then
      if |out| <= floor then None else Fold(segs[1..], out[..|out| - 1], floor)
    else Fold(segs[1..], out + [segs[0]], floor)
  }

  lemma {:induction false} FoldAppend(a: seq<string>, b: seq<string>, out: seq<string>, floor: nat)
    ensures Fold(a + b, out, floor)
         == var first := Fold(a, out, floor); if first.None? then None else Fold(b, first.value, floor)
  {
    if a == [] {
      assert a + b == b;
    } else {
      assert (a + b)[1..] == a[1..] + b;
      if a[0] == "" || a[0] == "." { FoldAppend(a[1..], b, out, floor); }
      else if a[0] == ".." {
        if |out| > floor { FoldAppend(a[1..], b, out[..|out| - 1], floor); }
      } else { FoldAppend(a[1..], b, out + [a[0]], floor); }
    }
  }

  lemma {:induction false} FoldOfClean(segs: seq<string>, out: seq<string>, floor: nat)
    requires AllClean(segs)
    ensures Fold(segs, out, floor) == Some(out + segs)
  {
    if segs != [] {
      assert segs[0] in segs;
      assert forall s | s in segs[1..] :: s in segs;
      FoldOfClean(segs[1..], out + [segs[0]], floor);
      assert out + [segs[0]] + segs[1..] == out + segs;
    } else {
      assert out + segs == out;
    }
  }

  /** Normalizing keeps the floor and yields only clean segments above it. */
  lemma {:induction false} FoldResult(segs: seq<string>, out: seq<string>, floor: nat)
    requires |out| >= floor && AllClean(out)
    requires forall seg, c | seg in segs && c in seg :: c != '/'
    ensures var r := Fold(segs, out, floor);
      r.Some? ==>
        && |r.value| >= floor && r.value[..floor] == out[..floor] && AllClean(r.value)
        && forall seg | seg in r.value :: seg in out || seg in segs
  {
    if segs != [] {
      assert segs[0] in segs;
      if segs[0] == "" || segs[0] == "." { FoldResult(segs[1..], out, floor); }
      else if segs[0] == ".." {
        if |out| > floor {
          FoldResult(segs[1..], out[..|out| - 1], floor);
          assert out[..|out| - 1][..floor] == out[..floor];
        }
      } else {
        FoldResult(segs[1..], out + [segs[0]], floor);
        assert (out + [segs[0]])[..floor] == out[..floor];
      }
    }
  }

  /** How far the segments lead down: a name by one, ".." up by one. */
  function Height(segs: seq<string>): int {
    if segs == [] then 0
    else
      var last := segs[|segs| - 1];
      Height(segs[..|segs| - 1]) + if last == "" || last == "." then 0 else if last == ".." then -1 else 1
  }

  lemma {:induction false} HeightFront(first: string, rest: seq<string>)
    ensures Height([first] + rest) == Height([first]) + Height(rest)
  {
    if rest == [] {
      assert [first] + rest == [first];
    } else {
      var all, n := [first] + rest, |rest|;
      assert all[..n] == [first] + rest[..n - 1] && all[n] == rest[n - 1];
      HeightFront(first, rest[..n - 1]);
    }
  }

  /** Some first part of the segments leads above the floor. */
  ghost predicate LeadsOut(segs: seq<string>, height: int, floor: int) {
    exists k :: 0 <= k <= |segs| && height + Height(segs[..k]) < floor
  }

  /** A path is refused exactly when it leaves the root on its way; otherwise it ends at its height. */
  lemma {:induction false} FoldRefusesIff(segs: seq<string>, out: seq<string>, floor: nat)
    requires |out| >= floor
    ensures Fold(segs, out, floor).None? <==> LeadsOut(segs, |out|, floor)
    ensures Fold(segs, out, floor).Some? ==> |Fold(segs, out, floor).value| == |out| + Height(segs)
  {
    if segs == [] {
      assert segs[..0] == [];
    } else {
      var x, rest := segs[0], segs[1..];
      var step := Height([x]);
      assert segs == [x] + rest && [x][..0] == [];
      HeightFront(x, rest);
      LeadsOutStep(segs, |out|, floor);
      if x == "" || x == "." { FoldRefusesIff(rest, out, floor); }
      else if x == ".." {
        if |out| > floor { FoldRefusesIff(rest, out[..|out| - 1], floor); }
        else { assert LeadsOut(rest, |out| - 1, floor) by { assert rest[..0] == []; } }
      } else { FoldRefusesIff(rest, out + [x], floor); }
    }
  }

  lemma LeadsOutStep(segs: seq<string>, height: int, floor: int)
    requires segs != [] && height >= floor
    ensures LeadsOut(segs, height, floor) <==> LeadsOut(segs[1..], height + Height([segs[0]]), floor)
  {
    var x, rest := segs[0], segs[1..];
    if k :| 0 <= k <= |segs| && height + Height(segs[..k]) < floor {
      assert k > 0 by { assert segs[..0] == []; }
      assert segs[..k] == [x] + rest[..k - 1];
      HeightFront(x, rest[..k - 1]);
    }
    if k :| 0 <= k <= |rest| && height + Height([x]) + Height(rest[..k]) < floor {
      assert segs[..k + 1] == [x] + rest[..k];
      HeightFront(x, rest[..k]);
    }
  }

  /** A name and the ".." behind it cancel, wherever they stand. */
  lemma DotDotCancels(before: seq<string>, name: string, after: seq<string>, out: seq<string>, floor: nat)
    requires Clean(name) && |out| >= floor
    ensures Fold(before + [name, ".."] + after, out, floor) == Fold(before + after, out, floor)
  {
    var pair := [name, ".."];
    assert before + pair + after == before + (pair + after);
    FoldAppend(before, pair + after, out, floor);
    FoldAppend(before, after, out, floor);
    FoldRefusesIff(before, out, floor);
    if Fold(before, out, floor).Some? {
      var kept := Fold(before, out, floor).value;
      FoldKeepsFloor(before, out, floor);
      assert (pair + after)[1..] == [".."] + after && ([".."] + after)[1..] == after;
      assert (kept + [name])[..|kept + [name]| - 1] == kept;
    }
  }

  lemma {:induction false} FoldKeepsFloor(segs: seq<string>, out: seq<string>, floor: nat)
    requires |out| >= floor && Fold(segs, out, floor).Some?
    ensures |Fold(segs, out, floor).value| >= floor
  {
    if segs != [] {
      if segs[0] == "" || segs[0] == "." { FoldKeepsFloor(segs[1..], out, floor); }
      else if segs[0] == ".." { FoldKeepsFloor(segs[1..], out[..|out| - 1], floor); }
      else { FoldKeepsFloor(segs[1..], out + [segs[0]], floor); }
    }
  }

  /** Empty segments and "." do not matter, wherever they stand. */
  lemma DotIsDropped(before: seq<string>, dot: string, after: seq<string>, out: seq<string>, floor: nat)
    requires dot == "" || dot == "."
    ensures Fold(before + [dot] + after, out, floor) == Fold(before + after, out, floor)
  {
    assert before + [dot] + after == before + ([dot] + after) && ([dot] + after)[1..] == after;
    FoldAppend(before, [dot] + after, out, floor);
    FoldAppend(before, after, out, floor);
  }

  // ---- the Rust resolver ---------------------------------------------------------------------

  /** strip_ws: remove one leading "/workspace" that ends a segment. */
  function StripRoot(s: string): string {
    if s == ROOT then "" else if ROOT + "/" <= s then s[|ROOT|..] else s
  }

  predicate IsAbsolute(p: string) {
    p != "" && p[0] == '/'
  }

  function RustChain(p: string, cwd: string): seq<string> {
    ["workspace"] + if IsAbsolute(p) then Split(StripRoot(p)) else Split(StripRoot(cwd)) + Split(p)
  }

  /** norm_fs_path_cwd */
  function NormFsPath(p: string, cwd: string): Result<string, PathError> {
    if Contains(p, '\0') || Contains(cwd, '\0') then Err(HasNul)
    else match Fold(RustChain(p, cwd), [], 1)
      case None => Err(Escapes)
      case Some(out) => if |out| < 1 then Err(Escapes) else Ok("/" + Join(out[1..]))
  }

  // ---- the TypeScript resolver ---------------------------------------------------------------

  /** resolve: the cwd is normalized on its own first, then again with the path appended. */
  function Resolve(p: string, cwd: string): Result<string, PathError> {
    if Contains(p, '\0') || Contains(cwd, '\0') then Err(HasNul)
    else
      var base := if IsAbsolute(p) then Some(["workspace"])
                  else Fold(["workspace"] + Split(StripRoot(cwd)), [], 1);
      if base.None? then Err(Escapes)
      else match Fold(base.value + Split(if IsAbsolute(p) then StripRoot(p) else p), [], 1)
        case None => Err(Escapes)
        case Some(segs) => if |segs| < 1 then Err(Escapes) else Ok(Join(segs[1..]))
  }

  lemma RootPrefix(tail: seq<string>)
    requires forall seg, c | seg in tail && c in seg :: c != '/'
    ensures Fold(["workspace"] + tail, [], 1) == Fold(tail, ["workspace"], 1)
    ensures var r := Fold(tail, ["workspace"], 1);
      r.Some? ==>
        && |r.value| >= 1 && r.value[0] == "workspace" && AllClean(r.value)
        && forall seg | seg in r.value :: seg == "workspace" || seg in tail
  {
    assert (["workspace"] + tail)[1..] == tail;
    assert [] + ["workspace"] == ["workspace"];
    FoldResult(tail, ["workspace"], 1);
    var r := Fold(tail, ["workspace"], 1);
    if r.Some? {
      assert r.value[..1][0] == ["workspace"][..1][0];
    }
  }

  /** For every path and cwd the two resolvers succeed together, fail alike, and agree. */
  lemma ResolversAgree(p: string, cwd: string)
    ensures NormFsPath(p, cwd)
         == match Resolve(p, cwd) case Ok(r) => Ok("/" + r) case Err(e) => Err(e)
  {
    if IsAbsolute(p) {
      RootPrefix(Split(StripRoot(p)));
    } else {
      var a, b := Split(StripRoot(cwd)), Split(p);
      RootPrefix(a);
      RootPrefix(a + b);
      FoldAppend(a, b, ["workspace"], 1);
      assert ["workspace"] + a + b == ["workspace"] + (a + b);
      var base := Fold(a, ["workspace"], 1);
      if base.Some? {
        FoldAppend(base.value, b, [], 1);
        FoldOfClean(base.value, [], 1);
        assert [] + base.value == base.value;
        FoldResult(b, base.value, 1);
      }
    }
  }

  /** The segments both resolvers fold, after the root. */
  function Tail(p: string, cwd: string): seq<string> {
    if IsAbsolute(p) then Split(StripRoot(p)) else Split(StripRoot(cwd)) + Split(p)
  }

  /** The kept segments behind a resolved path: the one-pass fold of its tail. */
  lemma ResolvedSegments(p: string, cwd: string)
    requires !Contains(p, '\0') && !Contains(cwd, '\0')
    ensures var out := Fold(Tail(p, cwd), ["workspace"], 1);
      if out.None? then Resolve(p, cwd) == Err(Escapes)
      else out.value != [] && out.value[0] == "workspace"
           && AllClean(out.value[1..]) && Resolve(p, cwd) == Ok(Join(out.value[1..]))
  {
    ResolversAgree(p, cwd);
    RootPrefix(Tail(p, cwd));
    assert RustChain(p, cwd) == ["workspace"] + Tail(p, cwd);
    var out := Fold(Tail(p, cwd), ["workspace"], 1);
    if out.Some? {
      assert forall seg | seg in out.value[1..] :: seg in out.value;
      var r := Resolve(p, cwd).value;
      assert NormFsPath(p, cwd).value[1..] == r;
      assert ("/" + Join(out.value[1..]))[1..] == Join(out.value[1..]);
    }
  }

  lemma {:induction false} NoNulInside(s: string)
    ensures !Contains(s, '\0') <==> forall seg | seg in Split(s) :: !Contains(seg, '\0')
  {
    if s == "" {
    } else {
      NoNulInside(s[1..]);
      var rest := Split(s[1..]);
      assert Contains(s, '\0') <==> s[0] == '\0' || Contains(s[1..], '\0') by {
        if Contains(s[1..], '\0') {
          var i :| 0 <= i < |s[1..]| && s[1..][i] == '\0';
          assert s[i + 1] == '\0';
        }
        if Contains(s, '\0') && s[0] != '\0' {
          var i :| 0 <= i < |s| && s[i] == '\0';
          assert s[1..][i - 1] == '\0';
        }
      }
      if s[0] == '/' {
        assert Split(s) == [""] + rest;
        assert forall seg :: seg in Split(s) <==> seg == "" || seg in rest;
      } else {
        var head := [s[0]] + rest[0];
        assert Split(s) == [head] + rest[1..];
        assert forall seg :: seg in Split(s) <==> seg == head || seg in rest[1..];
        assert forall seg :: seg in rest <==> seg == rest[0] || seg in rest[1..];
        assert Contains(head, '\0') <==> s[0] == '\0' || Contains(rest[0], '\0') by {
          if Contains(rest[0], '\0') {
            var i :| 0 <= i < |rest[0]| && rest[0][i] == '\0';
            assert head[i + 1] == '\0';
          }
          if Contains(head, '\0') && s[0] != '\0' {
            var i :| 0 <= i < |head| && head[i] == '\0';
            assert rest[0][i - 1] == '\0';
          }
          assert head[0] == s[0];
        }
      }
    }
  }

  lemma TailHasNoNul(p: string, cwd: string)
    requires !Contains(p, '\0') && !Contains(cwd, '\0')
    ensures forall seg | seg in Tail(p, cwd) :: !Contains(seg, '\0')
  {
    StripKeepsNulFree(p);
    StripKeepsNulFree(cwd);
    NoNulInside(p);
    NoNulInside(StripRoot(p));
    NoNulInside(StripRoot(cwd));
  }

  lemma StripKeepsNulFree(s: string)
    ensures Contains(StripRoot(s), '\0') ==> Contains(s, '\0')
  {
    var t := StripRoot(s);
    if i :| 0 <= i < |t| && t[i] == '\0' {
      assert s[i + (|s| - |t|)] == '\0';
    }
  }

  /** A resolved path is empty, or has only clean segments and no NUL. */
  lemma ResolvedIsClean(p: string, cwd: string)
    requires Resolve(p, cwd).Ok?
    ensures var r := Resolve(p, cwd).value;
      && (r == "" || AllClean(Split(r))) && (r != "" ==> r[0] != '/') && !Contains(r, '\0')
  {
    ResolvedSegments(p, cwd);
    TailHasNoNul(p, cwd);
    var out := Fold(Tail(p, cwd), ["workspace"], 1).value;
    RootPrefix(Tail(p, cwd));
    assert forall seg | seg in out[1..] :: seg in out;
    if out[1..] != [] {
      assert !Contains("workspace", '\0');
      JoinIsClean(out[1..]);
    }
  }

  lemma JoinIsClean(segs: seq<string>)
    requires segs != [] && AllClean(segs) && forall seg | seg in segs :: !Contains(seg, '\0')
    ensures AllClean(Split(Join(segs))) && Join(segs) != "" && Join(segs)[0] != '/' && !Contains(Join(segs), '\0')
  {
    SplitJoin(segs);
    assert segs[0] in segs && segs[0][0] in segs[0];
    assert Join(segs)[0] == segs[0][0];
    NoNulInside(Join(segs));
  }

  // ---- fixed points --------------------------------------------------------------------------

  lemma ResolveClean(segs: seq<string>, r: string)
    requires AllClean(segs) && r == Join(segs) && !Contains(r, '\0')
    ensures Resolve(r, ROOT) == Ok(r)
  {
    assert !Contains(ROOT, '\0');
    if segs == [] {
      assert Tail(r, ROOT) == ["", ""];
      FoldAppend([""], [""], ["workspace"], 1);
      assert [""] + [""] == ["", ""];
      ResolvedSegments(r, ROOT);
      assert ["workspace"][1..] == [];
    } else {
      SplitJoin(segs);
      assert segs[0] in segs && segs[0][0] in segs[0];
      assert !IsAbsolute(r);
      assert Tail(r, ROOT) == [""] + segs;
      FoldAppend([""], segs, ["workspace"], 1);
      FoldOfClean(segs, ["workspace"], 1);
      ResolvedSegments(r, ROOT);
      assert (["workspace"] + segs)[1..] == segs;
    }
  }

  /** A resolved path resolves to itself. */
  lemma ResolveIsIdempotent(p: string, cwd: string)
    requires Resolve(p, cwd).Ok?
    ensures Resolve(Resolve(p, cwd).value, ROOT) == Ok(Resolve(p, cwd).value)
  {
    ResolvedSegments(p, cwd);
    ResolvedIsClean(p, cwd);
    ResolveClean(Fold(Tail(p, cwd), ["workspace"], 1).value[1..], Resolve(p, cwd).value);
  }

  lemma StoredIsNulFree(r: string)
    requires !Contains(r, '\0')
    ensures !Contains("/" + r, '\0')
  {
    var stored := "/" + r;
    forall i | 0 <= i < |stored| ensures stored[i] != '\0' {
      assert i > 0 ==> stored[i] == r[i - 1];
    }
  }

  lemma StoredTail(segs: seq<string>, stored: string, cwd: string)
    requires AllClean(segs) && stored == "/" + Join(segs)
    requires !(stored == ROOT || ROOT + "/" <= stored)
    ensures Fold(Tail(stored, cwd), ["workspace"], 1) == Some(["workspace"] + segs)
  {
    SplitAppend("", Join(segs));
    assert "" + "/" + Join(segs) == stored;
    var all := Split(Join(segs));
    assert Tail(stored, cwd) == [""] + all;
    FoldAppend([""], all, ["workspace"], 1);
    if segs == [] {
      assert all == [""] && ["workspace"] + segs == ["workspace"];
    } else {
      SplitJoin(segs);
      FoldOfClean(segs, ["workspace"], 1);
    }
  }

  /**
   * The leading-slash form the kernel stores is a fixed point of its own resolver exactly when
   * the path does not sit under a directory that is itself named "workspace".
   */
  lemma StoredFormIsFixedIff(p: string, cwd: string)
    requires NormFsPath(p, cwd).Ok?
    ensures var stored := NormFsPath(p, cwd).value;
      NormFsPath(stored, cwd) == Ok(stored) <==> !(stored == ROOT || ROOT + "/" <= stored)
  {
    ResolversAgree(p, cwd);
    ResolvedSegments(p, cwd);
    ResolvedIsClean(p, cwd);
    var segs := Fold(Tail(p, cwd), ["workspace"], 1).value[1..];
    var stored := "/" + Join(segs);
    StoredIsNulFree(Join(segs));
    if stored == ROOT {
      assert StripRoot(ROOT) == "" && Split("") == [""];
      ResolversAgree(stored, cwd);
      ResolvedSegments(stored, cwd);
      assert Tail(stored, cwd) == [""];
      assert Fold([""], ["workspace"], 1) == Fold([], ["workspace"], 1);
    } else if ROOT + "/" <= stored {
      if NormFsPath(stored, cwd).Ok? { ShorterAfterStrip(stored, cwd); }
    } else {
      StoredTail(segs, stored, cwd);
      ResolversAgree(stored, cwd);
      ResolvedSegments(stored, cwd);
      assert (["workspace"] + segs)[1..] == segs;
    }
  }

  /** Under the root, clean segments resolve to themselves. */
  lemma UnderRoot(segs: seq<string>, p: string, cwd: string)
    requires segs != [] && AllClean(segs) && p == ROOT + "/" + Join(segs)
    requires !Contains(p, '\0') && !Contains(cwd, '\0')
    ensures NormFsPath(p, cwd) == Ok("/" + Join(segs))
  {
    assert ROOT + "/" <= p && StripRoot(p) == "/" + Join(segs);
    SplitAppend("", Join(segs));
    assert "" + "/" + Join(segs) == "/" + Join(segs);
    SplitJoin(segs);
    assert Tail(p, cwd) == [""] + segs;
    FoldAppend([""], segs, ["workspace"], 1);
    FoldOfClean(segs, ["workspace"], 1);
    ResolversAgree(p, cwd);
    ResolvedSegments(p, cwd);
    assert (["workspace"] + segs)[1..] == segs;
  }

  /** A file in a directory named as the root: its stored form resolves to another file. */
  lemma NestedWorkspaceMoves()
    ensures NormFsPath("/workspace/workspace/x", ROOT) == Ok("/workspace/x")
    ensures NormFsPath("/workspace/x", ROOT) == Ok("/x")
  {
    hide NormFsPath;
    var w, x := "workspace", "x";
    assert AllClean([w, x]) && AllClean([x]);
    assert Join([x]) == x && [w, x][1..] == [x] && Join([w, x]) == "workspace/x";
    assert ROOT + "/" + Join([w, x]) == "/workspace/workspace/x" && ROOT + "/" + Join([x]) == "/workspace/x";
    UnderRoot([w, x], "/workspace/workspace/x", ROOT);
    UnderRoot([x], "/workspace/x", ROOT);
    assert "/" + Join([w, x]) == "/workspace/x" && "/" + Join([x]) == "/x";
  }

  /** Folding clean segments never lengthens the joined text, so a stripped root stays lost. */
  lemma ShorterAfterStrip(stored: string, cwd: string)
    requires ROOT + "/" <= stored && NormFsPath(stored, cwd).Ok?
    ensures |NormFsPath(stored, cwd).value| < |stored|
  {
    var t := StripRoot(stored);
    ResolversAgree(stored, cwd);
    ResolvedSegments(stored, cwd);
    RootPrefix(Split(t));
    FoldShrinks(Split(t), ["workspace"], 1);
    var out := Fold(Split(t), ["workspace"], 1).value;
    JoinLength(out[1..]);
    SplitLength(t);
    assert Weight(out) == 10 + Weight(out[1..]);
  }

  function Weight(segs: seq<string>): nat {
    if segs == [] then 0 else |segs[0]| + 1 + Weight(segs[1..])
  }

  lemma {:induction false} WeightAppend(a: seq<string>, b: seq<string>)
    ensures Weight(a + b) == Weight(a) + Weight(b)
  {
    if a == [] { assert a + b == b; } else { assert (a + b)[1..] == a[1..] + b; WeightAppend(a[1..], b); }
  }

  lemma {:induction false} SplitLength(s: string)
    ensures Weight(Split(s)) == |s| + 1
  {
    if s != "" {
      SplitLength(s[1..]);
      var rest := Split(s[1..]);
      if s[0] == '/' { assert ([""] + rest)[1..] == rest; }
      else { assert Split(s)[1..] == rest[1..]; }
    }
  }

  lemma {:induction false} JoinLength(segs: seq<string>)
    ensures segs != [] ==> |Join(segs)| + 1 == Weight(segs)
  {
    if |segs| > 1 { JoinLength(segs[1..]); }
  }

  lemma {:induction false} FoldShrinks(segs: seq<string>, out: seq<string>, floor: nat)
    ensures Fold(segs, out, floor).Some? ==> Weight(Fold(segs, out, floor).value) <= Weight(out) + Weight(segs)
  {
    if segs != [] {
      if segs[0] == "" || segs[0] == "." { FoldShrinks(segs[1..], out, floor); }
      else if segs[0] == ".." {
        if |out| > floor {
          FoldShrinks(segs[1..], out[..|out| - 1], floor);
          assert out == out[..|out| - 1] + [out[|out| - 1]];
          WeightAppend(out[..|out| - 1], [out[|out| - 1]]);
        }
      } else {
        FoldShrinks(segs[1..], out + [segs[0]], floor);
        WeightAppend(out, [segs[0]]);
      }
    }
  }

  // ---- keys ----------------------------------------------------------------------------------

  function RootPrefixOf(doId: string): string {
    "fs/" + doId + "/"
  }

  /** liveKey */
  function LiveKey(doId: string, path: string): Result<string, PathError> {
    match Resolve(path, ROOT)
    case Err(e) => Err(e)
    case Ok(r) =>
      if r == "" then Err(IsRoot) else if doId == "" then Err(NoSession) else Ok(RootPrefixOf(doId) + r)
  }

  /** Both languages name the same object for a path, and reconciling that key finds its row. */
  lemma KeysAgree(doId: string, path: string)
    requires LiveKey(doId, path).Ok?
    ensures var prefix := RootPrefixOf(doId);
      var key := LiveKey(doId, path).value;
      && NormFsPath(path, ROOT).Ok?
      && StagedFs.Normal(NormFsPath(path, ROOT).value)
      && StagedFs.KeyOf(prefix, NormFsPath(path, ROOT).value) == key
      && prefix <= key && NormFsPath(key[|prefix|..], ROOT) == NormFsPath(path, ROOT)
  {
    var r := Resolve(path, ROOT).value;
    ResolversAgree(path, ROOT);
    ResolvedIsClean(path, ROOT);
    ResolveIsIdempotent(path, ROOT);
    ResolversAgree(r, ROOT);
    var stored := "/" + r;
    assert StagedFs.TrimSlashes(stored) == StagedFs.TrimSlashes(stored[1..]) == r by {
      assert stored[1..] == r;
    }
    assert (RootPrefixOf(doId) + r)[|RootPrefixOf(doId)|..] == r;
  }

  /** Two paths share a key exactly when they are one resolved path of one session. */
  lemma KeysIsolate(doA: string, doB: string, p: string, q: string)
    requires LiveKey(doA, p).Ok? && LiveKey(doB, q).Ok?
    requires (forall c | c in doA :: c != '/') && (forall c | c in doB :: c != '/')
    ensures LiveKey(doA, p) == LiveKey(doB, q) <==> doA == doB && Resolve(p, ROOT) == Resolve(q, ROOT)
  {
    if LiveKey(doA, p) == LiveKey(doB, q) { EqualKeys(doA, doB, p, q); }
  }

  lemma EqualKeys(doA: string, doB: string, p: string, q: string)
    requires LiveKey(doA, p).Ok? && LiveKey(doB, q).Ok?
    requires (forall c | c in doA :: c != '/') && (forall c | c in doB :: c != '/')
    requires LiveKey(doA, p) == LiveKey(doB, q)
    ensures doA == doB && Resolve(p, ROOT) == Resolve(q, ROOT)
  {
    hide Split, Contains, Resolve;
    var a, b := Resolve(p, ROOT).value, Resolve(q, ROOT).value;
    var ka, kb := doA + "/" + a, doB + "/" + b;
    assert (RootPrefixOf(doA) + a) == "fs/" + ka && (RootPrefixOf(doB) + b) == "fs/" + kb;
    assert ("fs/" + ka)[3..] == ka && ("fs/" + kb)[3..] == kb;
    SplitFirst(doA, a);
    SplitFirst(doB, b);
    assert Split(ka)[0] == doA && Split(kb)[0] == doB;
    assert ka[|doA| + 1..] == a && kb[|doB| + 1..] == b;
  }

  // ---- changing directory --------------------------------------------------------------------

  /** resolveCwd */
  function ResolveCwd(dir: string, cwd: string): Result<string, PathError> {
    match Resolve(dir, cwd)
    case Err(e) => Err(e)
    case Ok(r) => Ok(if r == "" then ROOT else ROOT + "/" + r)
  }

  lemma SplitStep(c: char, t: string, r: seq<string>)
    requires r == Split(t)
    ensures Split([c] + t) == if c == '/' then [""] + r else [[c] + r[0]] + r[1..]
  {
    assert ([c] + t)[1..] == t;
  }

  /** Putting a character in front of the first of some segments, with others behind them. */
  lemma StepAppends(c: char, ra: seq<string>, rb: seq<string>)
    requires ra != []
    ensures [""] + (ra + rb) == [""] + ra + rb
    ensures [[c] + (ra + rb)[0]] + (ra + rb)[1..] == [[c] + ra[0]] + ra[1..] + rb
  {
    assert (ra + rb)[1..] == ra[1..] + rb;
  }

  lemma {:induction false} SplitAppend(a: string, b: string)
    ensures Split(a + "/" + b) == Split(a) + Split(b)
  {
    if a == "" {
      assert a + "/" + b == ['/'] + b;
      SplitStep('/', b, Split(b));
    } else {
      SplitAppend(a[1..], b);
      assert a + "/" + b == [a[0]] + (a[1..] + "/" + b) && a == [a[0]] + a[1..];
      SplitStep(a[0], a[1..] + "/" + b, Split(a[1..]) + Split(b));
      SplitStep(a[0], a[1..], Split(a[1..]));
      StepAppends(a[0], Split(a[1..]), Split(b));
    }
  }

  lemma StripDistributes(d: string, p: string)
    requires IsAbsolute(d)
    ensures Split(StripRoot(d + "/" + p)) == Split(StripRoot(d)) + Split(p)
  {
    var s := d + "/" + p;
    if d == ROOT {
      assert ROOT + "/" <= s && s[|ROOT|..] == "/" + p;
      SplitAppend("", p);
      assert "" + "/" + p == "/" + p;
    } else if ROOT + "/" <= d {
      assert ROOT + "/" <= s && s[|ROOT|..] == d[|ROOT|..] + "/" + p;
      SplitAppend(d[|ROOT|..], p);
    } else {
      assert !(ROOT + "/" <= s) && s != ROOT by {
        if |d| < |ROOT| {
          assert s[|d|] == '/' && ROOT[|d|] != '/' && (ROOT + "/")[|d|] == ROOT[|d|];
        } else {
          assert s[..|ROOT|] == d[..|ROOT|] && (ROOT + "/")[..|ROOT|] == ROOT;
          if |d| > |ROOT| { assert s[..|ROOT| + 1] == d[..|ROOT| + 1]; }
        }
      }
      SplitAppend(d, p);
    }
  }

  lemma ContainsAppend(a: string, b: string)
    ensures Contains(a + "/" + b, '\0') <==> Contains(a, '\0') || Contains(b, '\0')
  {
    NoNulInside(a);
    NoNulInside(b);
    NoNulInside(a + "/" + b);
    SplitAppend(a, b);
    assert forall seg :: seg in Split(a) + Split(b) <==> seg in Split(a) || seg in Split(b);
  }

  /** The segments of dir/p are those of dir and then those of p. */
  lemma TailAppends(dir: string, p: string, cwd: string)
    requires dir != "" && !IsAbsolute(p)
    ensures Tail(dir + "/" + p, cwd) == Tail(dir, cwd) + Split(p)
  {
    if IsAbsolute(dir) {
      StripDistributes(dir, p);
    } else {
      SplitAppend(dir, p);
      Associates(Split(StripRoot(cwd)), Split(dir), Split(p));
    }
  }

  lemma Associates(a: seq<string>, b: seq<string>, c: seq<string>)
    ensures a + (b + c) == a + b + c
  {
  }

  /** An absolute directory form folds back to the segments it was joined from. */
  lemma DirectoryFolds(segs: seq<string>, there: string)
    requires AllClean(segs)
    requires there == if Join(segs) == "" then ROOT else ROOT + "/" + Join(segs)
    ensures Fold(Split(StripRoot(there)), ["workspace"], 1) == Some(["workspace"] + segs)
  {
    var base := Split(StripRoot(there));
    if segs == [] {
      assert base == [""] && ["workspace"] + segs == ["workspace"];
    } else {
      SplitJoin(segs);
      assert segs[0] in segs && segs[0] != "" && Join(segs) != "";
      assert there[|ROOT|..] == "/" + Join(segs);
      SplitAppend("", Join(segs));
      assert "" + "/" + Join(segs) == "/" + Join(segs);
      assert base == [""] + segs;
      FoldAppend([""], segs, ["workspace"], 1);
      FoldOfClean(segs, ["workspace"], 1);
    }
  }

  lemma SameFoldSameResult(p: string, cwd: string, q: string, there: string)
    requires !Contains(p, '\0') && !Contains(cwd, '\0') && !Contains(q, '\0') && !Contains(there, '\0')
    requires Fold(Tail(p, cwd), ["workspace"], 1) == Fold(Tail(q, there), ["workspace"], 1)
    ensures Resolve(p, cwd) == Resolve(q, there)
  {
    ResolvedSegments(p, cwd);
    ResolvedSegments(q, there);
  }

  lemma DirectoryFoldsBack(dir: string, cwd: string)
    requires ResolveCwd(dir, cwd).Ok?
    ensures Fold(Split(StripRoot(ResolveCwd(dir, cwd).value)), ["workspace"], 1)
         == Fold(Tail(dir, cwd), ["workspace"], 1)
  {
    ResolvedSegments(dir, cwd);
    var out := Fold(Tail(dir, cwd), ["workspace"], 1).value;
    assert out == ["workspace"] + out[1..];
    DirectoryFolds(out[1..], ResolveCwd(dir, cwd).value);
  }

  lemma DirectoryIsNulFree(dir: string, cwd: string)
    requires ResolveCwd(dir, cwd).Ok?
    ensures !Contains(ResolveCwd(dir, cwd).value, '\0')
  {
    ResolvedIsClean(dir, cwd);
    assert !Contains(ROOT, '\0');
    ContainsAppend(ROOT, Resolve(dir, cwd).value);
  }

  /** Changing into dir and resolving p is resolving dir/p. */
  lemma ChdirComposes(dir: string, p: string, cwd: string)
    requires dir != "" && !IsAbsolute(p) && !Contains(p, '\0') && ResolveCwd(dir, cwd).Ok?
    ensures Resolve(p, ResolveCwd(dir, cwd).value) == Resolve(dir + "/" + p, cwd)
  {
    var whole := dir + "/" + p;
    var there := ResolveCwd(dir, cwd).value;
    ContainsAppend(dir, p);
    DirectoryIsNulFree(dir, cwd);
    DirectoryFoldsBack(dir, cwd);
    TailAppends(dir, p, cwd);
    FoldAppend(Tail(dir, cwd), Split(p), ["workspace"], 1);
    FoldAppend(Split(StripRoot(there)), Split(p), ["workspace"], 1);
    SameFoldSameResult(p, there, whole, cwd);
  }

  // ---- the loops -----------------------------------------------------------------------------

  /** normalizeSegments: push and pop on one array, in one pass. */
  method NormalizeSegments(rawSegs: seq<string>, floor: nat) returns (r: Option<seq<string>>)
    ensures r == Fold(rawSegs, [], floor)
  {
    var out: seq<string> := [];
    for i := 0 to |rawSegs|
      invariant Fold(rawSegs, [], floor) == Fold(rawSegs[i..], out, floor)
    {
      var seg := rawSegs[i];
      assert rawSegs[i..][1..] == rawSegs[i + 1..];
      if seg == "" || seg == "." { continue; }
      if seg == ".." {
        if |out| <= floor { return None; }
        out := out[..|out| - 1];
        continue;
      }
      out := out + [seg];
    }
    r := Some(out);
  }

  /** resolve: two calls of normalizeSegments for a relative path, one for an absolute one. */
  method ResolvePath(path: string, cwd: string) returns (r: Result<string, PathError>)
    ensures r == Resolve(path, cwd)
    ensures NormFsPath(path, cwd) == match r case Ok(rel) => Ok("/" + rel) case Err(e) => Err(e)
  {
    ResolversAgree(path, cwd);
    if Contains(path, '\0') { return Err(HasNul); }
    if Contains(cwd, '\0') { return Err(HasNul); }
    var chain: seq<string>;
    if IsAbsolute(path) {
      chain := ["workspace"] + Split(StripRoot(path));
    } else {
      var cwdSegs := NormalizeSegments(["workspace"] + Split(StripRoot(cwd)), 1);
      if cwdSegs.None? { return Err(Escapes); }
      chain := cwdSegs.value + Split(path);
    }
    var segs := NormalizeSegments(chain, 1);
    if segs.None? { return Err(Escapes); }
    ResolvedSegments(path, cwd);
    if |segs.value| < 1 { return Err(Escapes); }
    r := Ok(Join(segs.value[1..]));
  }
}
