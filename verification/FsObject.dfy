/** The staged file system as the source runs it: loops over one shared buffer and one table. */
module FsObject {
  import opened Prelude
  import opened StagedFs

  /** rest.split('/').next() */
  function FirstSegment(s: string): (r: string)
    ensures forall c | c in r :: c != '/'
  {
    if s == "" || s[0] == '/' then "" else [s[0]] + FirstSegment(s[1..])
  }

  /** A name is the first segment of a path exactly when the path is it or goes on below it. */
  lemma {:induction false} FirstSegmentSpec(s: string, name: string)
    requires forall c | c in name :: c != '/'
    ensures FirstSegment(s) == name <==> s == name || name + "/" <= s
  {
    if s == "" {
    } else if s[0] == '/' {
      if name != "" {
        assert name[0] in name && (name + "/")[0] == name[0];
      }
    } else if name == "" {
    } else {
      assert forall c | c in name[1..] :: c in name;
      FirstSegmentSpec(s[1..], name[1..]);
      assert name == [name[0]] + name[1..] && s == [s[0]] + s[1..];
      if name[1..] + "/" <= s[1..] && s[0] == name[0] {
        assert name + "/" == [name[0]] + (name[1..] + "/");
      }
      if name + "/" <= s {
        assert s[0] == (name + "/")[0] && (name + "/")[1..] == name[1..] + "/";
      }
    }
  }

  /** name is an immediate child of the directory whose paths start with pre. */
  ghost predicate IsChild(paths: set<string>, pre: string, name: string) {
    && name != "" && (forall c | c in name :: c != '/')
    && exists full | full in paths :: full == pre + name || pre + name + "/" <= full
  }

  lemma StripSpec(pre: string, full: string, name: string)
    requires forall c | c in name :: c != '/'
    ensures (pre <= full && FirstSegment(full[|pre|..]) == name)
       <==> (full == pre + name || pre + name + "/" <= full)
  {
    if pre <= full {
      var rest := full[|pre|..];
      FirstSegmentSpec(rest, name);
      assert full == pre + rest;
      if pre + name + "/" <= full {
        assert full[|pre|..][..|name| + 1] == name + "/";
      }
      if name + "/" <= rest {
        assert pre + name + "/" == pre + (name + "/");
      }
    }
  }

  class FsSession {
    const prefix: string

    // in memory
    var staged: seq<Stage>
    var evalStart: nat
    // fs_files, the meta version, and R2
    var rows: map<string, Row>
    var version: nat
    var bodies: map<string, bytes>

    constructor (prefix: string)
      ensures this.prefix == prefix && Snapshot() == Fs([], map[], map[], 0, 0)
    {
      this.prefix := prefix;
      staged, rows, bodies, version, evalStart := [], map[], map[], 0, 0;
    }

    function Snapshot(): Fs
      reads this
    {
      Fs(staged, rows, bodies, version, evalStart)
    }

    method Begin(dirty: bool)
      modifies this`staged, this`evalStart
      ensures Snapshot() == BeginEval(old(Snapshot()), dirty)
    {
      evalStart := version;
      if !dirty { staged := []; }
    }

    /** staged_view */
    method StagedView(p: string) returns (r: Option<Op>)
      ensures r == View(staged, p)
    {
      var i := |staged|;
      assert staged[..i] == staged;
      while i > 0
        invariant 0 <= i <= |staged|
        invariant View(staged, p) == View(staged[..i], p)
      {
        i := i - 1;
        assert staged[..i + 1][..i] == staged[..i];
        if staged[i].path == p { return Some(staged[i].op); }
      }
      r := None;
    }

    /** The write host call: extend the last staged write in place, or push a new one. */
    method Write(p: string, chunk: int, data: bytes)
      modifies this`staged
      ensures staged == StageWrite(old(staged), p, chunk, data)
      ensures forall q | q != p :: View(staged, q) == View(old(staged), q)
      ensures var v := View(old(staged), p);
        View(staged, p) == Some(Op.Write(
          if chunk > 0 && v.Some? && v.value.Write? then v.value.body + data else data))
    {
      forall q { StageWriteView(staged, p, chunk, data, q); }
      if chunk > 0 {
        var at := LastIndex(staged, p);
        if at.Some? && staged[at.value].op.Write? {
          staged := staged[at.value := Stage(p, Op.Write(staged[at.value].op.body + data))];
        } else {
          staged := staged + [Stage(p, Op.Write(data))];
        }
      } else {
        staged := staged + [Stage(p, Op.Write(data))];
      }
    }

    method Remove(p: string)
      modifies this`staged
      ensures forall q :: View(staged, q) == if q == p then Some(Delete) else View(old(staged), q)
    {
      staged := staged + [Stage(p, Delete)];
      assert staged[..|staged| - 1] == old(staged);
    }

    /** The effective path set of list, built forwards. */
    method EffectivePaths() returns (eff: set<string>)
      ensures eff == Effective(rows.Keys, staged)
      ensures forall p :: p in eff <==> Exists(Snapshot(), p)
    {
      eff := rows.Keys;
      for i := 0 to |staged|
        invariant eff == Effective(rows.Keys, staged[..i])
      {
        assert staged[..i + 1][..i] == staged[..i];
        match staged[i].op
        case Write(_) => eff := eff + {staged[i].path};
        case Delete => eff := eff - {staged[i].path};
      }
      assert staged[..|staged|] == staged;
    }

    /** list: the immediate child names of a directory, each once. */
    method List(path: string) returns (names: seq<string>)
      ensures var pre := if path == "/" then "/" else path + "/";
        && (forall n :: n in names <==> IsChild(Effective(rows.Keys, staged), pre, n))
        && (forall i, j :: 0 <= i < j < |names| ==> names[i] != names[j])
    {
      var pre := if path == "/" then "/" else path + "/";
      var eff := EffectivePaths();
      names := [];
      var seen: set<string> := {};
      var todo := eff;
      ghost var done: set<string> := {};
      while todo != {}
        invariant todo + done == eff && todo !! done
        invariant forall n :: n in names <==> n in seen
        invariant forall i, j :: 0 <= i < j < |names| ==> names[i] != names[j]
        invariant forall n :: n in seen ==> IsChild(eff, pre, n)
        invariant forall full | full in done :: pre <= full && FirstSegment(full[|pre|..]) != ""
                    ==> FirstSegment(full[|pre|..]) in seen
      {
        var full :| full in todo;
        todo, done := todo - {full}, done + {full};
        if pre <= full {
          var name := FirstSegment(full[|pre|..]);
          StripSpec(pre, full, name);
          if name != "" && name !in seen {
            seen := seen + {name};
            names := names + [name];
          }
        }
      }
      forall n | IsChild(eff, pre, n) ensures n in seen {
        var full :| full in eff && (full == pre + n || pre + n + "/" <= full);
        StripSpec(pre, full, n);
      }
    }

    /** One path of the flush. */
    method FlushPath(p: string, op: Op, raced: bool, r: Remote, cell: int)
      requires raced <==> version > evalStart
      modifies this`bodies, this`rows
      ensures Snapshot() == FlushOne(prefix, old(Snapshot()), p, op, r, cell)
    {
      if !(raced && p in rows && rows[p].origin == FrameWrite) {
        match op
        case Write(body) =>
          if r.put(p) {
            bodies := bodies[KeyOf(prefix, p) := body];
            rows := rows[p := Row(KeyOf(prefix, p), |body|, cell, CellWrite)];
          }
        case Delete =>
          rows := rows - {p};
          if r.del(p) { bodies := bodies - {KeyOf(prefix, p)}; }
      }
    }

    /** flush_staged_fs: drain, collapse to the last operation per path, apply path by path. */
    method FlushStaged(r: Remote, cell: int) returns (ghost order: seq<string>)
      modifies this
      ensures Enumerates(order, LastOps(old(staged)).Keys)
      ensures Snapshot() == Flush(prefix, old(Snapshot()), order, r, cell)
    {
      ghost var before := Snapshot();
      var ops := staged;
      staged := [];
      var last: map<string, Op> := map[];
      for i := 0 to |ops|
        invariant last == LastOps(ops[..i])
      {
        assert ops[..i + 1][..i] == ops[..i];
        last := last[ops[i].path := ops[i].op];
      }
      assert ops[..|ops|] == ops;
      order := [];
      if ops == [] || !r.bucket {
        order := SomeOrder(last.Keys);
        return;
      }
      var raced := version > evalStart;
      var todo := last.Keys;
      while todo != {}
        invariant todo <= last.Keys && staged == [] && version == before.version && evalStart == before.evalStart
        invariant Enumerates(order, last.Keys - todo)
        invariant Snapshot() == FlushAll(prefix, before.(staged := []), last, order, r, cell)
      {
        var p :| p in todo;
        todo := todo - {p};
        ghost var front := order;
        order := order + [p];
        assert order[..|order| - 1] == front;
        assert forall q :: q in order <==> q in front || q == p;
        FlushPath(p, last[p], raced, r, cell);
      }
      version := version + 1;
    }

    /** A vfs-write frame's effect, once its full body is assembled. */
    method FrameWriteBody(p: string, body: bytes)
      modifies this`bodies, this`rows, this`version
      ensures Snapshot() == FrameWriteTo(prefix, old(Snapshot()), p, body)
    {
      bodies := bodies[KeyOf(prefix, p) := body];
      rows := rows[p := Row(KeyOf(prefix, p), |body|, -1, FrameWrite)];
      version := version + 1;
    }
  }

  /** Any finite set can be listed without repetition. */
  ghost function SomeOrder(paths: set<string>): (order: seq<string>)
    ensures Enumerates(order, paths)
  {
    if paths == {} then []
    else
      var p :| p in paths;
      var front := SomeOrder(paths - {p});
      assert forall q :: q in front + [p] <==> q in front || q == p;
      front + [p]
  }
}
