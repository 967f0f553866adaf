/**
 * The staged file system of KernelDO (apps/kernel/src/lib.rs): a cell's writes and deletes are
 * buffered, overlaid on the committed rows by three different computations, and flushed to R2 and
 * the fs_files table with the checkpoint. Frame writes reach the same rows without the mutex.
 */
module StagedFs {
  import opened Prelude

  datatype Op = Write(body: bytes) | Delete

  datatype Stage = Stage(path: string, op: Op)

  datatype Origin = CellWrite | FrameWrite | Reconciled

  /** One fs_files row. */
  datatype Row = Row(key: string, size: nat, cell: int, origin: Origin)

  datatype Fs = Fs(
    staged: seq<Stage>,
    rows: map<string, Row>,
    bodies: map<string, bytes>,
    version: nat,
    evalStart: nat)

  // ---- keys ----------------------------------------------------------------------------------

  function TrimSlashes(p: string): string {
    if p != "" && p[0] == '/' then TrimSlashes(p[1..]) else p
  }

  function KeyOf(prefix: string, p: string): string {
    prefix + TrimSlashes(p)
  }

  /** A path as the resolver returns it: one leading slash, then no empty first segment. */
  predicate Normal(p: string) {
    p != "" && p[0] == '/' && (|p| > 1 ==> p[1] != '/')
  }

  lemma KeysAreDistinct(prefix: string, p: string, q: string)
    requires Normal(p) && Normal(q) && KeyOf(prefix, p) == KeyOf(prefix, q)
    ensures p == q
  {
    assert TrimSlashes(p) == p[1..] && TrimSlashes(q) == q[1..];
    assert KeyOf(prefix, p)[|prefix|..] == p[1..];
    assert KeyOf(prefix, q)[|prefix|..] == q[1..];
    assert p == [p[0]] + p[1..] && q == [q[0]] + q[1..];
  }

  // ---- the three overlays --------------------------------------------------------------------

  /** staged_view: scan backwards for the last operation on a path. */
  function View(staged: seq<Stage>, p: string): Option<Op> {
    if staged == [] then None
    else
      var last := staged[|staged| - 1];
      if last.path == p then Some(last.op) else View(staged[..|staged| - 1], p)
  }

  /** The path set of list: forward inserts and removes over the committed names. */
  function Effective(names: set<string>, staged: seq<Stage>): set<string> {
    if staged == [] then names
    else
      var last := staged[|staged| - 1];
      var before := Effective(names, staged[..|staged| - 1]);
      if last.op.Write? then before + {last.path} else before - {last.path}
  }

  /** The collapse of flush_staged_fs: the last operation for each path wins. */
  function LastOps(staged: seq<Stage>): map<string, Op> {
    if staged == [] then map[]
    else
      var last := staged[|staged| - 1];
      LastOps(staged[..|staged| - 1])[last.path := last.op]
  }

  lemma {:induction false} LastOpsAreTheView(staged: seq<Stage>, p: string)
    ensures View(staged, p) == if p in LastOps(staged) then Some(LastOps(staged)[p]) else None
  {
    if staged != [] { LastOpsAreTheView(staged[..|staged| - 1], p); }
  }

  lemma {:induction false} EffectiveIsTheView(names: set<string>, staged: seq<Stage>, p: string)
    ensures p in Effective(names, staged)
       <==> var v := View(staged, p); if v.None? then p in names else v.value.Write?
  {
    if staged != [] { EffectiveIsTheView(names, staged[..|staged| - 1], p); }
  }

  // ---- staging -------------------------------------------------------------------------------

  /** Index of the last staged operation on a path. */
  function LastIndex(staged: seq<Stage>, p: string): (r: Option<nat>)
    ensures r.Some? ==> r.value < |staged| && staged[r.value].path == p
    ensures r.Some? ==> forall k :: r.value < k < |staged| ==> staged[k].path != p
    ensures r.None? ==> forall k :: 0 <= k < |staged| ==> staged[k].path != p
  {
    if staged == [] then None
    else if staged[|staged| - 1].path == p then Some(|staged| - 1)
    else LastIndex(staged[..|staged| - 1], p)
  }

  /** A write host call: chunk 0 replaces, a later chunk extends the last staged write. */
  function StageWrite(staged: seq<Stage>, p: string, chunk: int, data: bytes): seq<Stage> {
    var at := LastIndex(staged, p);
    if chunk > 0 && at.Some? && staged[at.value].op.Write? then
      staged[at.value := Stage(p, Write(staged[at.value].op.body + data))]
    else staged + [Stage(p, Write(data))]
  }

  lemma {:induction false} ViewIsLastIndex(staged: seq<Stage>, p: string)
    ensures View(staged, p)
         == var at := LastIndex(staged, p); if at.None? then None else Some(staged[at.value].op)
  {
    if staged != [] { ViewIsLastIndex(staged[..|staged| - 1], p); }
  }

  lemma {:induction false} UpdateKeepsOtherViews(staged: seq<Stage>, k: nat, op: Op, q: string)
    requires k < |staged| && staged[k].path != q
    ensures View(staged[k := Stage(staged[k].path, op)], q) == View(staged, q)
  {
    var t := staged[k := Stage(staged[k].path, op)];
    var front := |staged| - 1;
    if k < front {
      assert t[..front] == staged[..front][k := Stage(staged[k].path, op)];
      UpdateKeepsOtherViews(staged[..front], k, op, q);
    } else {
      assert t[..front] == staged[..front];
    }
  }

  lemma {:induction false} UpdateAtLast(staged: seq<Stage>, k: nat, p: string, op: Op)
    requires k < |staged| && staged[k].path == p
    requires forall j :: k < j < |staged| ==> staged[j].path != p
    ensures View(staged[k := Stage(p, op)], p) == Some(op)
  {
    var t := staged[k := Stage(p, op)];
    var front := |staged| - 1;
    if k < front {
      assert t[..front] == staged[..front][k := Stage(p, op)];
      UpdateAtLast(staged[..front], k, p, op);
    }
  }

  /** What one write call does to the view of every path. */
  lemma StageWriteView(staged: seq<Stage>, p: string, chunk: int, data: bytes, q: string)
    ensures View(StageWrite(staged, p, chunk, data), q)
         == if q != p then View(staged, q)
            else
              var v := View(staged, p);
              if chunk > 0 && v.Some? && v.value.Write? then Some(Write(v.value.body + data))
              else Some(Write(data))
  {
    var t := StageWrite(staged, p, chunk, data);
    var at := LastIndex(staged, p);
    ViewIsLastIndex(staged, p);
    if chunk > 0 && at.Some? && staged[at.value].op.Write? {
      var op := Write(staged[at.value].op.body + data);
      if q == p { UpdateAtLast(staged, at.value, p, op); }
      else { UpdateKeepsOtherViews(staged, at.value, op, q); }
    } else {
      assert t[..|t| - 1] == staged;
    }
  }

  /** A body sent as chunks 0, 1, 2, ... */
  function StageChunks(staged: seq<Stage>, p: string, chunks: seq<bytes>, from: nat): seq<Stage>
    requires from <= |chunks|
    decreases |chunks| - from
  {
    if from == |chunks| then staged
    else StageChunks(StageWrite(staged, p, from, chunks[from]), p, chunks, from + 1)
  }

  lemma {:induction false} ChunksAssemble(staged: seq<Stage>, p: string, chunks: seq<bytes>, from: nat)
    requires 0 < from <= |chunks| && View(staged, p) == Some(Write(Concat(chunks[..from])))
    ensures View(StageChunks(staged, p, chunks, from), p) == Some(Write(Concat(chunks)))
    decreases |chunks| - from
  {
    if from == |chunks| {
      assert chunks[..from] == chunks;
    } else {
      StageWriteView(staged, p, from, chunks[from], p);
      assert chunks[..from + 1] == chunks[..from] + [chunks[from]];
      ConcatAppend(chunks[..from], chunks[from]);
      ChunksAssemble(StageWrite(staged, p, from, chunks[from]), p, chunks, from + 1);
    }
  }

  /** However a body is cut, and whatever was staged before, the cell then sees that body. */
  lemma ChunkedWriteIsSeen(staged: seq<Stage>, p: string, chunks: seq<bytes>)
    requires |chunks| > 0
    ensures View(StageChunks(staged, p, chunks, 0), p) == Some(Write(Concat(chunks)))
  {
    var first := StageWrite(staged, p, 0, chunks[0]);
    StageWriteView(staged, p, 0, chunks[0], p);
    assert chunks[..1] == [chunks[0]] && Concat(chunks[..1]) == chunks[0] + Concat([]) == chunks[0];
    assert StageChunks(staged, p, chunks, 0) == StageChunks(first, p, chunks, 1);
    ChunksAssemble(first, p, chunks, 1);
  }

  // ---- reading -------------------------------------------------------------------------------

  datatype ReadResult = Found(body: bytes) | Enoent | Torn

  /** The read operation: staged first, then the row's body, then a bare object at the same key. */
  function Read(prefix: string, fs: Fs, p: string): ReadResult {
    match View(fs.staged, p)
    case Some(Write(body)) => Found(body)
    case Some(Delete) => Enoent
    case None =>
      var key := KeyOf(prefix, p);
      if key in fs.bodies then Found(fs.bodies[key])
      else if p in fs.rows then Torn else Enoent
  }

  /** The existence that stat and list report. */
  predicate Exists(fs: Fs, p: string) {
    p in Effective(fs.rows.Keys, fs.staged)
  }

  // ---- the flush -----------------------------------------------------------------------------

  /** What the remote store decides: which PUTs and which deletes succeed, if there is a bucket. */
  datatype Remote = Remote(bucket: bool, put: string -> bool, del: string -> bool)

  predicate Raced(fs: Fs) {
    fs.version > fs.evalStart
  }

  /** The fourth rule: a raced flush leaves every path whose row a frame wrote. */
  predicate Protected(fs: Fs, p: string) {
    Raced(fs) && p in fs.rows && fs.rows[p].origin == FrameWrite
  }

  /** One path of the flush: body first, then its row; a tombstone drops both. */
  function FlushOne(prefix: string, fs: Fs, p: string, op: Op, r: Remote, cell: int): Fs {
    if Protected(fs, p) then fs
    else match op
      case Write(body) =>
        if !r.put(p) then fs
        else fs.(bodies := fs.bodies[KeyOf(prefix, p) := body],
                 rows := fs.rows[p := Row(KeyOf(prefix, p), |body|, cell, CellWrite)])
      case Delete =>
        fs.(rows := fs.rows - {p}, bodies := if r.del(p) then fs.bodies - {KeyOf(prefix, p)} else fs.bodies)
  }

  function FlushAll(prefix: string, fs: Fs, last: map<string, Op>, order: seq<string>, r: Remote, cell: int): Fs
    requires forall p | p in order :: p in last
  {
    if order == [] then fs
    else
      var p := order[|order| - 1];
      FlushOne(prefix, FlushAll(prefix, fs, last, order[..|order| - 1], r, cell), p, last[p], r, cell)
  }

  ghost predicate Enumerates(order: seq<string>, paths: set<string>) {
    && (forall i, j :: 0 <= i < j < |order| ==> order[i] != order[j])
    && (forall p :: p in order <==> p in paths)
  }

  /** flush_staged_fs: the buffer is drained even when nothing can be written. */
  function Flush(prefix: string, fs: Fs, order: seq<string>, r: Remote, cell: int): Fs
    requires forall p | p in order :: p in LastOps(fs.staged)
  {
    var drained := fs.(staged := []);
    if fs.staged == [] then fs
    else if !r.bucket then drained
    else
      var t := FlushAll(prefix, drained, LastOps(fs.staged), order, r, cell);
      t.(version := t.version + 1)
  }

  /** The row and the object a path reads from agree in both states. */
  predicate SameAt(prefix: string, a: Fs, b: Fs, p: string) {
    var k := KeyOf(prefix, p);
    && (p in a.rows <==> p in b.rows) && (p in a.rows ==> a.rows[p] == b.rows[p])
    && (k in a.bodies <==> k in b.bodies) && (k in a.bodies ==> a.bodies[k] == b.bodies[k])
  }

  lemma FlushOneElsewhere(prefix: string, fs: Fs, q: string, op: Op, r: Remote, cell: int, p: string)
    requires Normal(p) && Normal(q) && p != q
    ensures SameAt(prefix, FlushOne(prefix, fs, q, op, r, cell), fs, p)
  {
    if KeyOf(prefix, p) == KeyOf(prefix, q) { KeysAreDistinct(prefix, p, q); }
  }

  lemma FlushOneDepends(prefix: string, a: Fs, b: Fs, op: Op, r: Remote, cell: int, p: string)
    requires SameAt(prefix, a, b, p) && a.version == b.version && a.evalStart == b.evalStart
    ensures SameAt(prefix, FlushOne(prefix, a, p, op, r, cell), FlushOne(prefix, b, p, op, r, cell), p)
  {
  }

  /** The flush acts path by path: each path ends as its own operation alone would leave it. */
  lemma {:induction false} FlushAllAt(
    prefix: string, fs: Fs, last: map<string, Op>, order: seq<string>, r: Remote, cell: int, p: string)
    requires forall q | q in order :: q in last && Normal(q)
    requires Normal(p) && forall i, j :: 0 <= i < j < |order| ==> order[i] != order[j]
    ensures var t := FlushAll(prefix, fs, last, order, r, cell);
      && t.version == fs.version && t.evalStart == fs.evalStart && t.staged == fs.staged
      && SameAt(prefix, t, if p in order then FlushOne(prefix, fs, p, last[p], r, cell) else fs, p)
  {
    if order != [] {
      var front, q := order[..|order| - 1], order[|order| - 1];
      assert forall x | x in front :: x in order;
      FlushAllAt(prefix, fs, last, front, r, cell, p);
      var before := FlushAll(prefix, fs, last, front, r, cell);
      assert p in order <==> p in front || p == q;
      if p == q {
        assert p !in front;
        FlushOneDepends(prefix, before, fs, last[p], r, cell, p);
      } else {
        FlushOneElsewhere(prefix, before, q, last[q], r, cell, p);
      }
    }
  }

  ghost predicate AllNormal(fs: Fs) {
    forall q | q in LastOps(fs.staged) :: Normal(q)
  }

  /** The same, for a whole flush of any state and any enumeration of its paths. */
  lemma FlushAt(prefix: string, fs: Fs, order: seq<string>, r: Remote, cell: int, p: string)
    requires Enumerates(order, LastOps(fs.staged).Keys) && AllNormal(fs) && Normal(p)
    requires fs.staged != [] && r.bucket
    ensures var v := View(fs.staged, p);
      && SameAt(prefix, Flush(prefix, fs, order, r, cell),
                if v.Some? then FlushOne(prefix, fs, p, v.value, r, cell) else fs, p)
      && Flush(prefix, fs, order, r, cell).staged == []
  {
    LastOpsAreTheView(fs.staged, p);
    FlushAllAt(prefix, fs.(staged := []), LastOps(fs.staged), order, r, cell, p);
  }

  // ---- coherence -----------------------------------------------------------------------------

  /**
   * Unraced, and with its PUT accepted, a path reads after the flush as the cell read it before,
   * except for one family: a delete whose object removal failed leaves bytes that the bare-object
   * fallback still finds.
   */
  lemma FlushKeepsReads(prefix: string, fs: Fs, order: seq<string>, r: Remote, cell: int, p: string)
    requires Enumerates(order, LastOps(fs.staged).Keys) && AllNormal(fs) && Normal(p)
    requires r.bucket && !Raced(fs)
    requires View(fs.staged, p).Some? && View(fs.staged, p).value.Write? ==> r.put(p)
    ensures Read(prefix, Flush(prefix, fs, order, r, cell), p) == Read(prefix, fs, p)
       <==> !(View(fs.staged, p) == Some(Delete) && KeyOf(prefix, p) in fs.bodies && !r.del(p))
  {
    if fs.staged != [] {
      FlushAt(prefix, fs, order, r, cell, p);
    }
  }

  /** Under the same conditions the committed names become exactly the names the cell listed. */
  lemma FlushKeepsNames(prefix: string, fs: Fs, order: seq<string>, r: Remote, cell: int, p: string)
    requires Enumerates(order, LastOps(fs.staged).Keys) && AllNormal(fs) && Normal(p)
    requires r.bucket && !Raced(fs)
    requires View(fs.staged, p).Some? && View(fs.staged, p).value.Write? ==> r.put(p)
    ensures Exists(Flush(prefix, fs, order, r, cell), p) <==> Exists(fs, p)
    ensures Exists(fs, p) <==> p in Flush(prefix, fs, order, r, cell).rows
  {
    EffectiveIsTheView(fs.rows.Keys, fs.staged, p);
    if fs.staged != [] {
      FlushAt(prefix, fs, order, r, cell, p);
    }
  }

  /** A staged write whose PUT is accepted lands if and only if its path is not protected. */
  lemma WriteLandsUnlessProtected(prefix: string, fs: Fs, order: seq<string>, r: Remote, cell: int, p: string)
    requires Enumerates(order, LastOps(fs.staged).Keys) && AllNormal(fs) && Normal(p)
    requires r.bucket && r.put(p) && View(fs.staged, p).Some? && View(fs.staged, p).value.Write?
    ensures var t := Flush(prefix, fs, order, r, cell);
      var body := View(fs.staged, p).value.body;
      (KeyOf(prefix, p) in t.bodies && t.bodies[KeyOf(prefix, p)] == body
       && p in t.rows && t.rows[p] == Row(KeyOf(prefix, p), |body|, cell, CellWrite))
      <==> !Protected(fs, p)
    ensures Protected(fs, p) ==> SameAt(prefix, Flush(prefix, fs, order, r, cell), fs, p)
  {
    FlushAt(prefix, fs, order, r, cell, p);
  }

  /** What is lost: without a bucket every staged operation, with one the writes whose PUT it refuses. */
  lemma RefusedWriteIsLost(prefix: string, fs: Fs, order: seq<string>, r: Remote, cell: int, p: string)
    requires Enumerates(order, LastOps(fs.staged).Keys) && AllNormal(fs) && Normal(p) && fs.staged != []
    requires !r.bucket || (View(fs.staged, p).Some? && View(fs.staged, p).value.Write? && !r.put(p))
    ensures var t := Flush(prefix, fs, order, r, cell);
      && SameAt(prefix, t, fs, p) && t.staged == []
      && Read(prefix, t, p) == Read(prefix, fs.(staged := []), p)
  {
    if r.bucket { FlushAt(prefix, fs, order, r, cell, p); }
  }

  /** A flush always drains the buffer, and counts as a change when it had something to write to. */
  lemma FlushDrains(prefix: string, fs: Fs, order: seq<string>, r: Remote, cell: int)
    requires Enumerates(order, LastOps(fs.staged).Keys) && AllNormal(fs)
    ensures var t := Flush(prefix, fs, order, r, cell);
      && t.staged == [] && t.evalStart == fs.evalStart
      && t.version == (if fs.staged != [] && r.bucket then fs.version + 1 else fs.version)
      && (fs.staged == [] || !r.bucket ==> t.rows == fs.rows && t.bodies == fs.bodies)
  {
    if fs.staged != [] && r.bucket {
      FlushAllAt(prefix, fs.(staged := []), LastOps(fs.staged), order, r, cell, "/");
    }
  }

  /**
   * What read says against what list says: a listed path is read or found torn, and torn exactly
   * when its row has no body; a path that is not listed reads only as a bare object.
   */
  lemma ReadAgainstNames(prefix: string, fs: Fs, p: string)
    ensures Read(prefix, fs, p) == Torn
       <==> Exists(fs, p) && View(fs.staged, p).None? && KeyOf(prefix, p) !in fs.bodies
    ensures Exists(fs, p) ==> !Read(prefix, fs, p).Enoent?
    ensures !Exists(fs, p) && (View(fs.staged, p).Some? || KeyOf(prefix, p) !in fs.bodies) ==>
              Read(prefix, fs, p).Enoent?
    ensures View(fs.staged, p).None? && KeyOf(prefix, p) in fs.bodies ==>
              Read(prefix, fs, p) == Found(fs.bodies[KeyOf(prefix, p)])
  {
    EffectiveIsTheView(fs.rows.Keys, fs.staged, p);
  }

  // ---- frames and evals around the flush -----------------------------------------------------

  /** eval_critical's start: note the version; a clean session starts from an empty buffer. */
  function BeginEval(fs: Fs, dirty: bool): Fs {
    fs.(evalStart := fs.version, staged := if dirty then fs.staged else [])
  }

  /** A vfs-write frame: body, row and version, at once. */
  function FrameWriteTo(prefix: string, fs: Fs, p: string, body: bytes): Fs {
    fs.(bodies := fs.bodies[KeyOf(prefix, p) := body],
        rows := fs.rows[p := Row(KeyOf(prefix, p), |body|, -1, FrameWrite)],
        version := fs.version + 1)
  }

  /** The row a listing leaves for a live path: a new one, or the old one with its cell number. */
  function Relisted(prefix: string, fs: Fs, p: string, size: nat): Row {
    Row(KeyOf(prefix, p), size, if p in fs.rows then fs.rows[p].cell else -1, Reconciled)
  }

  /**
   * reconcile_fs_files: the rows become those of the listed paths, whatever the listing was. A
   * listing that failed changes nothing, and one without effect does not count as a change.
   */
  function Reconcile(prefix: string, fs: Fs, listing: Option<map<string, nat>>): Fs {
    if listing.None? then fs
    else
      var live := listing.value;
      var rows := map p | p in live :: Relisted(prefix, fs, p, live[p]);
      fs.(rows := rows,
          version := if live.Keys != {} || fs.rows.Keys - live.Keys != {} then fs.version + 1 else fs.version)
  }

  /**
   * After a listing that worked, the committed names are the listed ones and nothing else, of the
   * listed sizes; a path that had a row keeps its cell, and no row counts as a frame's any more.
   * The version moves when the listing or the rows it drops are not empty.
   */
  lemma ReconcileLists(prefix: string, fs: Fs, live: map<string, nat>, p: string)
    ensures var t := Reconcile(prefix, fs, Some(live));
      && (p in t.rows <==> p in live)
      && (p in live ==>
            && t.rows[p].size == live[p] && t.rows[p].key == KeyOf(prefix, p) && t.rows[p].origin == Reconciled
            && t.rows[p].cell == if p in fs.rows then fs.rows[p].cell else -1)
      && !FrameRow(t, p) && !Protected(t, p)
      && t.bodies == fs.bodies && t.staged == fs.staged && t.evalStart == fs.evalStart
      && (t.version == fs.version + 1 <==> live != map[] || fs.rows != map[]) && t.version <= fs.version + 1
      && fs.version <= t.version
    ensures Reconcile(prefix, fs, None) == fs
  {
    var t := Reconcile(prefix, fs, Some(live));
    assert live != map[] <==> live.Keys != {} by { if live.Keys == {} { assert live == map[]; } }
    if fs.rows != map[] {
      var q :| q in fs.rows;
      assert q in live.Keys || q in fs.rows.Keys - live.Keys;
    } else {
      assert fs.rows.Keys - live.Keys == {};
    }
  }

  /** What can happen between two flushes. */
  datatype FsEvent =
    | Framed(path: string, body: bytes)            // a vfs-write frame
    | Began(dirty: bool)                           // an eval starts, in a dirty or a clean session
    | Staged(path: string, op: Op)                 // the cell writes or deletes
    | Listed(listing: Option<map<string, nat>>)    // reconcile_fs_files

  function Happen(prefix: string, fs: Fs, e: FsEvent): Fs {
    match e
    case Framed(p, body) => FrameWriteTo(prefix, fs, p, body)
    case Began(dirty) => BeginEval(fs, dirty)
    case Staged(p, op) => fs.(staged := fs.staged + [Stage(p, op)])
    case Listed(listing) => Reconcile(prefix, fs, listing)
  }

  function Play(prefix: string, fs: Fs, h: seq<FsEvent>): Fs {
    if h == [] then fs else Happen(prefix, Play(prefix, fs, h[..|h| - 1]), h[|h| - 1])
  }

  /** The row at p is one that a frame wrote. */
  predicate FrameRow(fs: Fs, p: string) {
    p in fs.rows && fs.rows[p].origin == FrameWrite
  }

  /** A frame's write at p outlives the flush: its row and its body are as they were. */
  predicate Survives(prefix: string, before: Fs, after: Fs, p: string) {
    FrameRow(before, p) && SameAt(prefix, after, before, p)
  }

  /** p is staged, and nothing remote stands in the way of flushing it. */
  ghost predicate Flushable(fs: Fs, order: seq<string>, r: Remote, p: string) {
    && Enumerates(order, LastOps(fs.staged).Keys) && AllNormal(fs) && Normal(p)
    && View(fs.staged, p).Some? && r.bucket && (View(fs.staged, p).value.Write? ==> r.put(p))
  }

  /** In any state: whether a flush leaves a frame's write at a path that the cell staged. */
  lemma FrameWriteSurvivesIff(prefix: string, fs: Fs, order: seq<string>, r: Remote, cell: int, p: string)
    requires Flushable(fs, order, r, p)
    ensures Survives(prefix, fs, Flush(prefix, fs, order, r, cell), p) <==> FrameRow(fs, p) && Raced(fs)
  {
    FlushAt(prefix, fs, order, r, cell, p);
  }

  // ---- in terms of the history ---------------------------------------------------------------

  predicate NoListing(h: seq<FsEvent>, from: int) {
    forall i :: 0 <= from <= i < |h| ==> !(h[i].Listed? && h[i].listing.Some?)
  }

  predicate FramedAt(h: seq<FsEvent>, i: int, p: string) {
    0 <= i < |h| && h[i].Framed? && h[i].path == p
  }

  predicate FrameAt(h: seq<FsEvent>, i: int) {
    0 <= i < |h| && h[i].Framed?
  }

  predicate NoEval(h: seq<FsEvent>, from: int) {
    forall i :: 0 <= from <= i < |h| ==> !h[i].Began?
  }

  /** A frame wrote p, here or before the history, and no reconcile has listed the store since. */
  ghost predicate OwnedByFrame(fs: Fs, h: seq<FsEvent>, p: string) {
    (FrameRow(fs, p) && NoListing(h, 0)) || exists i :: FramedAt(h, i, p) && NoListing(h, i)
  }

  /** A frame wrote any path at all after the latest eval began. */
  ghost predicate FrameSinceEval(fs: Fs, h: seq<FsEvent>) {
    (Raced(fs) && NoEval(h, 0)) || exists i :: FrameAt(h, i) && NoEval(h, i)
  }

  lemma {:induction false} PlayOwns(prefix: string, fs: Fs, h: seq<FsEvent>, p: string)
    ensures FrameRow(Play(prefix, fs, h), p) <==> OwnedByFrame(fs, h, p)
  {
    if h != [] {
      var front, n := h[..|h| - 1], |h| - 1;
      PlayOwns(prefix, fs, front, p);
      assert NoListing(h, n) <==> !(h[n].Listed? && h[n].listing.Some?);
      assert forall i :: 0 <= i <= n ==> (NoListing(h, i) <==> NoListing(front, i) && NoListing(h, n));
      assert forall i :: 0 <= i < n ==> (FramedAt(h, i, p) <==> FramedAt(front, i, p));
      if FramedAt(h, n, p) {
        assert OwnedByFrame(fs, h, p);
      } else {
        assert OwnedByFrame(fs, h, p) <==> OwnedByFrame(fs, front, p) && NoListing(h, n);
      }
    }
  }

  /** The version only grows, and passes the eval's mark with every frame write. */
  lemma {:induction false} PlayRaces(prefix: string, fs: Fs, h: seq<FsEvent>, p: string)
    requires fs.version >= fs.evalStart
    ensures var t := Play(prefix, fs, h);
      && t.version >= t.evalStart
      && (FrameSinceEval(fs, h) ==> Raced(t))
      && (OwnedByFrame(fs, h, p) && Raced(t) ==> FrameSinceEval(fs, h))
  {
    if h != [] {
      var front, n := h[..|h| - 1], |h| - 1;
      PlayRaces(prefix, fs, front, p);
      assert forall i :: 0 <= i <= n ==> (NoEval(h, i) <==> NoEval(front, i) && !h[n].Began?);
      assert forall i :: 0 <= i < n ==> (FrameAt(h, i) <==> FrameAt(front, i));
      assert NoEval(h, n) <==> !h[n].Began?;
      if FrameAt(h, n) {
        assert FrameSinceEval(fs, h);
      } else {
        assert FrameSinceEval(fs, h) <==> FrameSinceEval(fs, front) && !h[n].Began?;
        if OwnedByFrame(fs, h, p) { OwnedBefore(fs, h, p); }
      }
    }
  }

  /** Only a frame write makes a path a frame's, and a reconcile takes it away. */
  lemma OwnedBefore(fs: Fs, h: seq<FsEvent>, p: string)
    requires h != [] && !h[|h| - 1].Framed? && OwnedByFrame(fs, h, p)
    ensures OwnedByFrame(fs, h[..|h| - 1], p) && !(h[|h| - 1].Listed? && h[|h| - 1].listing.Some?)
  {
    var front, n := h[..|h| - 1], |h| - 1;
    assert forall i :: 0 <= i <= n && NoListing(h, i) ==> NoListing(front, i);
    if !(FrameRow(fs, p) && NoListing(h, 0)) {
      var i :| FramedAt(h, i, p) && NoListing(h, i);
      assert FramedAt(front, i, p);
    }
  }

  /**
   * Over any history of frames, evals, cell operations and reconciles: a frame's write at a path
   * that the cell staged survives the flush exactly when no reconcile has listed the store since
   * it, and some frame, to whatever path, wrote after the latest eval began.
   */
  lemma FrameWriteSurvivesInHistory(
    prefix: string, fs: Fs, h: seq<FsEvent>, order: seq<string>, r: Remote, cell: int, p: string)
    requires fs.version >= fs.evalStart && Flushable(Play(prefix, fs, h), order, r, p)
    ensures var t := Play(prefix, fs, h);
      Survives(prefix, t, Flush(prefix, t, order, r, cell), p)
      <==> OwnedByFrame(fs, h, p) && FrameSinceEval(fs, h)
  {
    PlayOwns(prefix, fs, h, p);
    PlayRaces(prefix, fs, h, p);
    FrameWriteSurvivesIff(prefix, Play(prefix, fs, h), order, r, cell, p);
  }

  /** The same as an implication, for histories known in advance. */
  lemma Outcome(prefix: string, fs: Fs, h: seq<FsEvent>, order: seq<string>, r: Remote, cell: int, p: string)
    requires fs.version >= fs.evalStart
    ensures var t := Play(prefix, fs, h);
      Flushable(t, order, r, p) ==>
        (Survives(prefix, t, Flush(prefix, t, order, r, cell), p) <==> OwnedByFrame(fs, h, p) && FrameSinceEval(fs, h))
  {
    if Flushable(Play(prefix, fs, h), order, r, p) { FrameWriteSurvivesInHistory(prefix, fs, h, order, r, cell, p); }
  }

  /**
   * Three ends for a frame write to a path the cell staged, in a dirty session: a later eval loses
   * it; a frame write to another path after that eval saves it; and a reconcile after it loses it
   * although the eval began before the write.
   */
  lemma WhoWinsTheFlush(
    prefix: string, fs: Fs, p: string, q: string, op: Op, body: bytes, live: map<string, nat>,
    order: seq<string>, r: Remote, cell: int)
    requires p != q && fs.version >= fs.evalStart
    ensures var t := Play(prefix, fs, [Staged(p, op), Framed(p, body), Began(true)]);
      Flushable(t, order, r, p) ==> !Survives(prefix, t, Flush(prefix, t, order, r, cell), p)
    ensures var t := Play(prefix, fs, [Staged(p, op), Framed(p, body), Began(true), Framed(q, body)]);
      Flushable(t, order, r, p) ==> Survives(prefix, t, Flush(prefix, t, order, r, cell), p)
    ensures var t := Play(prefix, fs, [Began(true), Staged(p, op), Framed(p, body), Listed(Some(live))]);
      Flushable(t, order, r, p) ==> !Survives(prefix, t, Flush(prefix, t, order, r, cell), p)
  {
    var h1 := [Staged(p, op), Framed(p, body), Began(true)];
    var h2 := [Staged(p, op), Framed(p, body), Began(true), Framed(q, body)];
    var h3 := [Began(true), Staged(p, op), Framed(p, body), Listed(Some(live))];
    assert h1[2].Began?;
    assert FramedAt(h2, 1, p) && NoListing(h2, 1) && FrameAt(h2, 3) && NoEval(h2, 3);
    assert h3[3].Listed?;
    Outcome(prefix, fs, h1, order, r, cell, p);
    Outcome(prefix, fs, h2, order, r, cell, p);
    Outcome(prefix, fs, h3, order, r, cell, p);
  }

  /** What an event leaves staged. */
  function StagedBy(staged: seq<Stage>, e: FsEvent): seq<Stage> {
    match e
    case Staged(p, op) => staged + [Stage(p, op)]
    case Began(dirty) => if dirty then staged else []
    case _ => staged
  }

  lemma PlayOne(prefix: string, fs: Fs, h: seq<FsEvent>, e: FsEvent)
    ensures Play(prefix, fs, h + [e]).staged == StagedBy(Play(prefix, fs, h).staged, e)
  {
    assert (h + [e])[..|h|] == h;
  }

  /** One staged path is its own enumeration. */
  lemma OneStaged(fs: Fs, p: string, op: Op, r: Remote)
    requires fs.staged == [Stage(p, op)] && Normal(p) && r.bucket && (op.Write? ==> r.put(p))
    ensures Flushable(fs, [p], r, p)
  {
    assert fs.staged[..0] == [] && LastOps(fs.staged) == map[p := op];
  }

  lemma PlayThree(prefix: string, fs: Fs, a: FsEvent, b: FsEvent, c: FsEvent)
    ensures Play(prefix, fs, [a, b, c]).staged == StagedBy(StagedBy(StagedBy(fs.staged, a), b), c)
  {
    assert Play(prefix, fs, []) == fs;
    hide Play, StagedBy;
    PlayOne(prefix, fs, [], a);
    PlayOne(prefix, fs, [a], b);
    PlayOne(prefix, fs, [a, b], c);
    assert [] + [a] == [a] && [a] + [b] == [a, b] && [a, b] + [c] == [a, b, c];
  }

  lemma PlayFour(prefix: string, fs: Fs, a: FsEvent, b: FsEvent, c: FsEvent, d: FsEvent)
    ensures Play(prefix, fs, [a, b, c, d]).staged == StagedBy(Play(prefix, fs, [a, b, c]).staged, d)
  {
    hide Play, StagedBy;
    PlayOne(prefix, fs, [a, b, c], d);
    assert [a, b, c] + [d] == [a, b, c, d];
  }

  /** What the three histories of WhoWinsTheFlush leave staged when nothing was before. */
  lemma OnePathStaged(fs: Fs, p: string, q: string, op: Op, body: bytes, live: map<string, nat>)
    requires fs.staged == []
    ensures Play("", fs, [Staged(p, op), Framed(p, body), Began(true)]).staged == [Stage(p, op)]
    ensures Play("", fs, [Staged(p, op), Framed(p, body), Began(true), Framed(q, body)]).staged == [Stage(p, op)]
    ensures Play("", fs, [Began(true), Staged(p, op), Framed(p, body), Listed(Some(live))]).staged == [Stage(p, op)]
  {
    hide Play;
    PlayThree("", fs, Staged(p, op), Framed(p, body), Began(true));
    PlayFour("", fs, Staged(p, op), Framed(p, body), Began(true), Framed(q, body));
    PlayThree("", fs, Began(true), Staged(p, op), Framed(p, body));
    PlayFour("", fs, Began(true), Staged(p, op), Framed(p, body), Listed(Some(live)));
    assert [] + [Stage(p, op)] == [Stage(p, op)];
  }

  const NoFiles: Fs := Fs([], map[], map[], 0, 0)

  /** All three do happen: from no files, with a bucket that takes the PUT. */
  lemma ThreeFlushes(r: Remote) returns (lost: Fs, saved: Fs, relisted: Fs)
    requires r.bucket && r.put("/p")
    ensures lost == Play("", NoFiles, [Staged("/p", Write([1])), Framed("/p", [2]), Began(true)])
    ensures saved == Play("", NoFiles, [Staged("/p", Write([1])), Framed("/p", [2]), Began(true), Framed("/q", [2])])
    ensures relisted
         == Play("", NoFiles, [Began(true), Staged("/p", Write([1])), Framed("/p", [2]), Listed(Some(map["/p" := 1]))])
    ensures Flushable(lost, ["/p"], r, "/p") && !Survives("", lost, Flush("", lost, ["/p"], r, 1), "/p")
    ensures Flushable(saved, ["/p"], r, "/p") && Survives("", saved, Flush("", saved, ["/p"], r, 1), "/p")
    ensures Flushable(relisted, ["/p"], r, "/p") && !Survives("", relisted, Flush("", relisted, ["/p"], r, 1), "/p")
  {
    var op, live := Write([1]), map["/p" := 1];
    lost := Play("", NoFiles, [Staged("/p", op), Framed("/p", [2]), Began(true)]);
    saved := Play("", NoFiles, [Staged("/p", op), Framed("/p", [2]), Began(true), Framed("/q", [2])]);
    relisted := Play("", NoFiles, [Began(true), Staged("/p", op), Framed("/p", [2]), Listed(Some(live))]);
    OnePathStaged(NoFiles, "/p", "/q", op, [2], live);
    hide Play, Flush, Survives, Flushable;
    OneStaged(lost, "/p", op, r);
    OneStaged(saved, "/p", op, r);
    OneStaged(relisted, "/p", op, r);
    WhoWinsTheFlush("", NoFiles, "/p", "/q", op, [2], live, ["/p"], r, 1);
  }

  /**
   * The protection is by row origin, not by which path raced: a write to an older upload is
   * dropped because some other path was uploaded during the eval.
   */
  lemma UnrelatedFrameDropsWrite() returns (fs: Fs, p: string, q: string, r: Remote, order: seq<string>)
    ensures p != q && Normal(p) && Normal(q) && !Raced(fs)
    ensures View(fs.staged, p) == Some(Write([1])) && View(fs.staged, q).None?
    ensures Enumerates(order, LastOps(fs.staged).Keys) && r.bucket && r.put(p)
    ensures Read("", Flush("", FrameWriteTo("", fs, q, [2]), order, r, 7), p) == Found([0])
  {
    p, q, order := "/p", "/q", ["/p"];
    var before := FrameWriteTo("", NoFiles, p, [0]);
    fs := BeginEval(before, false).(staged := [Stage(p, Write([1]))]);
    r := Remote(true, x => true, x => true);
    assert fs.staged[..0] == [] && LastOps(fs.staged) == map[p := Write([1])];
    var raced := FrameWriteTo("", fs, q, [2]);
    FlushAt("", raced, order, r, 7, p);
    assert KeyOf("", p) == "p" && KeyOf("", q) == "q" by {
      assert TrimSlashes(p) == p[1..] == "p" && TrimSlashes(q) == q[1..] == "q";
    }
    assert Protected(raced, p) && raced.bodies["p"] == [0];
  }

  /** An uploaded file that the cell deleted. */
  const Deleted: Fs :=
    Fs([Stage("/p", Delete)], map["/p" := Row("p", 1, -1, FrameWrite)], map["p" := [0]], 1, 1)

  lemma DeletedIsReached()
    ensures Play("", NoFiles, [Framed("/p", [0]), Began(false), Staged("/p", Delete)]) == Deleted
  {
    var h, fs0 := [Framed("/p", [0]), Began(false), Staged("/p", Delete)], NoFiles;
    assert h[..2] == [h[0], h[1]] && [h[0], h[1]][..1] == [h[0]] && [h[0]][..0] == [];
    assert KeyOf("", "/p") == "p" by { assert TrimSlashes("/p") == "/p"[1..] == "p"; }
    assert Play("", fs0, [h[0]]) == FrameWriteTo("", fs0, "/p", [0]) == Deleted.(staged := [], evalStart := 0);
    assert Play("", fs0, [h[0], h[1]]) == Deleted.(staged := []);
    assert [] + [Stage("/p", Delete)] == [Stage("/p", Delete)];
  }

  /** A delete whose object removal failed: the cell saw the file gone, and the next one reads it. */
  lemma FailedDeleteIsReadable(r: Remote)
    requires r.bucket && !r.del("/p")
    ensures Play("", NoFiles, [Framed("/p", [0]), Began(false), Staged("/p", Delete)]) == Deleted
    ensures !Raced(Deleted) && Enumerates(["/p"], LastOps(Deleted.staged).Keys)
    ensures Read("", Deleted, "/p") == Enoent && Read("", Flush("", Deleted, ["/p"], r, 1), "/p") == Found([0])
  {
    DeletedIsReached();
    assert Deleted.staged[..0] == [] && LastOps(Deleted.staged) == map["/p" := Delete];
    assert KeyOf("", "/p") == "p" by { assert TrimSlashes("/p") == "/p"[1..] == "p"; }
    FlushAt("", Deleted, ["/p"], r, 1, "/p");
  }
}
