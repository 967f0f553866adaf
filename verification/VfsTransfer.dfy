/**
 * Chunked upload and download: the SDK's writeFile and streamReadFile
 * (packages/sdk/src/index.ts) against the kernel's vfs_write and vfs_read
 * (apps/kernel/src/lib.rs), for one path.
 */
module VfsTransfer {
  import opened Prelude
  import Base64

  const DEFAULT_CHUNK: nat := 256 * 1024
  const MAX_CHUNK: nat := 1024 * 1024

  // ---- the splice ----------------------------------------------------------------------------

  /** Byte k of base after data is written at `at`, any gap filled with zeros. */
  function Splice(base: bytes, at: nat, data: bytes): (r: bytes)
    ensures |r| == Max(|base|, at + |data|)
  {
    seq(Max(|base|, at + |data|), k requires 0 <= k < Max(|base|, at + |data|) =>
      if at <= k < at + |data| then data[k - at] else if k < |base| then base[k] else 0)
  }

  /** The file now is `was` with `data` at `at`: nothing else of it has changed, and a gap reads as zeros. */
  ghost predicate Overwritten(was: bytes, at: nat, data: bytes, now: bytes) {
    && |now| == Max(|was|, at + |data|)
    && now[at..at + |data|] == data
    && now[..Min(at, |was|)] == was[..Min(at, |was|)]
    && (at + |data| < |was| ==> now[at + |data|..] == was[at + |data|..])
    && (forall k :: |was| <= k < at ==> now[k] == 0)
  }

  /** A splice overwrites its window and nothing else, and is the only body that does. */
  lemma SpliceOverwrites(was: bytes, at: nat, data: bytes, now: bytes)
    ensures Overwritten(was, at, data, now) <==> now == Splice(was, at, data)
  {
    var want := Splice(was, at, data);
    if Overwritten(was, at, data, now) {
      forall k | 0 <= k < |now| ensures now[k] == want[k] {
        if at <= k < at + |data| { assert now[k] == now[at..at + |data|][k - at]; }
        else if k < at && k < |was| { assert now[k] == now[..Min(at, |was|)][k]; }
        else if k >= at + |data| { assert now[k] == now[at + |data|..][k - at - |data|]; }
      }
    }
  }

  /** One byte over the middle of a file, at its front, and behind its end. */
  lemma OverwrittenBytes()
    ensures WriteFrame(Some([1, 2, 3]), false, Some(1), [9], true) == [1, 9, 3]
    ensures WriteFrame(Some([1, 2, 3]), false, Some(0), [9], true) == [9, 2, 3]
    ensures WriteFrame(Some([1]), false, Some(3), [9], true) == [1, 0, 0, 9]
    ensures WriteFrame(Some([1, 2, 3]), false, None, [9], true) == [1, 2, 3, 9]
    ensures WriteFrame(Some([1, 2, 3]), true, Some(1), [9], true) == [9]
  {
    SpliceOverwrites([1, 2, 3], 1, [9], [1, 9, 3]);
    SpliceOverwrites([1, 2, 3], 0, [9], [9, 2, 3]);
    SpliceOverwrites([1], 3, [9], [1, 0, 0, 9]);
    SpliceOverwrites([1, 2, 3], 3, [9], [1, 2, 3, 9]);
  }

  /** Consecutive writes are one write. */
  lemma SpliceAppends(base: bytes, at: nat, x: bytes, y: bytes)
    requires y != []
    ensures Splice(Splice(base, at, x), at + |x|, y) == Splice(base, at, x + y)
  {
  }

  /** Re-sending a frame that does not truncate changes nothing. */
  lemma ResendIsIdempotent(body: Option<bytes>, at: nat, data: bytes)
    ensures var once := WriteFrame(body, false, Some(at), data, true);
      WriteFrame(Some(once), false, Some(at), data, true) == once
  {
  }

  /**
   * vfs_write's new body. The frame is a plain replacement when it truncates, or when it names no
   * offset and there is no row; otherwise the current body is read first, and a read that fails
   * counts as an empty body.
   */
  function WriteFrame(body: Option<bytes>, truncate: bool, offset: Option<nat>, data: bytes, readable: bool): bytes {
    if truncate || (offset.None? && body.None?) then data
    else
      var base := if body.Some? && readable then body.value else [];
      Splice(base, if offset.Some? then offset.value else |base|, data)
  }

  /**
   * A write at an offset splices into the file exactly when the read of the current body works,
   * or everything outside the written window was zeros that the fill restores.
   */
  lemma UnreadableBodyIsLost(body: bytes, at: nat, data: bytes, readable: bool)
    ensures WriteFrame(Some(body), false, Some(at), data, readable) == Splice(body, at, data)
       <==> (readable || (|body| <= at + |data| && forall k :: 0 <= k < Min(at, |body|) ==> body[k] == 0))
  {
    var got := WriteFrame(Some(body), false, Some(at), data, readable);
    var want := Splice(body, at, data);
    if !readable && |body| <= at + |data| {
      if forall k :: 0 <= k < Min(at, |body|) ==> body[k] == 0 {
        assert got == want;
      } else {
        var k :| 0 <= k < Min(at, |body|) && body[k] != 0;
        assert got[k] != want[k];
      }
    } else if !readable {
      assert |got| < |want|;
    }
  }

  /** Two bytes of which the first is lost when the second is written behind them. */
  lemma LostBody()
    ensures WriteFrame(Some([7, 7]), false, Some(2), [9], false) == [0, 0, 9]
    ensures Splice([7, 7], 2, [9]) == [7, 7, 9]
  {
    assert WriteFrame(Some([7, 7]), false, Some(2), [9], false)[0] == 0;
  }

  // ---- the server ----------------------------------------------------------------------------

  /** vfs_read's replies: no such file, a row without a body, or bytes and whether they end it. */
  datatype ReadReply = Missing | Torn | Data(dataB64: bytes, eof: bool)

  class VfsServer {
    // the row and object of one path, which exist together
    var body: Option<bytes>

    constructor ()
      ensures body == None
    {
      body := None;
    }

    /** vfs_write, when R2 answers: decode, splice in a growing buffer, store. */
    method HandleWrite(dataB64: bytes, offset: nat, truncate: bool) returns (ok: bool)
      modifies this
      ensures ok <==> Base64.Decode(dataB64).Some?
      ensures body == if ok then Some(WriteFrame(old(body), truncate, Some(offset), Base64.Decode(dataB64).value, true))
                            else old(body)
      ensures ok && truncate ==> body == Base64.Decode(dataB64)
      ensures ok ==> body.Some?
      ensures ok && !truncate ==>
        Overwritten(if old(body).Some? then old(body).value else [], offset, Base64.Decode(dataB64).value, body.value)
    {
      var decoded := Base64.DecodeBytes(dataB64);
      if decoded.None? { return false; }
      var newBytes := decoded.value;
      if truncate {
        body := Some(newBytes);
      } else {
        var base := if body.Some? then body.value else [];
        var end := offset + |newBytes|;
        var len := Max(Max(|base|, offset), end);
        var full := new byte[len](k requires 0 <= k => if k < |base| then base[k] else 0);
        forall k | offset <= k < end {
          full[k] := newBytes[k - offset];
        }
        assert full[..] == Splice(base, offset, newBytes);
        SpliceOverwrites(base, offset, newBytes, full[..]);
        body := Some(full[..]);
      }
      ok := true;
    }

    /**
     * vfs_read of a range: clamp the offset, get it, and say whether it reached the end. atEnd is
     * what R2 makes of a range that starts at the object's end: an empty body, or none at all.
     */
    method HandleRead(offset: nat, len: nat, atEnd: bool) returns (r: ReadReply)
      ensures r.Missing? <==> body.None?
      ensures r.Torn? <==> body.Some? && offset >= |body.value| && !atEnd
      ensures r.Data? ==>
        var at := Min(offset, |body.value|);
        var end := Min(at + len, |body.value|);
        Base64.Decode(r.dataB64) == Some(body.value[at..end]) && (r.eof <==> end == |body.value|)
    {
      if body.None? { return Missing; }
      var total := |body.value|;
      var at := Min(offset, total);
      if at == total && !atEnd { return Torn; }
      var part := body.value[at..Min(at + len, total)];
      var dataB64 := Base64.EncodeBytes(part);
      r := Data(dataB64, at + |part| >= total);
    }
  }

  // ---- writeFile -----------------------------------------------------------------------------

  function ChunkSize(chunkBytes: Option<nat>): (r: nat)
    ensures 1 <= r <= MAX_CHUNK
    ensures chunkBytes.Some? && 1 <= chunkBytes.value <= 1024 * 1024 ==> r == chunkBytes.value
    ensures chunkBytes.Some? && chunkBytes.value > 1024 * 1024 ==> r == 1024 * 1024
    ensures chunkBytes.None? || chunkBytes.value == 0 ==> r == 256 * 1024
  {
    Max(1, Min(if chunkBytes.Some? && chunkBytes.value != 0 then chunkBytes.value else DEFAULT_CHUNK, MAX_CHUNK))
  }

  /** The length of the first frame, the only one that can truncate. */
  function FirstFrame(parts: seq<bytes>, chunk: nat): nat {
    if parts == [] then 0 else Min(|parts[0]|, chunk)
  }

  /**
   * The file writeFile leaves. Truncating replaces the file by the first frame at position 0
   * whatever the offset, and later frames go to their offsets.
   */
  function Uploaded(before: Option<bytes>, parts: seq<bytes>, chunk: nat, offset: nat, truncate: bool): bytes {
    var data := Concat(parts);
    var first := FirstFrame(parts, chunk);
    if !truncate then Splice(if before.Some? then before.value else [], offset, data)
    else Truncated(data, first, offset)
  }

  /** A default upload stores exactly the data, however it is cut; an offset makes it depend on
      the first frame being the whole of it. */
  lemma UploadIsExactIff(before: Option<bytes>, parts: seq<bytes>, chunk: nat, offset: nat)
    ensures Uploaded(before, parts, chunk, offset, true) == Concat(parts)
       <==> offset == 0 || |Concat(parts)| == FirstFrame(parts, chunk)
  {
    var data, f := Concat(parts), FirstFrame(parts, chunk);
    assert f <= |data|;
    if offset == 0 { assert data[..f] + [] + data[f..] == data; }
    if |data| > f && offset > 0 {
      assert |Uploaded(before, parts, chunk, offset, true)| == |data| + offset;
    }
  }

  /** Two bytes in two frames at offset 1: the second one lands behind a gap. */
  lemma UploadWithGap()
    ensures Uploaded(None, [[7, 9]], 1, 1, true) == [7, 0, 9] && Concat([[7, 9]]) == [7, 9]
  {
    assert Concat([[7, 9]]) == [7, 9] + Concat([]);
    assert [7, 9][..1] == [7] && [7, 9][1..] == [9] && seq(1, _ => 0) == [0];
  }

  /** A truncating upload of `sent` whose first frame had f bytes. */
  function Truncated(sent: bytes, f: nat, offset: nat): bytes {
    if |sent| <= f then sent else sent[..f] + seq(offset, _ => 0) + sent[f..]
  }

  lemma TruncatedAppends(sent: bytes, slice: bytes, f: nat, offset: nat)
    requires slice != [] && |sent| >= f
    ensures Splice(Truncated(sent, f, offset), offset + |sent|, slice) == Truncated(sent + slice, f, offset)
  {
    var all := sent + slice;
    var gap := seq(offset, _ => 0);
    assert all[..f] == sent[..f] && all[f..] == sent[f..] + slice;
    var want := all[..f] + gap + all[f..];
    var got := Splice(Truncated(sent, f, offset), offset + |sent|, slice);
    assert |got| == |want|;
    forall k | 0 <= k < |want| ensures got[k] == want[k] {
      if k < f { assert want[k] == sent[k]; }
      else if k < f + offset { assert want[k] == gap[k - f]; }
      else { assert want[k] == all[k - offset]; }
    }
  }

  /** What the frames so far have left: nothing yet, or the upload of the data sent. */
  ghost predicate Progress(
    now: Option<bytes>, before: Option<bytes>, sent: bytes, first: bool, f: nat, offset: nat, truncate: bool)
  {
    if first then sent == [] && now == before
    else
      && |sent| >= f
      && now == Some(if truncate then Truncated(sent, f, offset)
                     else Splice(if before.Some? then before.value else [], offset, sent))
  }

  /** One more frame: the first one sets the shape, later ones splice at their offset. */
  lemma FrameProgress(
    now: Option<bytes>, before: Option<bytes>, sent: bytes, slice: bytes, first: bool,
    f: nat, offset: nat, truncate: bool)
    requires Progress(now, before, sent, first, f, offset, truncate)
    requires if first then |slice| == f else slice != []
    ensures Progress(Some(WriteFrame(now, first && truncate, Some(offset + |sent|), slice, true)),
                     before, sent + slice, false, f, offset, truncate)
  {
    if first {
      assert sent + slice == slice;
    } else if truncate {
      TruncatedAppends(sent, slice, f, offset);
    } else {
      SpliceAppends(if before.Some? then before.value else [], offset, sent, slice);
    }
  }

  /** One request of the upload loop. */
  method SendFrame(
    server: VfsServer, slice: bytes, at: nat, first: bool, truncate: bool,
    ghost before: Option<bytes>, ghost sent: bytes, ghost f: nat, ghost offset: nat)
    requires Progress(server.body, before, sent, first, f, offset, truncate) && at == offset + |sent|
    requires if first then |slice| == f else slice != []
    modifies server
    ensures Progress(server.body, before, sent + slice, false, f, offset, truncate)
  {
    hide WriteFrame, Progress;
    var dataB64 := Base64.EncodeBytes(slice);
    FrameProgress(server.body, before, sent, slice, first, f, offset, truncate);
    var ok := server.HandleWrite(dataB64, at, first && truncate);
  }

  lemma FrameAppends(sent: bytes, data: bytes, i: nat, end: nat)
    requires i <= end <= |data|
    ensures sent + data[..i] + data[i..end] == sent + data[..end]
  {
    assert data[..i] + data[i..end] == data[..end];
  }

  /** sendChunk: slice one part into frames; an empty first part still sends one frame. */
  method SendChunk(
    server: VfsServer, data: bytes, chunk: nat, offset: nat, first0: bool, sentBytes: nat, truncate: bool,
    ghost before: Option<bytes>, ghost sent: bytes, ghost f: nat)
    requires chunk >= 1 && sentBytes == |sent|
    requires Progress(server.body, before, sent, first0, f, offset, truncate)
    requires first0 ==> f == Min(|data|, chunk)
    modifies server
    ensures Progress(server.body, before, sent + data, false, f, offset, truncate)
  {
    assert data[..0] == [] && sent + [] == sent;
    if first0 && |data| == 0 {
      assert sent + data == sent + [];
      SendFrame(server, [], offset + sentBytes, true, truncate, before, sent, f, offset);
      return;
    }
    var first := first0;
    var i := 0;
    while i < |data|
      invariant 0 <= i <= |data|
      invariant first <==> first0 && i == 0
      invariant Progress(server.body, before, sent + data[..i], first, f, offset, truncate)
    {
      var end := Min(i + chunk, |data|);
      SendFrame(server, data[i..end], offset + sentBytes + i, first, truncate, before, sent + data[..i], f, offset);
      FrameAppends(sent, data, i, end);
      first := false;
      i := end;
    }
    assert data[..i] == data;
  }

  lemma ConcatStep(parts: seq<bytes>, i: nat)
    requires i < |parts|
    ensures Concat(parts[..i + 1]) == Concat(parts[..i]) + parts[i]
  {
    assert parts[..i + 1] == parts[..i] + [parts[i]];
    ConcatAppend(parts[..i], parts[i]);
  }

  /** writeFile: every part in frames of at most chunk bytes, and one empty frame for no part. */
  method WriteFile(server: VfsServer, parts: seq<bytes>, chunkBytes: Option<nat>, offset: nat, truncate: bool)
    returns (written: nat)
    modifies server
    ensures written == |Concat(parts)|
    ensures server.body == Some(Uploaded(old(server.body), parts, ChunkSize(chunkBytes), offset, truncate))
  {
    var chunk := ChunkSize(chunkBytes);
    ghost var before := server.body;
    ghost var f := FirstFrame(parts, chunk);
    var first := true;
    written := 0;
    ghost var sent: bytes := [];
    for i := 0 to |parts|
      invariant sent == Concat(parts[..i]) && written == |sent|
      invariant first <==> i == 0
      invariant Progress(server.body, before, sent, first, f, offset, truncate)
    {
      SendChunk(server, parts[i], chunk, offset, first, written, truncate, before, sent, f);
      ConcatStep(parts, i);
      sent := sent + parts[i];
      written := written + |parts[i]|;
      first := false;
    }
    assert sent == Concat(parts) by { assert parts[..|parts|] == parts; }
    if first {
      SendChunk(server, [], chunk, offset, first, written, truncate, before, sent, f);
      assert sent + [] == sent;
    }
  }

  // ---- streamReadFile and readFile -----------------------------------------------------------

  /** No chunk is empty or longer than asked for. */
  predicate Bounded(chunks: seq<bytes>, len: nat) {
    forall i :: 0 <= i < |chunks| ==> 0 < |chunks[i]| <= len
  }

  lemma Continues(s: bytes, a: nat, b: nat, c: nat)
    requires a <= b <= c <= |s|
    ensures s[a..b] + s[b..c] == s[a..c]
  {
  }

  /**
   * streamReadFile, with None where it throws: terminates, every chunk is bounded, and the chunks
   * are the rest of the file. It throws exactly when there is no file, or when it starts at or
   * past the end (so on every empty file) and R2 has no body for such a range.
   */
  method StreamReadFile(server: VfsServer, chunkBytes: Option<nat>, start: nat, atEnd: bool)
    returns (r: Option<seq<bytes>>)
    ensures r.None? <==> server.body.None? || (start >= |server.body.value| && !atEnd)
    ensures r.Some? ==> Concat(r.value) == server.body.value[Min(start, |server.body.value|)..]
    ensures r.Some? ==> Bounded(r.value, ChunkSize(chunkBytes))
  {
    hide ChunkSize;
    var len := ChunkSize(chunkBytes);
    var offset := start;
    ghost var total := if server.body.Some? then |server.body.value| else 0;
    var chunks := [];
    while true
      invariant server.body.Some? ==> Concat(chunks) == server.body.value[Min(start, total)..Min(offset, total)]
      invariant offset == start || (server.body.Some? && start < offset < total)
      invariant Bounded(chunks, len)
      decreases total - Min(offset, total)
    {
      hide Concat, Base64.Decode;
      var reply := server.HandleRead(offset, len, atEnd);
      if !reply.Data? { return None; }
      var bytes := Base64.DecodeBytes(reply.dataB64);
      if |bytes.value| > 0 {
        ConcatAppend(chunks, bytes.value);
        Continues(server.body.value, Min(start, total), Min(offset, total), Min(offset + |bytes.value|, total));
        chunks := chunks + [bytes.value];
        offset := offset + |bytes.value|;
      }
      if reply.eof || |bytes.value| == 0 { break; }
    }
    r := Some(chunks);
  }

  /** readFile: copy the chunks into one buffer of their total length; None where it throws. */
  method ReadFile(server: VfsServer, chunkBytes: Option<nat>, atEnd: bool) returns (out: Option<bytes>)
    ensures out == if server.body == Some([]) && !atEnd then None else server.body
  {
    var parts := StreamReadFile(server, chunkBytes, 0, atEnd);
    if parts.None? { return None; }
    var buffer := [];
    for i := 0 to |parts.value|
      invariant buffer == Concat(parts.value[..i])
    {
      ConcatStep(parts.value, i);
      buffer := buffer + parts.value[i];
    }
    assert parts.value[..|parts.value|] == parts.value;
    out := Some(buffer);
  }

  /**
   * A default upload followed by a download is the identity, whatever the two chunk sizes, except
   * for no data at all when R2 has no body for the range at the end of an empty object.
   */
  method UploadThenDownload(server: VfsServer, data: bytes, up: Option<nat>, down: Option<nat>, atEnd: bool)
    returns (out: Option<bytes>)
    modifies server
    ensures out == if data == [] && !atEnd then None else Some(data)
  {
    assert Concat([data]) == data + Concat([]) == data;
    var _ := WriteFile(server, [data], up, 0, true);
    UploadIsExactIff(None, [data], ChunkSize(up), 0);
    out := ReadFile(server, down, atEnd);
  }
}
