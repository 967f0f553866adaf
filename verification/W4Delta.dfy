/**
 * The byte-delta codec of the glue (apps/kernel/src/kernel-glue.ts): a heap image is diffed
 * against the previous image at a 256-byte grain, and a stored base plus an ordered chain of
 * deltas is turned back into the last image.
 */
module W4Delta {
  import opened Prelude

  const GRAIN: nat := 256
  const PAGE: nat := 65536

  /** A copy of WebAssembly linear memory, which is always a whole number of pages. */
  type Image = s: bytes | |s| % PAGE == 0

  /** A decoded delta: the changed grains, and their bytes one grain after another. */
  datatype Delta = Delta(indices: seq<nat>, payload: bytes)

  ghost predicate WellFormed(d: Delta) {
    |d.payload| == |d.indices| * GRAIN
  }

  ghost predicate AllWellFormed(ds: seq<Delta>) {
    forall d | d in ds :: WellFormed(d)
  }

  // ---- taking a delta ---------------------------------------------------------------------

  function GrainCount(len: nat): nat {
    (len + GRAIN - 1) / GRAIN
  }

  /** Grain i of raw must be carried: it reaches past prev, or some byte of it changed. */
  ghost predicate GrainDiffers(prev: bytes, raw: bytes, i: nat)
    requires |prev| <= |raw| && i * GRAIN < |raw|
  {
    var end := Min(i * GRAIN + GRAIN, |raw|);
    end > |prev| || exists j :: i * GRAIN <= j < end && prev[j] != raw[j]
  }

  ghost function ChangedBelow(prev: bytes, raw: bytes, n: nat): seq<nat>
    requires |prev| <= |raw| && n <= GrainCount(|raw|)
  {
    if n == 0 then []
    else ChangedBelow(prev, raw, n - 1) + if GrainDiffers(prev, raw, n - 1) then [n - 1] else []
  }

  ghost function Changed(prev: bytes, raw: bytes): seq<nat>
    requires |prev| <= |raw|
  {
    ChangedBelow(prev, raw, GrainCount(|raw|))
  }

  /** The bytes of the listed grains, zero where a grain runs past the image. */
  ghost function Payload(raw: bytes, changed: seq<nat>): bytes {
    seq(|changed| * GRAIN, p requires 0 <= p < |changed| * GRAIN =>
      var at := changed[p / GRAIN] * GRAIN + p % GRAIN;
      if at < |raw| then raw[at] else 0)
  }

  ghost function MakeDelta(prev: bytes, raw: bytes): (d: Delta)
    requires |prev| <= |raw|
    ensures WellFormed(d)
  {
    Delta(Changed(prev, raw), Payload(raw, Changed(prev, raw)))
  }

  lemma {:induction false} ChangedBelowSpec(prev: bytes, raw: bytes, n: nat)
    requires |prev| <= |raw| && n <= GrainCount(|raw|)
    ensures forall i :: i in ChangedBelow(prev, raw, n) <==> 0 <= i < n && GrainDiffers(prev, raw, i)
    ensures forall k, l :: 0 <= k < l < |ChangedBelow(prev, raw, n)|
              ==> ChangedBelow(prev, raw, n)[k] < ChangedBelow(prev, raw, n)[l]
  {
    if n == 0 {
    } else {
      ChangedBelowSpec(prev, raw, n - 1);
      var front := ChangedBelow(prev, raw, n - 1);
      assert forall k :: 0 <= k < |front| ==> front[k] in front;
    }
  }

  /** A byte of grain i that is new or has changed. */
  predicate NewByte(prev: bytes, raw: bytes, i: nat, j: nat) {
    256 * i <= j < 256 * i + 256 && j < |raw| && (j >= |prev| || prev[j] != raw[j])
  }

  /** A delta carries exactly the grains with such a byte. */
  lemma CarriedIff(prev: bytes, raw: bytes, i: nat)
    requires |prev| <= |raw|
    ensures i in Changed(prev, raw) <==> exists j: nat :: NewByte(prev, raw, i, j)
  {
    ChangedBelowSpec(prev, raw, GrainCount(|raw|));
    if i in Changed(prev, raw) {
      var end := Min(i * GRAIN + GRAIN, |raw|);
      if end > |prev| {
        assert NewByte(prev, raw, i, end - 1);
      } else {
        var j :| i * GRAIN <= j < end && prev[j] != raw[j];
        assert NewByte(prev, raw, i, j);
      }
    }
    if j: nat :| NewByte(prev, raw, i, j) {
      assert i < GrainCount(|raw|);
      assert GrainDiffers(prev, raw, i);
    }
  }

  /** Byte b of the k-th grain carried is that of the image, or zero behind its end. */
  lemma CarriedByte(raw: bytes, changed: seq<nat>, k: nat, b: nat)
    requires k < |changed| && b < 256
    ensures |Payload(raw, changed)| == 256 * |changed| && 256 * k + b < 256 * |changed|
    ensures var at := 256 * changed[k] + b;
      Payload(raw, changed)[256 * k + b] == if at < |raw| then raw[at] else 0
  {
    assert (256 * k + b) / GRAIN == k && (256 * k + b) % GRAIN == b;
  }

  /** The changed-grain scan of dumpW4: early exit inside a grain, then the straddling rule. */
  method DiffGrains(prev: bytes, raw: bytes) returns (changed: seq<nat>)
    requires |prev| <= |raw|
    ensures changed == Changed(prev, raw)
  {
    var nGrains := GrainCount(|raw|);
    changed := [];
    for i := 0 to nGrains
      invariant changed == ChangedBelow(prev, raw, i)
    {
      var start := i * GRAIN;
      var end := Min(start + GRAIN, |raw|);
      if start >= |prev| {
        changed := changed + [i];
        continue;
      }
      var diff := false;
      var cmpEnd := Min(end, |prev|);
      var j := start;
      while j < cmpEnd
        invariant start <= j <= cmpEnd
        invariant !diff && forall l :: start <= l < j ==> prev[l] == raw[l]
      {
        if raw[j] != prev[j] {
          diff := true;
          break;
        }
        j := j + 1;
      }
      if !diff && end > |prev| {
        diff := true;
      }
      if diff {
        changed := changed + [i];
      }
    }
  }

  /** dumpW4's payload loop: one grain-sized window of the image per changed grain. */
  method CopyGrains(raw: bytes, changed: seq<nat>) returns (payload: array<byte>)
    requires forall i :: i in changed ==> i * GRAIN < |raw|
    ensures payload[..] == Payload(raw, changed)
  {
    payload := new byte[|changed| * GRAIN](_ => 0);
    for k := 0 to |changed|
      invariant forall p :: 0 <= p < k * GRAIN ==> payload[p] == Payload(raw, changed)[p]
      invariant forall p :: k * GRAIN <= p < payload.Length ==> payload[p] == 0
    {
      var start := changed[k] * GRAIN;
      var end := Min(start + GRAIN, |raw|);
      forall o | 0 <= o < end - start {
        payload[k * GRAIN + o] := raw[start + o];
      }
      forall p | k * GRAIN <= p < (k + 1) * GRAIN
        ensures payload[p] == Payload(raw, changed)[p]
      {
        assert p / GRAIN == k && p % GRAIN == p - k * GRAIN;
      }
    }
  }

  // ---- putting an image back --------------------------------------------------------------

  /** Grain gi of the image becomes src, cut off at the end of the image. */
  ghost function Blit(image: bytes, gi: nat, src: bytes): bytes
    requires |src| == GRAIN
  {
    seq(|image|, j requires 0 <= j < |image| =>
      if gi * GRAIN <= j < gi * GRAIN + GRAIN then src[j - gi * GRAIN] else image[j])
  }

  ghost function BlitBelow(image: bytes, d: Delta, n: nat): (r: bytes)
    requires WellFormed(d) && n <= |d.indices|
    ensures |r| == |image|
  {
    if n == 0 then image
    else Blit(BlitBelow(image, d, n - 1), d.indices[n - 1], d.payload[(n - 1) * GRAIN..n * GRAIN])
  }

  ghost function ApplyAll(image: bytes, ds: seq<Delta>): (r: bytes)
    requires AllWellFormed(ds)
    ensures |r| == |image|
  {
    if ds == [] then image
    else
      var d := ds[|ds| - 1];
      BlitBelow(ApplyAll(image, ds[..|ds| - 1]), d, |d.indices|)
  }

  /** One past the last byte a delta can touch, or 0 for an empty delta. */
  function Extent(indices: seq<nat>): nat {
    if indices == [] then 0
    else Max(Extent(indices[..|indices| - 1]), (indices[|indices| - 1] + 1) * GRAIN)
  }

  function FullLength(len: nat, ds: seq<Delta>): nat {
    if ds == [] then len
    else Max(FullLength(len, ds[..|ds| - 1]), Extent(ds[|ds| - 1].indices))
  }

  function Pad(image: bytes, len: nat): (r: bytes)
    requires |image| <= len
    ensures |r| == len
  {
    image + seq(len - |image|, _ => 0)
  }

  lemma {:induction false} FullLengthAtLeast(len: nat, ds: seq<Delta>)
    ensures len <= FullLength(len, ds)
  {
    if ds != [] { FullLengthAtLeast(len, ds[..|ds| - 1]); }
  }

  /** restoreW4's reconstruction: grow the base to the largest target, then apply in order. */
  ghost function Reconstruct(base: bytes, ds: seq<Delta>): (r: bytes)
    requires AllWellFormed(ds)
    ensures |r| == FullLength(|base|, ds)
  {
    FullLengthAtLeast(|base|, ds);
    ApplyAll(Pad(base, FullLength(|base|, ds)), ds)
  }

  /** The body of restoreW4's apply loop over one delta, on the growing image itself. */
  method ApplyInPlace(image: array<byte>, indices: seq<nat>, payload: bytes)
    requires |payload| == |indices| * GRAIN
    modifies image
    ensures image[..] == BlitBelow(old(image[..]), Delta(indices, payload), |indices|)
  {
    ghost var d := Delta(indices, payload);
    for k := 0 to |indices|
      invariant image[..] == BlitBelow(old(image[..]), d, k)
    {
      BlitInPlace(image, indices[k], payload[k * GRAIN..(k + 1) * GRAIN]);
    }
  }

  /** One grain, clipped at the end of the image. */
  method BlitInPlace(image: array<byte>, index: nat, grain: bytes)
    requires |grain| == GRAIN
    modifies image
    ensures image[..] == Blit(old(image[..]), index, grain)
  {
    var dst := index * GRAIN;
    var n := Min(GRAIN, image.Length - dst);
    if n > 0 {
      forall o | 0 <= o < n {
        image[dst + o] := grain[o];
      }
    }
  }

  /** restoreW4 up to its checksum: size the image over the whole chain, then apply each delta. */
  method RebuildImage(base: bytes, ds: seq<Delta>) returns (image: array<byte>)
    requires AllWellFormed(ds)
    ensures image[..] == Reconstruct(base, ds)
  {
    var maxLen := |base|;
    for i := 0 to |ds|
      invariant maxLen == FullLength(|base|, ds[..i])
    {
      assert ds[..i + 1][..i] == ds[..i];
      var d := ds[i];
      maxLen := Max(maxLen, Extent(d.indices));
    }
    assert ds[..|ds|] == ds;
    FullLengthAtLeast(|base|, ds);
    var start := Pad(base, maxLen);
    image := new byte[maxLen](j requires 0 <= j < |start| => start[j]);
    assert image[..] == start;
    for i := 0 to |ds|
      invariant AllWellFormed(ds[..i])
      invariant image[..] == ApplyAll(start, ds[..i])
    {
      assert ds[..i + 1][..i] == ds[..i];
      assert WellFormed(ds[i]);
      ApplyInPlace(image, ds[i].indices, ds[i].payload);
    }
  }

  // ---- the chain theorem ------------------------------------------------------------------

  lemma {:induction false} ExtentBounds(indices: seq<nat>, k: nat)
    requires k < |indices|
    ensures (indices[k] + 1) * GRAIN <= Extent(indices)
  {
    if k < |indices| - 1 { ExtentBounds(indices[..|indices| - 1], k); }
  }

  lemma {:induction false} ExtentReached(indices: seq<nat>, bound: nat)
    requires forall i :: i in indices ==> (i + 1) * GRAIN <= bound
    ensures Extent(indices) <= bound
  {
    if indices != [] {
      var front := indices[..|indices| - 1];
      assert forall i :: i in front ==> i in indices;
      assert indices[|indices| - 1] in indices;
      ExtentReached(front, bound);
    }
  }

  /** Padding first or last gives the same image when every target lies inside it. */
  lemma {:induction false} BlitsCommuteWithPad(image: bytes, d: Delta, n: nat, len: nat)
    requires WellFormed(d) && n <= |d.indices|
    requires Extent(d.indices) <= |image| <= len
    ensures BlitBelow(Pad(image, len), d, n) == Pad(BlitBelow(image, d, n), len)
  {
    if n > 0 {
      BlitsCommuteWithPad(image, d, n - 1, len);
      ExtentBounds(d.indices, n - 1);
    }
  }

  lemma {:induction false} ApplyCommutesWithPad(image: bytes, ds: seq<Delta>, len: nat)
    requires AllWellFormed(ds)
    requires FullLength(0, ds) <= |image| <= len
    ensures ApplyAll(Pad(image, len), ds) == Pad(ApplyAll(image, ds), len)
  {
    if ds != [] {
      var front, d := ds[..|ds| - 1], ds[|ds| - 1];
      ApplyCommutesWithPad(image, front, len);
      BlitsCommuteWithPad(ApplyAll(image, front), d, |d.indices|, len);
    }
  }

  lemma {:induction false} FullLengthSplits(len: nat, ds: seq<Delta>)
    ensures FullLength(len, ds) == Max(len, FullLength(0, ds))
  {
    if ds != [] { FullLengthSplits(len, ds[..|ds| - 1]); }
  }

  /** After n blits, byte j is the payload's if its grain was among the first n, else untouched. */
  lemma InGrain(j: nat, g: nat)
    ensures g * GRAIN <= j < g * GRAIN + GRAIN <==> j / GRAIN == g
  {
  }

  /** Grain k of the payload holds what the image holds at that grain. */
  lemma PayloadAt(raw: bytes, changed: seq<nat>, k: nat, j: nat)
    requires k < |changed| && j < |raw| && j / GRAIN == changed[k]
    ensures k * GRAIN + (j - changed[k] * GRAIN) < |Payload(raw, changed)|
    ensures Payload(raw, changed)[k * GRAIN + (j - changed[k] * GRAIN)] == raw[j]
  {
    var p := k * GRAIN + (j - changed[k] * GRAIN);
    InGrain(j, changed[k]);
    assert p / GRAIN == k && p % GRAIN == j - changed[k] * GRAIN;
  }

  lemma {:induction false} BlitBelowAt(image: bytes, raw: bytes, changed: seq<nat>, n: nat, j: nat)
    requires n <= |changed| && j < |image| && j < |raw|
    ensures BlitBelow(image, Delta(changed, Payload(raw, changed)), n)[j]
         == if j / GRAIN in changed[..n] then raw[j] else image[j]
  {
    if n > 0 {
      BlitBelowAt(image, raw, changed, n - 1, j);
      var g := changed[n - 1];
      assert changed[..n] == changed[..n - 1] + [g];
      InGrain(j, g);
      if j / GRAIN == g { PayloadAt(raw, changed, n - 1, j); }
    }
  }

  /** One delta, applied to anything that starts with prev, rebuilds raw. */
  lemma DeltaRebuilds(prev: bytes, raw: bytes, image: bytes)
    requires |prev| <= |raw| <= |image| && image[..|prev|] == prev
    ensures BlitBelow(image, MakeDelta(prev, raw), |Changed(prev, raw)|)[..|raw|] == raw
  {
    var changed := Changed(prev, raw);
    ChangedBelowSpec(prev, raw, GrainCount(|raw|));
    forall j | 0 <= j < |raw|
      ensures BlitBelow(image, MakeDelta(prev, raw), |changed|)[j] == raw[j]
    {
      BlitBelowAt(image, raw, changed, |changed|, j);
      assert changed[..|changed|] == changed;
      var g := j / GRAIN;
      assert 0 <= g < GrainCount(|raw|) && g * GRAIN <= j < Min(g * GRAIN + GRAIN, |raw|);
      if g !in changed {
        assert !GrainDiffers(prev, raw, g);
        assert image[j] == image[..|prev|][j] == prev[j];
      }
    }
  }

  lemma WholeGrains(len: nat)
    requires len % PAGE == 0
    ensures GrainCount(len) * GRAIN == len
  {
    PageGrains(len / PAGE);
  }

  lemma PageGrains(pages: nat)
    ensures GrainCount(PAGE * pages) * GRAIN == PAGE * pages
  {
    assert PAGE * pages + GRAIN - 1 == GRAIN * (256 * pages) + 255;
    assert GrainCount(PAGE * pages) == 256 * pages;
  }

  /** A delta reaches exactly to the end of a grown image, so the chain sizes itself. */
  lemma DeltaExtent(prev: Image, raw: Image)
    requires |prev| <= |raw|
    ensures Max(|prev|, Extent(Changed(prev, raw))) == |raw|
  {
    var changed := Changed(prev, raw);
    ChangedBelowSpec(prev, raw, GrainCount(|raw|));
    assert GrainCount(|raw|) * GRAIN == |raw| by { WholeGrains(|raw|); }
    ExtentReached(changed, |raw|);
    if |prev| < |raw| {
      var last := GrainCount(|raw|) - 1;
      assert GrainDiffers(prev, raw, last);
      var k :| 0 <= k < |changed| && changed[k] == last;
      ExtentBounds(changed, k);
    }
  }

  /**
   * The chain theorem: if the stored chain rebuilds prev, then appending the delta from prev to
   * raw makes it rebuild raw, byte for byte and at raw's own length.
   */
  lemma AppendRebuilds(base: bytes, ds: seq<Delta>, prev: Image, raw: Image)
    requires AllWellFormed(ds) && Reconstruct(base, ds) == prev && |prev| <= |raw|
    ensures AllWellFormed(ds + [MakeDelta(prev, raw)])
    ensures Reconstruct(base, ds + [MakeDelta(prev, raw)]) == raw
  {
    var d := MakeDelta(prev, raw);
    var all := ds + [d];
    assert all[..|all| - 1] == ds;
    DeltaExtent(prev, raw);
    FullLengthAtLeast(|base|, ds);
    FullLengthSplits(|base|, ds);
    var padded := Pad(base, |prev|);
    assert Pad(base, |raw|) == Pad(padded, |raw|);
    ApplyCommutesWithPad(padded, ds, |raw|);
    DeltaRebuilds(prev, raw, Pad(prev, |raw|));
    var r := BlitBelow(Pad(prev, |raw|), d, |d.indices|);
    assert r[..|raw|] == r;
  }

  // ---- the index blob: 32-bit little-endian grain numbers -----------------------------------

  const TWO32: nat := 0x1_0000_0000

  function U32Le(n: nat): (r: bytes)
    requires n < TWO32
    ensures |r| == 4
  {
    [n % 256, n / 256 % 256, n / 65536 % 256, n / 16777216]
  }

  function ReadU32Le(b: bytes, at: nat): nat
    requires at + 4 <= |b|
  {
    (b[at] as int) + 256 * (b[at + 1] as int) + 65536 * (b[at + 2] as int) + 16777216 * (b[at + 3] as int)
  }

  predicate AllU32(xs: seq<nat>) {
    forall i :: 0 <= i < |xs| ==> xs[i] < TWO32
  }

  function EncodeIndices(xs: seq<nat>): (r: bytes)
    requires AllU32(xs)
    ensures |r| == 4 * |xs|
  {
    if xs == [] then [] else U32Le(xs[0]) + EncodeIndices(xs[1..])
  }

  /** Any trailing partial word is ignored, as the source's length / 4 does. */
  function DecodeIndices(b: bytes): seq<nat> {
    if |b| < 4 then [] else [ReadU32Le(b, 0)] + DecodeIndices(b[4..])
  }

  lemma {:induction false} IndicesRoundTrip(xs: seq<nat>)
    requires AllU32(xs)
    ensures DecodeIndices(EncodeIndices(xs)) == xs
  {
    if xs != [] {
      IndicesRoundTrip(xs[1..]);
      WordReadsBack(xs[0], EncodeIndices(xs[1..]));
      assert EncodeIndices(xs)[4..] == EncodeIndices(xs[1..]);
    }
  }

  lemma WordReadsBack(n: nat, rest: bytes)
    requires n < TWO32
    ensures ReadU32Le(U32Le(n) + rest, 0) == n
  {
    assert n / 65536 == n / 256 / 256 && n / 16777216 == n / 65536 / 256;
  }
}
