/**
 * The wire encoding of file bytes (apps/kernel/src/lib.rs): section 4 of RFC 4648, decoded with a
 * 32-bit accumulator that lets its high bits fall off.
 */
module Base64 {
  import opened Prelude

  const TWO32: nat := 0x1_0000_0000

  type sextet = x: int | 0 <= x < 64

  /** B64_ALPHABET */
  function Symbol(v: sextet): byte {
    if v < 26 then 65 + v
    else if v < 52 then 97 + (v - 26)
    else if v < 62 then 48 + (v - 52)
    else if v == 62 then 43 else 47
  }

  const UPPER: string := "ABCDEFGHIJKLMNOPQRSTUVWXYZ"
  const LOWER: string := "abcdefghijklmnopqrstuvwxyz"
  const DIGITS: string := "0123456789"

  /** The alphabet of table 1 in section 4 of RFC 4648. */
  const ALPHABET: string := UPPER + LOWER + DIGITS + "+/"

  /** The symbol of each value is the one the table lists. */
  lemma SymbolIsListed(v: sextet)
    ensures |ALPHABET| == 64 && Symbol(v) == ALPHABET[v] as int
  {
  }

  function Value(c: byte): Option<sextet> {
    if 65 <= c <= 90 then Some(c - 65)
    else if 97 <= c <= 122 then Some(c - 97 + 26)
    else if 48 <= c <= 57 then Some(c - 48 + 52)
    else if c == 43 then Some(62)
    else if c == 47 then Some(63)
    else None
  }

  const PAD: byte := 61

  /** '=' and the five ASCII whitespace bytes are skipped wherever they stand. */
  predicate Skipped(c: byte) {
    c == PAD || c == 32 || c == 9 || c == 10 || c == 12 || c == 13
  }

  // ---- encoding ------------------------------------------------------------------------------

  /** One group: up to three bytes as four symbols. */
  function EncodeGroup(b: bytes): (r: bytes)
    requires 1 <= |b| <= 3
    ensures |r| == 4
  {
    var b1 := if |b| > 1 then b[1] as int else 0;
    var b2 := if |b| > 2 then b[2] as int else 0;
    var n := (b[0] as int) * 65536 + b1 * 256 + b2;
    [Symbol(n / 262144 % 64), Symbol(n / 4096 % 64),
     if |b| > 1 then Symbol(n / 64 % 64) else PAD,
     if |b| > 2 then Symbol(n % 64) else PAD]
  }

  function Encode(b: bytes): (r: bytes)
    ensures |r| == 4 * ((|b| + 2) / 3)
  {
    if b == [] then []
    else if |b| <= 3 then EncodeGroup(b)
    else EncodeGroup(b[..3]) + Encode(b[3..])
  }

  // ---- decoding ------------------------------------------------------------------------------

  /** The numbers of bits that can be pending between two symbols. */
  predicate PendingCount(nbits: nat) {
    nbits == 0 || nbits == 2 || nbits == 4 || nbits == 6
  }

  /** 2^nbits */
  function Pow(nbits: nat): nat
    requires PendingCount(nbits)
  {
    if nbits == 0 then 1 else if nbits == 2 then 4 else if nbits == 4 then 16 else 64
  }

  /** (acc << 6) | v on 32 bits */
  function Shift6(acc: nat, v: sextet): (r: nat)
    requires acc < TWO32
    ensures r < TWO32
  {
    acc * 64 % TWO32 + v
  }

  /** The loop of b64_decode from one byte on. */
  function DecodeFrom(s: bytes, acc: nat, nbits: nat): Option<bytes>
    requires acc < TWO32 && PendingCount(nbits)
  {
    if s == [] then Some([])
    else if Skipped(s[0]) then DecodeFrom(s[1..], acc, nbits)
    else match Value(s[0])
      case None => None
      case Some(v) =>
        var acc' := Shift6(acc, v);
        if nbits + 6 >= 8 then
          var left := nbits + 6 - 8;
          match DecodeFrom(s[1..], acc', left)
          case None => None
          case Some(rest) => Some([acc' / Pow(left) % 256] + rest)
        else DecodeFrom(s[1..], acc', nbits + 6)
  }

  function Decode(s: bytes): Option<bytes> {
    DecodeFrom(s, 0, 0)
  }

  /** b64_encode */
  method EncodeBytes(b: bytes) returns (out: bytes)
    ensures out == Encode(b)
    ensures |out| == 4 * ((|b| + 2) / 3)
    ensures Decode(out) == Some(b)
  {
    hide EncodeGroup, Decode;
    out := [];
    var at := 0;
    while at < |b|
      invariant 0 <= at <= |b|
      invariant Encode(b) == out + Encode(b[at..])
    {
      var end := Min(at + 3, |b|);
      var group := b[at..end];
      assert b[at..][..end - at] == group && b[at..][end - at..] == b[end..];
      if |b[at..]| <= 3 { assert b[end..] == [] && b[at..] == group; }
      out := out + EncodeGroup(group);
      at := end;
    }
    assert b[at..] == [];
    RoundTrip(b);
  }

  /** b64_decode */
  method DecodeBytes(s: bytes) returns (r: Option<bytes>)
    ensures r == Decode(s)
  {
    var acc: nat, nbits: nat := 0, 0;
    var out: bytes := [];
    assert s[0..] == s && forall t: bytes :: out + t == t;
    for i := 0 to |s|
      invariant acc < TWO32 && PendingCount(nbits)
      invariant Decode(s) == var rest := DecodeFrom(s[i..], acc, nbits);
                             if rest.None? then None else Some(out + rest.value)
    {
      var c := s[i];
      assert s[i..][1..] == s[i + 1..];
      if Skipped(c) { continue; }
      var v := Value(c);
      if v.None? { return None; }
      ghost var before := DecodeFrom(s[i..], acc, nbits);
      acc := acc * 64 % TWO32 + v.value;
      nbits := nbits + 6;
      if nbits >= 8 {
        nbits := nbits - 8;
        ghost var rest := DecodeFrom(s[i + 1..], acc, nbits);
        var o: byte := acc / Pow(nbits) % 256;
        assert rest.Some? ==> out + ([o] + rest.value) == (out + [o]) + rest.value;
        out := out + [o];
      }
    }
    assert s[|s|..] == [] && out + [] == out;
    r := Some(out);
  }

  // ---- only the pending bits matter ----------------------------------------------------------

  /** Shifting keeps the low 26 bits, so the new accumulator is 64 r + v with r = a mod 2^26. */
  lemma ShiftIs(a: nat, v: sextet) returns (r: nat)
    requires a < TWO32
    ensures r == a % 0x400_0000 && Shift6(a, v) == 64 * r + v
    ensures r % 4 == a % 4 && r % 16 == a % 16 && r % 64 == a % 64
  {
    r := a % 0x400_0000;
    Wraps(a / 0x400_0000, r);
  }

  lemma Wraps(q: nat, r: nat)
    requires r < 0x400_0000
    ensures (0x400_0000 * q + r) * 64 % TWO32 == 64 * r
    ensures var a := 0x400_0000 * q + r; a % 4 == r % 4 && a % 16 == r % 16 && a % 64 == r % 64
  {
    Wraps32(q, 64 * r);
    LowBits64(0x400_0000 * q + r, 0x10_0000 * q, r);
  }

  lemma Wraps32(q: nat, r: nat)
    requires r < TWO32
    ensures (TWO32 * q + r) % TWO32 == r
  {
  }

  lemma LowBits64(a: nat, q: nat, r: nat)
    requires a == 64 * q + r
    ensures a % 64 == r % 64 && a % 16 == r % 16 && a % 4 == r % 4
  {
    assert 64 * q + r == 64 * (q + r / 64) + r % 64;
    Remainder(q + r / 64, r % 64);
    LowBits16(a, 4 * q, r);
  }

  lemma LowBits16(a: nat, q: nat, r: nat)
    requires a == 16 * q + r
    ensures a % 16 == r % 16 && a % 4 == r % 4
  {
    LowBits4(a, 4 * q, r);
    assert a == 16 * (q + r / 16) + r % 16;
  }

  lemma LowBits4(a: nat, q: nat, r: nat)
    requires a == 4 * q + r
    ensures a % 4 == r % 4
  {
  }

  lemma Emit4(r: nat, v: sextet)
    ensures (64 * r + v) / 4 % 256 == 16 * (r % 16) + v / 4 && (64 * r + v) % 4 == v % 4
  {
    assert 64 * r + v == 4 * (16 * r + v / 4) + v % 4;
    assert 16 * r + v / 4 == 256 * (r / 16) + (16 * (r % 16) + v / 4);
  }

  lemma Emit6(r: nat, v: sextet)
    ensures (64 * r + v) / 16 % 256 == 4 * (r % 64) + v / 16 && (64 * r + v) % 16 == v % 16
  {
    assert 64 * r + v == 16 * (4 * r + v / 16) + v % 16;
    assert 4 * r + v / 16 == 256 * (r / 64) + (4 * (r % 64) + v / 16);
  }

  lemma Emit2(r: nat, v: sextet)
    ensures (64 * r + v) % 256 == 64 * (r % 4) + v
  {
    assert 64 * r + v == 256 * (r / 4) + (64 * (r % 4) + v);
  }

  /** What a symbol emits and leaves pending, from the pending bits alone. */
  lemma ShiftPending(a: nat, nbits: nat, v: sextet)
    requires a < TWO32 && PendingCount(nbits)
    ensures nbits == 0 ==> Shift6(a, v) % 64 == v
    ensures nbits == 2 ==> Shift6(a, v) / 1 % 256 == 64 * (a % 4) + v
    ensures nbits == 4 ==> Shift6(a, v) / 4 % 256 == 16 * (a % 16) + v / 4 && Shift6(a, v) % 4 == v % 4
    ensures nbits == 6 ==> Shift6(a, v) / 16 % 256 == 4 * (a % 64) + v / 16 && Shift6(a, v) % 16 == v % 16
  {
    var r := ShiftIs(a, v);
    if nbits == 2 { Emit2(r, v); }
    else if nbits == 4 { Emit4(r, v); }
    else if nbits == 6 { Emit6(r, v); }
  }

  /**
   * The decoder by the standard's bit stream: p holds just the nbits bits not yet emitted, and
   * each symbol either completes a byte or becomes the pending bits.
   */
  function DecodeBits(s: bytes, p: nat, nbits: nat): Option<bytes>
    requires PendingCount(nbits) && p < Pow(nbits)
  {
    if s == [] then Some([])
    else if Skipped(s[0]) then DecodeBits(s[1..], p, nbits)
    else match Value(s[0])
      case None => None
      case Some(v) =>
        if nbits == 0 then DecodeBits(s[1..], v, 6)
        else if nbits == 6 then Emit(4 * p + v / 16, DecodeBits(s[1..], v % 16, 4))
        else if nbits == 4 then Emit(16 * p + v / 4, DecodeBits(s[1..], v % 4, 2))
        else Emit(64 * p + v, DecodeBits(s[1..], 0, 0))
  }

  function Emit(b: byte, rest: Option<bytes>): Option<bytes> {
    match rest case None => None case Some(r) => Some([b] + r)
  }

  /** Bits above the pending ones never reach the output, so losing them loses nothing. */
  lemma {:induction false} AccumulatorRefinesBits(s: bytes, acc: nat, nbits: nat)
    requires acc < TWO32 && PendingCount(nbits)
    ensures DecodeFrom(s, acc, nbits) == DecodeBits(s, acc % Pow(nbits), nbits)
  {
    if s == [] {
    } else if Skipped(s[0]) {
      AccumulatorRefinesBits(s[1..], acc, nbits);
    } else if Value(s[0]).Some? {
      var v := Value(s[0]).value;
      ShiftPending(acc, nbits, v);
      AccumulatorRefinesBits(s[1..], Shift6(acc, v), if nbits >= 2 then nbits - 2 else nbits + 6);
    }
  }

  // ---- the round trip ------------------------------------------------------------------------

  lemma SymbolsRoundTrip(v: sextet)
    ensures Value(Symbol(v)) == Some(v) && !Skipped(Symbol(v))
  {
  }

  /** The four sextets of a group hold its three bytes. */
  lemma GroupBits(b0: byte, b1: byte, b2: byte)
    ensures var n := (b0 as int) * 65536 + (b1 as int) * 256 + b2 as int;
      && n / 262144 % 64 == b0 / 4 && n / 4096 % 64 == 16 * (b0 % 4) + b1 / 16
      && n / 64 % 64 == 4 * (b1 % 16) + b2 / 64 && n % 64 == b2 % 64
  {
    HighBits(b0, 256 * b1 as int + b2 as int);
    MiddleBits(b0, b1, b2);
    LowBits(b0, b1, b2);
  }

  lemma HighBits(x: nat, low: nat)
    requires x < 256 && low < 65536
    ensures (x * 65536 + low) / 262144 % 64 == x / 4
  {
    assert x * 65536 + low == 262144 * (x / 4) + (65536 * (x % 4) + low);
  }

  lemma MiddleBits(x: nat, y: nat, z: nat)
    requires x < 256 && y < 256 && z < 256
    ensures (x * 65536 + y * 256 + z) / 4096 % 64 == 16 * (x % 4) + y / 16
  {
    assert x * 65536 + y * 256 + z == 4096 * (16 * x + y / 16) + (256 * (y % 16) + z);
    assert 16 * x + y / 16 == 64 * (x / 4) + (16 * (x % 4) + y / 16);
  }

  lemma LowBits(x: nat, y: nat, z: nat)
    requires x < 256 && y < 256 && z < 256
    ensures var n := x * 65536 + y * 256 + z; n / 64 % 64 == 4 * (y % 16) + z / 64 && n % 64 == z % 64
  {
    var n, q := x * 65536 + y * 256 + z, 1024 * x + 4 * y + z / 64;
    assert n == 64 * q + z % 64;
    assert n / 64 == q && n % 64 == z % 64;
    LowQuotient(x, y, z / 64);
  }

  lemma LowQuotient(x: nat, y: nat, w: nat)
    requires y < 256 && w < 4
    ensures (1024 * x + 4 * y + w) % 64 == 4 * (y % 16) + w
  {
    assert 1024 * x + 4 * y + w == 64 * (16 * x + y / 16) + (4 * (y % 16) + w);
    Remainder(16 * x + y / 16, 4 * (y % 16) + w);
  }

  lemma Remainder(q: nat, r: nat)
    requires r < 64
    ensures (64 * q + r) % 64 == r
  {
  }

  lemma FirstSymbols(s: bytes, v0: sextet, v1: sextet)
    requires |s| >= 2 && s[0] == Symbol(v0) && s[1] == Symbol(v1)
    ensures DecodeBits(s, 0, 0) == Emit(4 * v0 + v1 / 16, DecodeBits(s[2..], v1 % 16, 4))
  {
    SymbolsRoundTrip(v0);
    SymbolsRoundTrip(v1);
    assert s[1..][1..] == s[2..];
    assert DecodeBits(s, 0, 0) == DecodeBits(s[1..], v0, 6);
  }

  lemma LastSymbols(s: bytes, p: nat, v2: sextet, v3: sextet)
    requires p < 16 && |s| >= 2 && s[0] == Symbol(v2) && s[1] == Symbol(v3)
    ensures DecodeBits(s, p, 4) == Emit(16 * p + v2 / 4, Emit(64 * (v2 % 4) + v3, DecodeBits(s[2..], 0, 0)))
  {
    SymbolsRoundTrip(v2);
    SymbolsRoundTrip(v3);
    assert s[1..][1..] == s[2..];
  }

  lemma PaddingEnds(p: nat, nbits: nat)
    requires PendingCount(nbits) && p < Pow(nbits)
    ensures DecodeBits([PAD], p, nbits) == Some([]) && DecodeBits([PAD, PAD], p, nbits) == Some([])
  {
    assert [PAD][1..] == [] && [PAD, PAD][1..] == [PAD];
    assert DecodeBits([], p, nbits) == Some([]);
  }

  lemma TwoByteGroup(s: bytes, v0: sextet, v1: sextet, v2: sextet)
    requires s == [Symbol(v0), Symbol(v1), Symbol(v2), PAD]
    ensures DecodeBits(s, 0, 0) == Some([4 * v0 + v1 / 16, 16 * (v1 % 16) + v2 / 4])
  {
    FirstSymbols(s, v0, v1);
    SymbolsRoundTrip(v2);
    PaddingEnds(v2 % 4, 2);
    var t := s[2..];
    assert t[0] == Symbol(v2) && t[1..] == [PAD];
    var last: byte := 16 * (v1 % 16) + v2 / 4;
    assert DecodeBits(t, v1 % 16, 4) == Emit(last, Some([]));
    assert [last] + [] == [last];
    var first: byte := 4 * v0 + v1 / 16;
    assert [first] + [last] == [first, last];
  }

  lemma OneByteGroup(s: bytes, v0: sextet, v1: sextet)
    requires s == [Symbol(v0), Symbol(v1), PAD, PAD]
    ensures DecodeBits(s, 0, 0) == Some([4 * v0 + v1 / 16])
  {
    FirstSymbols(s, v0, v1);
    PaddingEnds(v1 % 16, 4);
    assert s[2..] == [PAD, PAD];
    var first: byte := 4 * v0 + v1 / 16;
    assert [first] + [] == [first];
  }

  lemma ThreeByteGroup(s: bytes, v0: sextet, v1: sextet, v2: sextet, v3: sextet, rest: Option<bytes>)
    requires |s| >= 4 && rest == DecodeBits(s[4..], 0, 0)
    requires s[0] == Symbol(v0) && s[1] == Symbol(v1) && s[2] == Symbol(v2) && s[3] == Symbol(v3)
    ensures DecodeBits(s, 0, 0)
         == Emit(4 * v0 + v1 / 16, Emit(16 * (v1 % 16) + v2 / 4, Emit(64 * (v2 % 4) + v3, rest)))
  {
    FirstSymbols(s, v0, v1);
    LastSymbols(s[2..], v1 % 16, v2, v3);
    assert s[2..][2..] == s[4..];
  }

  /** The symbols of a group, and the bytes their bits spell. */
  lemma GroupSymbols(b: bytes) returns (v0: sextet, v1: sextet, v2: sextet, v3: sextet)
    requires 1 <= |b| <= 3
    ensures EncodeGroup(b) == [Symbol(v0), Symbol(v1), if |b| > 1 then Symbol(v2) else PAD,
                               if |b| > 2 then Symbol(v3) else PAD]
    ensures 4 * v0 + v1 / 16 == b[0]
    ensures |b| > 1 ==> 16 * (v1 % 16) + v2 / 4 == b[1]
    ensures |b| > 2 ==> 64 * (v2 % 4) + v3 == b[2]
  {
    var b0, b1, b2 := b[0] as int, if |b| > 1 then b[1] as int else 0, if |b| > 2 then b[2] as int else 0;
    GroupBits(b0, b1, b2);
    v0, v1, v2, v3 := b0 / 4, 16 * (b0 % 4) + b1 / 16, 4 * (b1 % 16) + b2 / 64, b2 % 64;
  }

  lemma WholeGroupDecodes(b: bytes, rest: bytes, r: Option<bytes>)
    requires |b| == 3 && r == DecodeBits(rest, 0, 0)
    ensures DecodeBits(EncodeGroup(b) + rest, 0, 0) == if r.None? then None else Some(b + r.value)
  {
    var v0, v1, v2, v3 := GroupSymbols(b);
    hide DecodeBits, EncodeGroup, Symbol, Value;
    var g := EncodeGroup(b);
    assert (g + rest)[4..] == rest && b == [b[0], b[1], b[2]];
    ThreeByteGroup(g + rest, v0, v1, v2, v3, r);
    if r.Some? { assert [b[0]] + ([b[1]] + ([b[2]] + r.value)) == b + r.value; }
  }

  lemma LastGroupDecodes(b: bytes)
    requires 1 <= |b| < 3
    ensures DecodeBits(EncodeGroup(b), 0, 0) == Some(b)
  {
    var v0, v1, v2, v3 := GroupSymbols(b);
    hide DecodeBits, EncodeGroup, Symbol, Value;
    if |b| == 1 {
      OneByteGroup(EncodeGroup(b), v0, v1);
      assert b == [b[0]];
    } else {
      TwoByteGroup(EncodeGroup(b), v0, v1, v2);
      assert b == [b[0], b[1]];
    }
  }

  lemma GroupDecodes(b: bytes, rest: bytes)
    requires 1 <= |b| <= 3 && (|b| < 3 ==> rest == [])
    ensures DecodeBits(EncodeGroup(b) + rest, 0, 0)
         == var r := DecodeBits(rest, 0, 0); if r.None? then None else Some(b + r.value)
  {
    if |b| == 3 {
      WholeGroupDecodes(b, rest, DecodeBits(rest, 0, 0));
    } else {
      LastGroupDecodes(b);
      assert EncodeGroup(b) + rest == EncodeGroup(b) && b + [] == b;
    }
  }

  lemma {:induction false} BitsRoundTrip(b: bytes)
    ensures DecodeBits(Encode(b), 0, 0) == Some(b)
  {
    if b == [] {
    } else if |b| <= 3 {
      GroupDecodes(b, []);
      assert EncodeGroup(b) + [] == EncodeGroup(b) && b + [] == b;
    } else {
      GroupDecodes(b[..3], Encode(b[3..]));
      BitsRoundTrip(b[3..]);
      assert b[..3] + b[3..] == b;
    }
  }

  /** Decoding an encoding gives back the bytes, for every byte string. */
  lemma RoundTrip(b: bytes)
    ensures Decode(Encode(b)) == Some(b)
  {
    AccumulatorRefinesBits(Encode(b), 0, 0);
    BitsRoundTrip(b);
  }

  // ---- what decoding ignores and what it refuses ---------------------------------------------

  function Significant(s: bytes): bytes {
    if s == [] then [] else (if Skipped(s[0]) then [] else [s[0]]) + Significant(s[1..])
  }

  /** Padding and whitespace can stand anywhere, or nowhere, without changing the result. */
  lemma {:induction false} IgnoresSkipped(s: bytes, acc: nat, nbits: nat)
    requires acc < TWO32 && PendingCount(nbits)
    ensures DecodeFrom(s, acc, nbits) == DecodeFrom(Significant(s), acc, nbits)
  {
    if s == [] {
    } else if Skipped(s[0]) {
      IgnoresSkipped(s[1..], acc, nbits);
      assert Significant(s) == Significant(s[1..]);
    } else {
      assert Significant(s)[1..] == Significant(s[1..]);
      if Value(s[0]).Some? {
        var v := Value(s[0]).value;
        IgnoresSkipped(s[1..], Shift6(acc, v), if nbits >= 2 then nbits - 2 else nbits + 6);
      }
    }
  }

  /** The bytes that are passed over: the padding and the white space of ASCII. */
  lemma SkippedAre(c: byte)
    ensures Skipped(c) <==> c == '=' as int || c in {9, 10, 12, 13, 32}
    ensures Skipped(c) ==> Value(c).None?
  {
  }

  /** A string is refused exactly when some byte is neither skipped nor in the alphabet. */
  lemma {:induction false} RefusesExactly(s: bytes, acc: nat, nbits: nat)
    requires acc < TWO32 && PendingCount(nbits)
    ensures DecodeFrom(s, acc, nbits).None? <==> exists i :: 0 <= i < |s| && !Skipped(s[i]) && Value(s[i]).None?
  {
    if s != [] {
      var tail := s[1..];
      assert forall i :: 0 < i < |s| ==> s[i] == tail[i - 1];
      if Skipped(s[0]) {
        RefusesExactly(tail, acc, nbits);
      } else if Value(s[0]).Some? {
        var v := Value(s[0]).value;
        RefusesExactly(tail, Shift6(acc, v), if nbits >= 2 then nbits - 2 else nbits + 6);
      }
      if i :| 0 <= i < |tail| && !Skipped(tail[i]) && Value(tail[i]).None? {
        assert !Skipped(s[i + 1]) && Value(s[i + 1]).None?;
      }
    }
  }
}
