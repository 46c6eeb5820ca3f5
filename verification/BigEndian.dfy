/**
 * The three 32-byte big-endian encoders of the repository, the decoder that belongs to them, and
 * the packing of curve points for the verifying keys.
 */
module BigEndian {
  import opened Common
  import opened Numerals

  ghost predicate Bytes(b: seq<nat>) {
    Digits(256, b)
  }

  /** The bound 2^256. */
  function Bound(): nat {
    Pow(256, 32)
  }

  /** Shifts bytes in from the left; or-ing a byte into eight zero bits adds it. */
  method BytesToBigint(arr: seq<nat>) returns (result: nat)
    requires Bytes(arr)
    ensures result == Value(256, arr)
  {
    result := 0;
    for i := 0 to |arr|
      invariant result == Value(256, arr[..i])
    {
      assert arr[..i + 1][..i] == arr[..i];
      result := result * 256 + arr[i];
    }
    assert arr[..|arr|] == arr;
  }

  /** Fills a fresh array from its last index down. */
  method BigintToBytes32(n: int) returns (bytes: array<nat>)
    ensures fresh(bytes) && bytes[..] == Fixed(256, 32, n)
  {
    bytes := new nat[32](_ => 0);
    var temp, i := n, 31;
    while i >= 0
      invariant -1 <= i <= 31
      invariant Fixed(256, i + 1, temp) + bytes[i + 1..] == Fixed(256, 32, n)
    {
      ghost var before := bytes[i + 1..];
      bytes[i] := temp % 256;
      assert bytes[i..] == [temp % 256] + before;
      assert Fixed(256, i + 1, temp) == Fixed(256, i, temp / 256) + [temp % 256];
      temp := temp / 256;
      i := i - 1;
    }
    assert bytes[..] == bytes[0..];
  }

  /** Puts every new byte in front of the list. */
  method DecToBigEndian32(n: int) returns (bytes: seq<nat>)
    ensures bytes == Fixed(256, 32, n)
  {
    bytes := [];
    var val := n;
    for i := 0 to 32
      invariant Fixed(256, 32 - i, val) + bytes == Fixed(256, 32, n)
    {
      assert Fixed(256, 32 - i, val) == Fixed(256, 31 - i, val / 256) + [val % 256];
      bytes := [val % 256] + bytes;
      val := val / 256;
    }
  }

  // ----- the hexadecimal route -----

  function HexChar(d: nat): char
    requires d < 16
  {
    "0123456789abcdef"[d]
  }

  function ParseHexChar(c: char): nat {
    if '0' <= c <= '9' then (c - '0') as nat else if 'a' <= c <= 'f' then 10 + (c - 'a') as nat else 0
  }

  function HexText(ds: seq<nat>): string
    requires forall i :: 0 <= i < |ds| ==> ds[i] < 16
  {
    seq(|ds|, i requires 0 <= i < |ds| => HexChar(ds[i]))
  }

  /** The digits that toString(16) prints: zero prints as one digit. */
  function HexDigits(n: nat): (ds: seq<nat>)
    ensures Digits(16, ds) && |ds| >= 1
  {
    MinimalFacts(16, n);
    if n == 0 then [0] else Minimal(16, n)
  }

  function PadStart(s: string, width: nat): string {
    if |s| >= width then s else seq(width - |s|, i => '0') + s
  }

  function ParseHex(text: string): seq<nat> {
    seq(|text|, i requires 0 <= i < |text| => ParseHexChar(text[i]))
  }

  /** Two digits make a byte; a last digit on its own is a byte too. */
  function Chunks(ds: seq<nat>): seq<nat> {
    if |ds| % 2 == 0 then Pairs(ds) else Pairs(ds[..|ds| - 1]) + [ds[|ds| - 1]]
  }

  function HexBytes(n: nat, length: nat): seq<nat> {
    Chunks(ParseHex(PadStart(HexText(HexDigits(n)), 2 * length)))
  }

  method PushPairs(hex: string) returns (bytes: seq<nat>)
    ensures bytes == Chunks(ParseHex(hex))
  {
    ghost var ds := ParseHex(hex);
    bytes := [];
    var i := 0;
    while i < |hex|
      invariant 0 <= i <= |hex| + 1
      invariant i <= |hex| ==> i % 2 == 0 && bytes == Pairs(ds[..i])
      invariant i > |hex| ==> bytes == Chunks(ds)
    {
      if i + 1 < |hex| {
        assert ds[..i + 2][..i] == ds[..i];
        bytes := bytes + [16 * ParseHexChar(hex[i]) + ParseHexChar(hex[i + 1])];
      } else {
        bytes := bytes + [ParseHexChar(hex[i])];
      }
      i := i + 2;
    }
    assert ds[..|hex|] == ds;
  }

  method ToBigEndianBytes(n: nat, length: nat) returns (bytes: seq<nat>)
    ensures bytes == HexBytes(n, length)
  {
    var hex := PadStart(HexText(HexDigits(n)), 2 * length);
    bytes := PushPairs(hex);
  }

  lemma HexCharParses(d: nat)
    requires d < 16
    ensures ParseHexChar(HexChar(d)) == d
  {
  }

  lemma HexTextParses(ds: seq<nat>)
    requires Digits(16, ds)
    ensures ParseHex(HexText(ds)) == ds
  {
    forall i | 0 <= i < |ds| ensures ParseHex(HexText(ds))[i] == ds[i] {
      HexCharParses(ds[i]);
    }
  }

  lemma PaddedHexParses(ds: seq<nat>, width: nat)
    requires Digits(16, ds)
    ensures ParseHex(PadStart(HexText(ds), width)) == Zeros(Max(0, width - |ds|)) + ds
  {
    HexTextParses(ds);
    var text := HexText(ds);
    forall i | 0 <= i < |PadStart(text, width)|
      ensures ParseHex(PadStart(text, width))[i] == (Zeros(Max(0, width - |ds|)) + ds)[i]
    {
      if i >= Max(0, width - |ds|) {
        assert ParseHex(text)[i - Max(0, width - |ds|)] == ds[i - Max(0, width - |ds|)];
      }
    }
  }

  lemma {:induction false} PairsLength(ds: seq<nat>)
    requires |ds| % 2 == 0
    ensures 2 * |Pairs(ds)| == |ds|
    decreases |ds|
  {
    if ds != [] {
      PairsLength(ds[..|ds| - 2]);
    }
  }

  lemma PaddedDigits(n: nat, width: nat)
    requires width >= 1 && n < Pow(16, width)
    ensures |HexDigits(n)| <= width
    ensures Zeros(width - |HexDigits(n)|) + HexDigits(n) == Fixed(16, width, n)
  {
    PaddedMinimal(16, width, n);
    hide Pow, Fixed;
    if n == 0 {
      assert Zeros(width) + [] == Zeros(width - 1) + [0];
    }
  }

  lemma HexFits(n: nat, length: nat)
    requires length >= 1 && n < Pow(256, length)
    ensures HexBytes(n, length) == Fixed(256, length, n)
  {
    hide Pow, Fixed, HexDigits, PadStart, HexText, ParseHex, Pairs, Zeros;
    PowHex(length);
    PaddedDigits(n, 2 * length);
    PaddedHexParses(HexDigits(n), 2 * length);
    PairsFixed(length, n);
    assert ParseHex(PadStart(HexText(HexDigits(n)), 2 * length)) == Fixed(16, 2 * length, n);
  }

  lemma HexTooLong(n: nat, length: nat)
    requires length >= 1 && n >= Pow(256, length)
    ensures |HexBytes(n, length)| > length
  {
    var ds, width := HexDigits(n), 2 * length;
    PaddedHexParses(ds, width);
    PowHex(length);
    MinimalLength(16, width, n);
    PowPositive(256, length);
    hide Pow;
    assert Zeros(0) + ds == ds;
    PairsLength(if |ds| % 2 == 0 then ds else ds[..|ds| - 1]);
  }

  /**
   * The hexadecimal encoder gives the same bytes as the shifting encoders exactly when the number
   * fits; a larger number comes out too long, never truncated.
   */
  lemma HexEncoderAgrees(n: nat, length: nat)
    requires length >= 1
    ensures HexBytes(n, length) == Fixed(256, length, n) <==> n < Pow(256, length)
    ensures n < Pow(256, length) <==> |HexBytes(n, length)| == length
  {
    hide Pow, HexBytes;
    FixedFacts(256, length, n);
    if n < Pow(256, length) {
      HexFits(n, length);
    } else {
      HexTooLong(n, length);
    }
  }

  /** The shifting encoders keep a number modulo 2^256. */
  lemma EncodersWrap(n: nat)
    ensures Bound() > 0 && Value(256, Fixed(256, 32, n)) == n % Bound()
  {
    FixedWraps(256, 32, n);
    hide Pow, Fixed;
  }

  /** For every number below 2^256 the three encoders write the same 32 bytes, and decoding reads it back. */
  lemma EncodersAgree(n: nat)
    requires n < Bound()
    ensures HexBytes(n, 32) == Fixed(256, 32, n)
    ensures Bytes(Fixed(256, 32, n)) && Value(256, Fixed(256, 32, n)) == n
  {
    hide Pow;
    HexEncoderAgrees(n, 32);
    FixedFacts(256, 32, n);
    FixedValue(256, 32, n);
  }

  /** Decoding 32 bytes and encoding the number gives the bytes back. */
  lemma DecodeThenEncode(b: seq<nat>)
    requires Bytes(b) && |b| == 32
    ensures Value(256, b) < Bound() && Fixed(256, 32, Value(256, b)) == b
  {
    hide Pow;
    ValueBound(256, b);
    ValueFixed(256, b);
  }

  // ----- curve points -----

  datatype G1 = G1(x: nat, y: nat)
  datatype G2 = G2(x0: nat, x1: nat, y0: nat, y1: nat)

  predicate FitsG1(p: G1) {
    p.x < Bound() && p.y < Bound()
  }

  predicate FitsG2(p: G2) {
    p.x0 < Bound() && p.x1 < Bound() && p.y0 < Bound() && p.y1 < Bound()
  }

  /** g1ToBytes: x then y, by the unshift loop. */
  function G1ToBytes(p: G1): seq<nat> {
    Fixed(256, 32, p.x) + Fixed(256, 32, p.y)
  }

  /** g2ToBytes: the second component of each coordinate first. */
  function G2ToBytes(p: G2): seq<nat> {
    Fixed(256, 32, p.x1) + Fixed(256, 32, p.x0) + Fixed(256, 32, p.y1) + Fixed(256, 32, p.y0)
  }

  /** g1ToSolana and g2ToSolana: the same layout by the hexadecimal encoder. */
  function G1ToSolana(p: G1): seq<nat> {
    HexBytes(p.x, 32) + HexBytes(p.y, 32)
  }

  function G2ToSolana(p: G2): seq<nat> {
    HexBytes(p.x1, 32) + HexBytes(p.x0, 32) + HexBytes(p.y1, 32) + HexBytes(p.y0, 32)
  }

  /** The coordinate at the k-th 32-byte slot of a packed point. */
  function Slot(bytes: seq<nat>, k: nat): nat
    requires 32 * k + 32 <= |bytes|
  {
    Value(256, bytes[32 * k..32 * k + 32])
  }

  function UnpackG1(bytes: seq<nat>): G1
    requires |bytes| == 64
  {
    G1(Slot(bytes, 0), Slot(bytes, 1))
  }

  function UnpackG2(bytes: seq<nat>): G2
    requires |bytes| == 128
  {
    G2(Slot(bytes, 1), Slot(bytes, 0), Slot(bytes, 3), Slot(bytes, 2))
  }

  lemma FourSlots(a: seq<nat>, b: seq<nat>, c: seq<nat>, d: seq<nat>)
    requires |a| == |b| == |c| == |d| == 32
    ensures var s := a + b + c + d;
      |s| == 128 && s[0..32] == a && s[32..64] == b && s[64..96] == c && s[96..128] == d
  {
  }

  /** Both exporters write the same 64 bytes, which determine the point. */
  lemma G1Packing(p: G1)
    requires FitsG1(p)
    ensures |G1ToBytes(p)| == 64 && G1ToSolana(p) == G1ToBytes(p) && UnpackG1(G1ToBytes(p)) == p
    ensures Value(256, G1ToBytes(p)[..32]) == p.x && Value(256, G1ToBytes(p)[32..]) == p.y
  {
    hide Fixed, HexBytes, Value, Bound;
    EncodersAgree(p.x);
    EncodersAgree(p.y);
    FixedFacts(256, 32, p.x);
    FixedFacts(256, 32, p.y);
    assert G1ToBytes(p)[0..32] == Fixed(256, 32, p.x);
    assert G1ToBytes(p)[32..64] == Fixed(256, 32, p.y);
    assert G1ToBytes(p)[..32] == G1ToBytes(p)[0..32] && G1ToBytes(p)[32..] == G1ToBytes(p)[32..64];
  }

  /** Both exporters write the same 128 bytes, which determine the point. */
  lemma G2Packing(p: G2)
    requires FitsG2(p)
    ensures |G2ToBytes(p)| == 128 && G2ToSolana(p) == G2ToBytes(p) && UnpackG2(G2ToBytes(p)) == p
    ensures Value(256, G2ToBytes(p)[0..32]) == p.x1 && Value(256, G2ToBytes(p)[32..64]) == p.x0
    ensures Value(256, G2ToBytes(p)[64..96]) == p.y1 && Value(256, G2ToBytes(p)[96..128]) == p.y0
  {
    hide Fixed, HexBytes, Value, Bound;
    EncodersAgree(p.x0);
    EncodersAgree(p.x1);
    EncodersAgree(p.y0);
    EncodersAgree(p.y1);
    FixedFacts(256, 32, p.x0);
    FixedFacts(256, 32, p.x1);
    FixedFacts(256, 32, p.y0);
    FixedFacts(256, 32, p.y1);
    FourSlots(Fixed(256, 32, p.x1), Fixed(256, 32, p.x0), Fixed(256, 32, p.y1), Fixed(256, 32, p.y0));
  }
}
