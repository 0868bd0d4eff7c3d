/** Product ids as bytes32: UTF-8 text padded with zero bytes, or 32 bytes written in hexadecimal. */
module ProductIds {
  import opened Prelude

  /** A code point of a string as the programs see it; surrogates can occur. */
  type Code = c: int | 0 <= c < 0x110000

  type Byte = b: int | 0 <= b < 256

  predicate Surrogate(c: Code) {
    0xD800 <= c <= 0xDFFF
  }

  // ---- UTF-8 (RFC 3629, section 3) ----

  function EncodeOne(c: Code): seq<Byte> {
    if c < 0x80 then [c]
    else if c < 0x800 then [0xC0 + c / 64, 0x80 + c % 64]
    else if c < 0x10000 then [0xE0 + c / 4096, 0x80 + c / 64 % 64, 0x80 + c % 64]
    else [0xF0 + c / 262144, 0x80 + c / 4096 % 64, 0x80 + c / 64 % 64, 0x80 + c % 64]
  }

  function Encode(s: seq<Code>): seq<Byte> {
    if s == [] then [] else EncodeOne(s[0]) + Encode(s[1..])
  }

  predicate Tail(b: Byte) {
    0x80 <= b < 0xC0
  }

  /** Six more bits at the end of a number. */
  function Shift(high: nat, low: nat): nat {
    high * 64 + low
  }

  /** The first character of a byte string and its length, if it is well formed: shortest form, no surrogate, at most U+10FFFF. */
  function DecodeOne(b: seq<Byte>): (r: Option<(nat, nat)>)
    ensures r.Some? ==> 1 <= r.value.1 <= |b| && r.value.0 < 0x110000 && !Surrogate(r.value.0)
  {
    if b == [] then None
    else if b[0] < 0x80 then Some((b[0], 1))
    else if 0xC2 <= b[0] < 0xE0 && |b| >= 2 && Tail(b[1]) then
      Some((Shift(b[0] - 0xC0, b[1] - 0x80), 2))
    else if 0xE0 <= b[0] < 0xF0 && |b| >= 3 && Tail(b[1]) && Tail(b[2]) then
      var c := Shift(Shift(b[0] - 0xE0, b[1] - 0x80), b[2] - 0x80);
      if c < 0x800 || Surrogate(c) then None else Some((c, 3))
    else if 0xF0 <= b[0] < 0xF5 && |b| >= 4 && Tail(b[1]) && Tail(b[2]) && Tail(b[3]) then
      var c := Shift(Shift(Shift(b[0] - 0xF0, b[1] - 0x80), b[2] - 0x80), b[3] - 0x80);
      if 0x10000 <= c < 0x110000 then Some((c, 4)) else None
    else None
  }

  lemma Unshift(high: nat, low: nat)
    requires low < 64
    ensures Shift(high, low) / 64 == high && Shift(high, low) % 64 == low
  {}

  lemma Deeper(c: nat)
    ensures c / 4096 == c / 64 / 64 && c / 262144 == c / 64 / 64 / 64
    ensures Shift(c / 64, c % 64) == c
  {}

  lemma EncodeTwo(b: seq<Byte>, c: Code)
    requires |b| >= 2 && 0xC2 <= b[0] < 0xE0 && Tail(b[1]) && c == Shift(b[0] - 0xC0, b[1] - 0x80)
    ensures EncodeOne(c) == b[..2]
  {
    Unshift(b[0] - 0xC0, b[1] - 0x80);
  }

  lemma EncodeThree(b: seq<Byte>, c: Code)
    requires |b| >= 3 && 0xE0 <= b[0] < 0xF0 && Tail(b[1]) && Tail(b[2])
    requires c == Shift(Shift(b[0] - 0xE0, b[1] - 0x80), b[2] - 0x80) >= 0x800
    ensures EncodeOne(c) == b[..3]
  {
    Unshift(b[0] - 0xE0, b[1] - 0x80);
    Unshift(Shift(b[0] - 0xE0, b[1] - 0x80), b[2] - 0x80);
    Deeper(c);
  }

  lemma EncodeFour(b: seq<Byte>, c: Code)
    requires |b| >= 4 && 0xF0 <= b[0] < 0xF5 && Tail(b[1]) && Tail(b[2]) && Tail(b[3])
    requires c == Shift(Shift(Shift(b[0] - 0xF0, b[1] - 0x80), b[2] - 0x80), b[3] - 0x80) >= 0x10000
    ensures EncodeOne(c) == b[..4]
  {
    Unshift(b[0] - 0xF0, b[1] - 0x80);
    Unshift(Shift(b[0] - 0xF0, b[1] - 0x80), b[2] - 0x80);
    Unshift(Shift(Shift(b[0] - 0xF0, b[1] - 0x80), b[2] - 0x80), b[3] - 0x80);
    Deeper(c);
    Deeper(c / 64);
  }

  /** A decoded character encodes back to the bytes it was read from. */
  lemma EncodeDecodedOne(b: seq<Byte>)
    requires DecodeOne(b).Some?
    ensures EncodeOne(DecodeOne(b).value.0) == b[..DecodeOne(b).value.1]
  {
    var (c, n) := DecodeOne(b).value;
    if n == 2 { EncodeTwo(b, c); }
    if n == 3 { EncodeThree(b, c); }
    if n == 4 { EncodeFour(b, c); }
  }

  /** Strict decoding of a whole byte string. */
  function Decode(b: seq<Byte>): Option<seq<Code>>
    decreases |b|
  {
    if b == [] then Some([])
    else match DecodeOne(b)
      case None => None
      case Some(one) =>
        match Decode(b[one.1..])
        case None => None
        case Some(rest) => Some([one.0] + rest)
  }

  predicate Scalar(s: seq<Code>) {
    forall i :: 0 <= i < |s| ==> !Surrogate(s[i])
  }

  lemma DecodeTwo(c: Code, rest: seq<Byte>)
    requires 0x80 <= c < 0x800
    ensures DecodeOne(EncodeOne(c) + rest) == Some((c, 2))
  {
    Deeper(c);
    var b := EncodeOne(c) + rest;
    assert b[0] == 0xC0 + c / 64 && b[1] == 0x80 + c % 64;
  }

  lemma DecodeThree(c: Code, rest: seq<Byte>)
    requires 0x800 <= c < 0x10000 && !Surrogate(c)
    ensures DecodeOne(EncodeOne(c) + rest) == Some((c, 3))
  {
    Deeper(c);
    Deeper(c / 64);
    var b := EncodeOne(c) + rest;
    assert b[0] == 0xE0 + c / 4096 && b[1] == 0x80 + c / 64 % 64 && b[2] == 0x80 + c % 64;
  }

  lemma DecodeFour(c: Code, rest: seq<Byte>)
    requires 0x10000 <= c
    ensures DecodeOne(EncodeOne(c) + rest) == Some((c, 4))
  {
    Deeper(c);
    Deeper(c / 64);
    Deeper(c / 64 / 64);
    var b := EncodeOne(c) + rest;
    assert b[0] == 0xF0 + c / 262144 && b[1] == 0x80 + c / 4096 % 64 && b[2] == 0x80 + c / 64 % 64 && b[3] == 0x80 + c % 64;
  }

  lemma DecodeEncodedOne(c: Code, rest: seq<Byte>)
    requires !Surrogate(c)
    ensures DecodeOne(EncodeOne(c) + rest) == Some((c, |EncodeOne(c)|))
  {
    if c >= 0x10000 { DecodeFour(c, rest); }
    else if c >= 0x800 { DecodeThree(c, rest); }
    else if c >= 0x80 { DecodeTwo(c, rest); }
  }

  lemma DecodeStep(head: seq<Byte>, tail: seq<Byte>, c: Code, rest: seq<Code>)
    requires DecodeOne(head + tail) == Some((c, |head|)) && Decode(tail) == Some(rest)
    ensures Decode(head + tail) == Some([c] + rest)
  {
    assert (head + tail)[|head|..] == tail;
  }

  /** Decoding undoes encoding. */
  lemma {:induction false} DecodeEncode(s: seq<Code>)
    requires Scalar(s)
    ensures Decode(Encode(s)) == Some(s)
  {
    if s != [] {
      DecodeEncodedOne(s[0], Encode(s[1..]));
      DecodeEncode(s[1..]);
      DecodeStep(EncodeOne(s[0]), Encode(s[1..]), s[0], s[1..]);
      assert s == [s[0]] + s[1..];
    }
  }

  /** The first character of a well-formed byte string, and the well-formed rest. */
  lemma FirstDecoded(b: seq<Byte>) returns (c: Code, n: nat)
    requires b != [] && Decode(b).Some?
    ensures 1 <= n <= |b| && EncodeOne(c) == b[..n] && !Surrogate(c)
    ensures Decode(b[n..]).Some? && Decode(b).value == [c] + Decode(b[n..]).value
  {
    var one := DecodeOne(b).value;
    c, n := one.0, one.1;
    EncodeDecodedOne(b);
  }

  lemma EncodeStep(b: seq<Byte>, c: Code, n: nat, rest: seq<Code>)
    requires n <= |b| && EncodeOne(c) == b[..n] && Encode(rest) == b[n..] && !Surrogate(c) && Scalar(rest)
    ensures Encode([c] + rest) == b && Scalar([c] + rest)
  {
    assert ([c] + rest)[1..] == rest;
    assert b == b[..n] + b[n..];
  }

  /** Only encodings decode. */
  lemma {:induction false} EncodeDecode(b: seq<Byte>)
    ensures Decode(b).Some? ==> Encode(Decode(b).value) == b && Scalar(Decode(b).value)
    decreases |b|
  {
    if b != [] && Decode(b).Some? {
      var c, n := FirstDecoded(b);
      EncodeDecode(b[n..]);
      EncodeStep(b, c, n, Decode(b[n..]).value);
    }
  }

  lemma {:induction false} EncodeZeros(s: seq<Code>)
    ensures 0 in Encode(s) <==> 0 in s
  {
    if s != [] {
      EncodeZeros(s[1..]);
      assert s == [s[0]] + s[1..];
      assert 0 in EncodeOne(s[0]) <==> s[0] == 0;
    }
  }

  // ---- hexadecimal ----

  const ZERO_CODE: Code := 0x30
  const X_LOWER: Code := 0x78
  const X_UPPER: Code := 0x58

  function HexDigit(n: int): Code
    requires 0 <= n < 16
  {
    if n < 10 then 0x30 + n else 0x61 + n - 10
  }

  function DigitValue(c: Code): Option<int> {
    if 0x30 <= c <= 0x39 then Some(c - 0x30)
    else if 0x61 <= c <= 0x66 then Some(c - 0x61 + 10)
    else if 0x41 <= c <= 0x46 then Some(c - 0x41 + 10)
    else None
  }

  predicate IsDigit(c: Code) {
    DigitValue(c).Some?
  }

  function LowerCode(c: Code): Code {
    if 0x41 <= c <= 0x5A then c + 0x20 else c
  }

  function LowerCodes(s: seq<Code>): (r: seq<Code>)
    ensures |r| == |s| && forall i :: 0 <= i < |s| ==> r[i] == LowerCode(s[i])
  {
    if s == [] then [] else [LowerCode(s[0])] + LowerCodes(s[1..])
  }

  function ToHex(b: seq<Byte>): (r: seq<Code>)
    ensures |r| == 2 * |b|
  {
    if b == [] then [] else [HexDigit(b[0] / 16), HexDigit(b[0] % 16)] + ToHex(b[1..])
  }

  predicate AllDigits(s: seq<Code>) {
    forall i :: 0 <= i < |s| ==> IsDigit(s[i])
  }

  function FromHex(s: seq<Code>): (r: seq<Byte>)
    requires |s| % 2 == 0 && AllDigits(s)
    ensures |r| == |s| / 2
  {
    if s == [] then []
    else
      assert IsDigit(s[0]) && IsDigit(s[1]);
      [DigitValue(s[0]).value * 16 + DigitValue(s[1]).value] + FromHex(s[2..])
  }

  lemma DigitRoundTrip(c: Code)
    requires IsDigit(c)
    ensures 0 <= DigitValue(c).value < 16 && HexDigit(DigitValue(c).value) == LowerCode(c)
  {}

  lemma HexStep(b: Byte, rest: seq<Byte>)
    ensures ToHex([b] + rest) == [HexDigit(b / 16), HexDigit(b % 16)] + ToHex(rest)
  {
    assert ([b] + rest)[1..] == rest;
  }

  lemma PairOfDigits(high: int, low: int)
    requires 0 <= high < 16 && 0 <= low < 16
    ensures (high * 16 + low) / 16 == high && (high * 16 + low) % 16 == low
  {}

  /** The digits of a byte read from two digits are those digits in lower case. */
  lemma PairRoundTrip(c: Code, d: Code)
    requires IsDigit(c) && IsDigit(d)
    ensures var b := DigitValue(c).value * 16 + DigitValue(d).value;
      0 <= b < 256 && HexDigit(b / 16) == LowerCode(c) && HexDigit(b % 16) == LowerCode(d)
  {
    DigitRoundTrip(c);
    DigitRoundTrip(d);
    PairOfDigits(DigitValue(c).value, DigitValue(d).value);
  }

  lemma LowerSplit(v: seq<Code>)
    requires |v| >= 2
    ensures LowerCodes(v) == [LowerCode(v[0]), LowerCode(v[1])] + LowerCodes(v[2..])
  {}

  /** Writing parsed digits back gives them in lower case. */
  lemma {:induction false} HexLowers(s: seq<Code>)
    requires |s| % 2 == 0 && AllDigits(s)
    ensures ToHex(FromHex(s)) == LowerCodes(s)
  {
    if s != [] {
      assert IsDigit(s[0]) && IsDigit(s[1]);
      PairRoundTrip(s[0], s[1]);
      HexLowers(s[2..]);
      HexStep(DigitValue(s[0]).value * 16 + DigitValue(s[1]).value, FromHex(s[2..]));
      LowerSplit(s);
    }
  }

  lemma {:induction false} HexDigits(b: seq<Byte>)
    ensures AllDigits(ToHex(b))
  {
    if b != [] {
      HexDigits(b[1..]);
      var t := ToHex(b);
      assert t[2..] == ToHex(b[1..]);
      forall i | 0 <= i < |t| ensures IsDigit(t[i]) {
        if i >= 2 { assert t[i] == t[2..][i - 2]; }
      }
    }
  }

  lemma DigitOf(n: int)
    requires 0 <= n < 16
    ensures DigitValue(HexDigit(n)) == Some(n) && LowerCode(HexDigit(n)) == HexDigit(n)
  {}

  /** Written bytes are digits, already in lower case, and parse back to the bytes. */
  lemma {:induction false} HexRoundTrip(b: seq<Byte>)
    ensures AllDigits(ToHex(b)) && FromHex(ToHex(b)) == b && LowerCodes(ToHex(b)) == ToHex(b)
  {
    HexDigits(b);
    if b != [] {
      HexRoundTrip(b[1..]);
      DigitOf(b[0] / 16);
      DigitOf(b[0] % 16);
      var t := ToHex(b);
      assert t[2..] == ToHex(b[1..]);
      assert LowerCodes(t) == [LowerCode(t[0]), LowerCode(t[1])] + LowerCodes(t[2..]);
    }
  }

  // ---- the Python encoding ----

  predicate HexPrefix(v: seq<Code>) {
    |v| >= 2 && v[0] == ZERO_CODE && (v[1] == X_LOWER || v[1] == X_UPPER)
  }

  predicate HexId(v: seq<Code>) {
    HexPrefix(v) && |v| == 66 && AllDigits(v[2..])
  }

  function Zeros(n: nat): (r: seq<Byte>)
    ensures |r| == n && forall i :: 0 <= i < n ==> r[i] == 0
  {
    if n == 0 then [] else [0] + Zeros(n - 1)
  }

  function Nonzero(b: seq<Byte>): Result<seq<Byte>> {
    if b == Zeros(32) then Err("zero") else Ok(b)
  }

  /** `canonical_product_id`. */
  function CanonicalId(v: seq<Code>): (r: Result<seq<Byte>>)
    ensures r.Ok? ==> |r.value| == 32
  {
    if v == [] then Err("empty")
    else if HexPrefix(v) then
      if HexId(v) then Nonzero(FromHex(v[2..])) else Err("hex")
    else if !Scalar(v) then Err("unicode")
    else if |Encode(v)| > 32 || 0 in Encode(v) then Err("length")
    else Nonzero(Encode(v) + Zeros(32 - |Encode(v)|))
  }

  function Prefixed(hex: seq<Code>): seq<Code> {
    [ZERO_CODE, X_LOWER] + hex
  }

  /** `canonical_hex`. */
  function CanonicalHex(v: seq<Code>): Result<seq<Code>> {
    match CanonicalId(v)
    case Ok(b) => Ok(Prefixed(ToHex(b)))
    case Err(e) => Err(e)
  }

  lemma {:induction false} TrailingZeros(b: seq<Byte>, n: nat)
    requires 0 !in b
    ensures StripZeros(b + Zeros(n)) == b
  {
    var all := b + Zeros(n);
    if n > 0 {
      assert Zeros(n) == Zeros(n - 1) + [0];
      assert all[..|all| - 1] == b + Zeros(n - 1);
      TrailingZeros(b, n - 1);
    } else {
      assert all == b;
      if b != [] { assert b[|b| - 1] in b; }
    }
  }

  function StripZeros(b: seq<Byte>): seq<Byte> {
    if b != [] && b[|b| - 1] == 0 then StripZeros(b[..|b| - 1]) else b
  }

  lemma TextBytes(v: seq<Code>) returns (n: nat)
    requires CanonicalId(v).Ok? && !HexPrefix(v)
    ensures CanonicalId(v).value == Encode(v) + Zeros(n) && 0 !in Encode(v) && Scalar(v)
  {
    n := 32 - |Encode(v)|;
  }

  /** A text id is recovered by stripping the zero bytes and decoding. */
  lemma TextRoundTrip(v: seq<Code>)
    requires CanonicalId(v).Ok? && !HexPrefix(v)
    ensures Decode(StripZeros(CanonicalId(v).value)) == Some(v)
  {
    var n := TextBytes(v);
    TrailingZeros(Encode(v), n);
    DecodeEncode(v);
  }

  /** So two text ids never share bytes. */
  lemma TextInjective(v: seq<Code>, w: seq<Code>)
    requires CanonicalId(v).Ok? && !HexPrefix(v) && !HexPrefix(w) && CanonicalId(w) == CanonicalId(v)
    ensures v == w
  {
    TextRoundTrip(v);
    TextRoundTrip(w);
  }

  /** The bytes of any 32-byte value but zero are reached by writing them in hexadecimal. */
  lemma HexIdOf(b: seq<Byte>)
    requires |b| == 32 && b != Zeros(32)
    ensures CanonicalId(Prefixed(ToHex(b))) == Ok(b)
  {
    var v := Prefixed(ToHex(b));
    HexRoundTrip(b);
    assert v[2..] == ToHex(b);
    assert HexId(v);
    assert Nonzero(b) == Ok(b);
  }

  /** Canonical ids are their own canonical form. */
  lemma CanonicalHexIdempotent(v: seq<Code>)
    requires CanonicalHex(v).Ok?
    ensures CanonicalHex(CanonicalHex(v).value) == CanonicalHex(v)
  {
    HexIdOf(CanonicalId(v).value);
  }

  // ---- the TypeScript encoding ----

  /** `toProductBytes32`: the same id built as a hexadecimal string. */
  function ToProductBytes32(v: seq<Code>): Result<seq<Code>> {
    if v == [] then Err("empty")
    else
      var result :=
        if HexPrefix(v) then
          if |v| == 66 && AllDigits(v[2..]) then Ok(Prefixed(LowerCodes(v[2..]))) else Err("hex")
        else if exists i :: 0 <= i < |v| && (v[i] == 0 || Surrogate(v[i])) then Err("character")
        else
          var hex := Prefixed(ToHex(Encode(v)));
          if |hex| > 66 then Err("length") else Ok(PadRight(hex, 66));
      if result.Ok? && result.value == Prefixed(Digits(64)) then Err("zero") else result
  }

  function Digits(n: nat): (r: seq<Code>)
    ensures |r| == n && forall i :: 0 <= i < n ==> r[i] == ZERO_CODE
  {
    if n == 0 then [] else [ZERO_CODE] + Digits(n - 1)
  }

  function PadRight(hex: seq<Code>, n: nat): seq<Code> {
    if |hex| < n then hex + Digits(n - |hex|) else hex
  }

  lemma {:induction false} HexJoin(a: seq<Byte>, b: seq<Byte>)
    ensures ToHex(a + b) == ToHex(a) + ToHex(b)
  {
    if a == [] {
      assert a + b == b;
    } else {
      HexJoin(a[1..], b);
      HexStep(a[0], a[1..] + b);
      assert a + b == [a[0]] + (a[1..] + b);
    }
  }

  lemma {:induction false} HexZeros(n: nat)
    ensures ToHex(Zeros(n)) == Digits(2 * n)
  {
    if n > 0 {
      HexZeros(n - 1);
      assert Zeros(n)[1..] == Zeros(n - 1);
      assert Digits(2 * n) == [ZERO_CODE, ZERO_CODE] + Digits(2 * (n - 1));
    }
  }

  lemma HexInjective(a: seq<Byte>, b: seq<Byte>)
    requires ToHex(a) == ToHex(b)
    ensures a == b
  {
    HexRoundTrip(a);
    HexRoundTrip(b);
  }

  lemma ZeroHex(b: seq<Byte>)
    requires |b| == 32
    ensures Prefixed(ToHex(b)) == Prefixed(Digits(64)) <==> b == Zeros(32)
  {
    HexZeros(32);
    assert Prefixed(ToHex(b))[2..] == ToHex(b) && Prefixed(Digits(64))[2..] == Digits(64);
    if ToHex(b) == Digits(64) { HexInjective(b, Zeros(32)); }
  }

  /** The padded hexadecimal text is the hexadecimal form of the padded bytes. */
  lemma PadTo(hex: seq<Code>, n: nat, m: nat)
    requires m == |hex| + n
    ensures PadRight(hex, m) == hex + Digits(n)
  {
    if n == 0 { assert hex + Digits(0) == hex; }
  }

  lemma PaddingAgrees(e: seq<Byte>, n: nat)
    ensures PadRight(Prefixed(ToHex(e)), 2 + 2 * (|e| + n)) == Prefixed(ToHex(e + Zeros(n)))
  {
    PadTo(Prefixed(ToHex(e)), 2 * n, 2 + 2 * (|e| + n));
    HexJoin(e, Zeros(n));
    HexZeros(n);
    PrefixedJoin(ToHex(e), Digits(2 * n));
  }

  lemma PrefixedJoin(a: seq<Code>, b: seq<Code>)
    ensures Prefixed(a) + b == Prefixed(a + b)
  {}

  lemma BadCharacters(v: seq<Code>)
    ensures (exists i :: 0 <= i < |v| && (v[i] == 0 || Surrogate(v[i]))) <==> (0 in Encode(v) || !Scalar(v))
  {
    EncodeZeros(v);
  }

  lemma TextAgrees(v: seq<Code>)
    requires v != [] && !HexPrefix(v)
    ensures ToProductBytes32(v).Ok? <==> CanonicalHex(v).Ok?
    ensures CanonicalHex(v).Ok? ==> ToProductBytes32(v) == CanonicalHex(v)
  {
    BadCharacters(v);
    var e := Encode(v);
    if |e| <= 32 {
      PaddingAgrees(e, 32 - |e|);
      ZeroHex(e + Zeros(32 - |e|));
    }
  }

  lemma HexAgrees(v: seq<Code>)
    requires HexPrefix(v)
    ensures ToProductBytes32(v).Ok? <==> CanonicalHex(v).Ok?
    ensures CanonicalHex(v).Ok? ==> ToProductBytes32(v) == CanonicalHex(v)
  {
    if HexId(v) {
      HexLowers(v[2..]);
      ZeroHex(FromHex(v[2..]));
    }
  }

  /** Both implementations accept the same strings and give the same id. */
  lemma Agree(v: seq<Code>)
    ensures ToProductBytes32(v).Ok? <==> CanonicalHex(v).Ok?
    ensures CanonicalHex(v).Ok? ==> ToProductBytes32(v) == CanonicalHex(v)
  {
    if v != [] {
      if HexPrefix(v) { HexAgrees(v); } else { TextAgrees(v); }
    }
  }

  // ---- what is accepted ----

  /** The bytes of a code, as section 3 of RFC 3629 lays them out. */
  lemma EncodeOneExactly(c: Code)
    ensures var b := EncodeOne(c);
      if c < 0x80 then b == [c]
      else if c < 0x800 then |b| == 2 && 0xC0 <= b[0] < 0xE0 && Tail(b[1]) && c == (b[0] as int - 0xC0) * 64 + (b[1] as int - 0x80)
      else if c < 0x10000 then
        |b| == 3 && 0xE0 <= b[0] < 0xF0 && Tail(b[1]) && Tail(b[2])
        && c == (b[0] as int - 0xE0) * 4096 + (b[1] as int - 0x80) * 64 + (b[2] as int - 0x80)
      else
        |b| == 4 && 0xF0 <= b[0] < 0xF5 && Tail(b[1]) && Tail(b[2]) && Tail(b[3])
        && c == (b[0] as int - 0xF0) * 262144 + (b[1] as int - 0x80) * 4096 + (b[2] as int - 0x80) * 64 + (b[3] as int - 0x80)
  {
    Deeper(c);
  }

  lemma ZeroText(e: seq<Byte>, n: nat)
    requires e != [] && 0 !in e && |e| + n == 32
    ensures e + Zeros(n) != Zeros(32)
  {
    assert (e + Zeros(n))[0] == e[0] && e[0] in e;
  }

  lemma ZeroDigits(s: seq<Code>)
    requires |s| == 64 && AllDigits(s)
    ensures FromHex(s) == Zeros(32) <==> forall i :: 0 <= i < 64 ==> s[i] == 0x30
  {
    HexLowers(s);
    ZeroHex(FromHex(s));
    assert Prefixed(LowerCodes(s)) == Prefixed(Digits(64)) <==> LowerCodes(s) == Digits(64) by {
      assert Prefixed(LowerCodes(s))[2..] == LowerCodes(s) && Prefixed(Digits(64))[2..] == Digits(64);
    }
    if forall i :: 0 <= i < 64 ==> s[i] == 0x30 { assert LowerCodes(s) == Digits(64); }
    if LowerCodes(s) == Digits(64) {
      forall i | 0 <= i < 64 ensures s[i] == 0x30 { assert LowerCodes(s)[i] == 0x30; }
    }
  }

  lemma NonemptyText(v: seq<Code>)
    requires v != []
    ensures Encode(v) != []
  {
    EncodeOneExactly(v[0]);
  }

  /** An id after 0x is accepted exactly when it has 64 hexadecimal digits that are not all zero; any other text exactly when it is not
      empty, holds no null character and no surrogate, and takes at most 32 bytes. */
  lemma AcceptedExactly(v: seq<Code>)
    ensures CanonicalId(v).Ok? <==>
      if |v| >= 2 && v[0] == 0x30 && (v[1] == 0x78 || v[1] == 0x58) then
        && |v| == 66
        && (forall i :: 2 <= i < 66 ==> 0x30 <= v[i] <= 0x39 || 0x61 <= v[i] <= 0x66 || 0x41 <= v[i] <= 0x46)
        && (exists i :: 2 <= i < 66 && v[i] != 0x30)
      else
        v != [] && |Encode(v)| <= 32 && forall i :: 0 <= i < |v| ==> v[i] != 0 && !(0xD800 <= v[i] <= 0xDFFF)
    ensures CanonicalId(v).Ok? && !HexPrefix(v) ==>
      CanonicalId(v).value[..|Encode(v)|] == Encode(v) && forall i :: |Encode(v)| <= i < 32 ==> CanonicalId(v).value[i] == 0
  {
    if HexPrefix(v) {
      if |v| == 66 {
        assert forall i :: 0 <= i < 64 ==> v[2..][i] == v[i + 2];
        assert forall i :: 2 <= i < 66 ==> v[i] == v[2..][i - 2];
        if AllDigits(v[2..]) { ZeroDigits(v[2..]); }
      }
    } else if v != [] {
      BadCharacters(v);
      NonemptyText(v);
      if |Encode(v)| <= 32 && 0 !in Encode(v) { ZeroText(Encode(v), 32 - |Encode(v)|); }
    }
  }

  // ---- looking a product up by its key ----

  /** The display ids `find_canonical_product` asks for besides the case variants of the encoded key. */
  function Candidates(encoded: seq<Code>): set<seq<Code>>
    requires HexId(encoded)
  {
    match Decode(StripZeros(FromHex(encoded[2..])))
    case None => {encoded}
    case Some(display) => if display != [] && CanonicalHex(display) == Ok(encoded) then {encoded, display} else {encoded}
  }

  predicate FoundBy(encoded: seq<Code>, id: seq<Code>)
    requires HexId(encoded)
  {
    id in Candidates(encoded) || LowerCodes(id) == encoded
  }

  lemma CanonicalIsHexId(v: seq<Code>)
    requires CanonicalHex(v).Ok?
    ensures HexId(CanonicalHex(v).value) && FromHex(CanonicalHex(v).value[2..]) == CanonicalId(v).value
  {
    HexRoundTrip(CanonicalId(v).value);
    assert CanonicalHex(v).value[2..] == ToHex(CanonicalId(v).value);
  }

  lemma LowerOfHexId(v: seq<Code>)
    requires HexId(v) && CanonicalHex(v).Ok?
    ensures LowerCodes(v) == CanonicalHex(v).value
  {
    HexLowers(v[2..]);
    LowerSplit(v);
  }

  lemma LowerIsHexId(v: seq<Code>, encoded: seq<Code>)
    requires HexId(encoded) && LowerCodes(v) == encoded
    ensures HexId(v) && FromHex(v[2..]) == FromHex(encoded[2..])
  {
    forall i | 0 <= i < |v[2..]| ensures IsDigit(v[2..][i]) {
      assert encoded[2..][i] == LowerCode(v[2..][i]);
      assert IsDigit(encoded[2..][i]);
    }
    assert v[0] == encoded[0] && LowerCode(v[1]) == encoded[1];
    SameDigits(v[2..], encoded[2..]);
  }

  lemma {:induction false} SameDigits(v: seq<Code>, w: seq<Code>)
    requires |v| == |w| && |v| % 2 == 0 && AllDigits(v) && AllDigits(w)
    requires forall i :: 0 <= i < |v| ==> w[i] == LowerCode(v[i])
    ensures FromHex(v) == FromHex(w)
  {
    if v != [] {
      assert IsDigit(v[0]) && IsDigit(v[1]);
      SameDigits(v[2..], w[2..]);
    }
  }

  /** The lookup finds exactly the display ids whose canonical form is the key. */
  lemma LookupExact(key: seq<Code>, id: seq<Code>)
    requires CanonicalHex(key).Ok?
    ensures HexId(CanonicalHex(key).value)
    ensures FoundBy(CanonicalHex(key).value, id) <==> CanonicalHex(id) == CanonicalHex(key)
  {
    var encoded := CanonicalHex(key).value;
    CanonicalIsHexId(key);
    CanonicalHexIdempotent(key);
    if LowerCodes(id) == encoded {
      LowerIsHexId(id, encoded);
      assert CanonicalId(id) == CanonicalId(encoded);
    }
    if CanonicalHex(id) == Ok(encoded) {
      CanonicalIsHexId(id);
      if HexPrefix(id) {
        LowerOfHexId(id);
      } else {
        TextRoundTrip(id);
      }
    }
  }
}
