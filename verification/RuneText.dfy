/**
 Runes as bytes and strings in order (runtime/ncrt.c): the encoder writes the form of section 3 of
 RFC 3629, a decoder gets every text back, and comparing bytes orders texts by their runes.
 Shifts and masks are written as division and remainder; or-ing a mark into free bits is addition.
 */
module RuneText {
  import opened Prelude

  newtype Byte = x: int | 0 <= x < 256

  /** Unicode scalar values: code points without surrogates. */
  predicate Scalar(r: nat) {
    r <= 0x10FFFF && !(0xD800 <= r <= 0xDFFF)
  }

  // ----- the encoder -----------------------------------------------------------------------------------------

  /** 10xxxxxx with the last six bits of n. */
  function Tail(n: nat): Byte {
    (0x80 + n % 64) as Byte
  }

  /** __nc_rune_to_str_out; anything that is no code point becomes U+FFFD. */
  function Encode(r: nat): (bytes: seq<Byte>)
    ensures 1 <= |bytes| <= 4
  {
    if r <= 0x7F then [r as Byte]
    else if r <= 0x7FF then [(0xC0 + r / 64) as Byte, Tail(r)]
    else if r <= 0xFFFF && !(0xD800 <= r <= 0xDFFF) then [(0xE0 + r / 4096) as Byte, Tail(r / 64), Tail(r)]
    else if r <= 0x10FFFF then [(0xF0 + r / 262144) as Byte, Tail(r / 4096), Tail(r / 64), Tail(r)]
    else [0xEF, 0xBF, 0xBD]
  }

  /** Outside the scalar values: beyond Unicode the replacement character, for surrogates four bytes. */
  lemma OutsideScalars(r: nat)
    requires !Scalar(r)
    ensures r > 0x10FFFF ==> Encode(r) == Encode(0xFFFD)
    ensures r <= 0x10FFFF ==>
              |Encode(r)| == 4 && Encode(r)[0] == 0xF0 && Assemble(Encode(r)) == r && !WellFormed(Encode(r))
  {
    assert Encode(0xFFFD) == [0xEF, 0xBF, 0xBD];
  }

  // ----- the form the RFC asks for, and a decoder ------------------------------------------------------------------

  predicate Continues(b: Byte) {
    0x80 <= b < 0xC0
  }

  /** The number of bytes a leading byte announces, or 0 if it cannot lead. */
  function Announced(b: Byte): nat {
    if b < 0x80 then 1 else if b < 0xC0 then 0 else if b < 0xE0 then 2 else if b < 0xF0 then 3 else if b < 0xF8 then 4
        else 0
  }

  function Payload(b: Byte): int {
    b as int - 0x80
  }

  /** The code point of a sequence of announced length. */
  function Assemble(bytes: seq<Byte>): int
    requires 1 <= |bytes| <= 4
  {
    if |bytes| == 1 then bytes[0] as int
    else if |bytes| == 2 then (bytes[0] as int - 0xC0) * 64 + Payload(bytes[1])
    else if |bytes| == 3 then (bytes[0] as int - 0xE0) * 4096 + Payload(bytes[1]) * 64 + Payload(bytes[2])
    else (bytes[0] as int - 0xF0) * 262144 + Payload(bytes[1]) * 4096 + Payload(bytes[2]) * 64 + Payload(bytes[3])
  }

  /** A leading byte, exactly the continuation bytes it announces, and the shortest form for the code point. */
  predicate WellFormed(bytes: seq<Byte>) {
    && 1 <= |bytes| <= 4 && Announced(bytes[0]) == |bytes|
    && (forall i :: 1 <= i < |bytes| ==> Continues(bytes[i]))
    && Assemble(bytes) >= 0 && Scalar(Assemble(bytes))
    && (|bytes| == 2 ==> Assemble(bytes) > 0x7F) && (|bytes| == 3 ==> Assemble(bytes) > 0x7FF) &&
        (|bytes| == 4 ==> Assemble(bytes) > 0xFFFF)
  }

  /** The six-bit digits of a number. */
  lemma SixBitDigits(r: nat)
    ensures r == r / 64 * 64 + r % 64
    ensures r / 64 == r / 4096 * 64 + r / 64 % 64
    ensures r / 4096 == r / 262144 * 64 + r / 4096 % 64
  {
    var a := r / 64;
    var b := a / 64;
    var c := b / 64;
    UniqueQuotient(r, b, a % 64 * 64 + r % 64, 4096);
    UniqueQuotient(r, c, b % 64 * 4096 + a % 64 * 64 + r % 64, 262144);
  }

  lemma EncodesTwo(r: nat)
    requires 0x7F < r <= 0x7FF
    ensures WellFormed(Encode(r)) && Assemble(Encode(r)) == r
  {
  }

  lemma EncodesThree(r: nat)
    requires 0x7FF < r <= 0xFFFF && Scalar(r)
    ensures WellFormed(Encode(r)) && Assemble(Encode(r)) == r
  {
    SixBitDigits(r);
    var lead, mid, low := r / 4096, r / 64 % 64, r % 64;
    assert r == lead * 4096 + mid * 64 + low && lead < 16;
    assert Encode(r) == [(0xE0 + lead) as Byte, (0x80 + mid) as Byte, (0x80 + low) as Byte];
  }

  lemma EncodesFour(r: nat)
    requires 0xFFFF < r <= 0x10FFFF
    ensures WellFormed(Encode(r)) && Assemble(Encode(r)) == r
  {
    SixBitDigits(r);
    var lead, high, mid, low := r / 262144, r / 4096 % 64, r / 64 % 64, r % 64;
    assert r == lead * 262144 + high * 4096 + mid * 64 + low && lead < 8;
    assert Encode(r) == [(0xF0 + lead) as Byte, (0x80 + high) as Byte, (0x80 + mid) as Byte, (0x80 + low) as Byte];
  }

  /** The encoder writes the well-formed sequence of its rune. */
  lemma EncodesWellFormed(r: nat)
    requires Scalar(r)
    ensures WellFormed(Encode(r)) && Assemble(Encode(r)) == r
  {
    if r > 0xFFFF {
      hide Encode, WellFormed, Assemble;
      EncodesFour(r);
    } else if r > 0x7FF {
      hide Encode, WellFormed, Assemble;
      EncodesThree(r);
    } else if r > 0x7F {
      hide Encode, WellFormed, Assemble;
      EncodesTwo(r);
    }
  }

  /** The digits of an assembled number. */
  lemma Disassembled(lead: nat, high: nat, mid: nat, low: nat)
    requires high < 64 && mid < 64 && low < 64
    ensures var r := lead * 262144 + high * 4096 + mid * 64 + low;
            r / 262144 == lead && r / 4096 == lead * 64 + high && r / 4096 % 64 == high && r / 64 % 64 == mid &&
                r % 64 == low
  {
    var r := lead * 262144 + high * 4096 + mid * 64 + low;
    UniqueQuotient(r, lead, high * 4096 + mid * 64 + low, 262144);
    UniqueQuotient(r, lead * 64 + high, mid * 64 + low, 4096);
    UniqueQuotient(r, lead * 4096 + high * 64 + mid, low, 64);
    UniqueQuotient(lead * 64 + high, lead, high, 64);
    UniqueQuotient(lead * 4096 + high * 64 + mid, lead * 64 + high, mid, 64);
  }

  /** And it is the only one: every well-formed sequence is what the encoder writes for its code point. */
  lemma WellFormedIsEncoded(bytes: seq<Byte>)
    requires WellFormed(bytes)
    ensures Encode(Assemble(bytes)) == bytes
  {
    var r := Assemble(bytes);
    if |bytes| == 2 {
      Disassembled(0, 0, bytes[0] as int - 0xC0, Payload(bytes[1]));
      UniqueQuotient(r, bytes[0] as int - 0xC0, Payload(bytes[1]), 64);
      assert Encode(r) == [bytes[0], bytes[1]];
    } else if |bytes| == 3 {
      Disassembled(0, bytes[0] as int - 0xE0, Payload(bytes[1]), Payload(bytes[2]));
      assert Encode(r) == [bytes[0], bytes[1], bytes[2]];
    } else if |bytes| == 4 {
      Disassembled(bytes[0] as int - 0xF0, Payload(bytes[1]), Payload(bytes[2]), Payload(bytes[3]));
      assert Encode(r) == [bytes[0], bytes[1], bytes[2], bytes[3]];
    }
  }

  // ----- texts ---------------------------------------------------------------------------------------------------

  function EncodeAll(rs: seq<nat>): seq<Byte> {
    if rs == [] then [] else Encode(rs[0]) + EncodeAll(rs[1..])
  }

  function Decode(bytes: seq<Byte>): Option<seq<nat>> {
    if bytes == [] then Some([])
    else
      var n := Announced(bytes[0]);
      if n == 0 || n > |bytes| || !WellFormed(bytes[..n]) then None
      else
        var rest := Decode(bytes[n..]);
        if rest.Some? then Some([Assemble(bytes[..n]) as nat] + rest.value) else None
  }

  predicate Scalars(rs: seq<nat>) {
    forall i :: 0 <= i < |rs| ==> Scalar(rs[i])
  }

  /** Decoding inverts encoding, for every text. */
  lemma {:induction false} DecodesBack(rs: seq<nat>)
    requires Scalars(rs)
    ensures Decode(EncodeAll(rs)) == Some(rs)
  {
    hide Encode, Assemble, Announced;
    if rs != [] {
      EncodesWellFormed(rs[0]);
      DecodesBack(rs[1..]);
      var first, rest := Encode(rs[0]), EncodeAll(rs[1..]);
      assert EncodeAll(rs)[..|first|] == first && EncodeAll(rs)[|first|..] == rest && EncodeAll(rs)[0] == first[0];
      assert rs == [rs[0]] + rs[1..];
    }
  }

  /** Only encodings decode: what decodes is the encoding of the result. */
  lemma {:induction false} DecodedIsEncoding(bytes: seq<Byte>)
    requires Decode(bytes).Some?
    ensures Scalars(Decode(bytes).value) && EncodeAll(Decode(bytes).value) == bytes
    decreases |bytes|
  {
    hide Encode, Announced;
    if bytes != [] {
      var n := Announced(bytes[0]);
      WellFormedIsEncoded(bytes[..n]);
      DecodedIsEncoding(bytes[n..]);
      assert bytes == bytes[..n] + bytes[n..];
    }
  }

  /** No rune's encoding starts another's. */
  lemma PrefixFree(a: nat, b: nat)
    requires Scalar(a) && Scalar(b) && Encode(a) <= Encode(b)
    ensures a == b
  {
    hide Encode, Assemble, Announced;
    EncodesWellFormed(a);
    EncodesWellFormed(b);
    assert Encode(a) == Encode(b);
  }

  // ----- order ----------------------------------------------------------------------------------------------------

  /** Dictionary order of bytes. */
  function Compare(x: seq<Byte>, y: seq<Byte>): int {
    if x == [] then if y == [] then 0 else -1
    else if y == [] then 1
    else if x[0] < y[0] then -1
    else if x[0] > y[0] then 1
    else Compare(x[1..], y[1..])
  }

  /** __nc_str_cmp_ptr: the common part byte by byte, then the lengths. */
  method StrCmp(a: seq<Byte>, b: seq<Byte>) returns (c: int)
    ensures c == Compare(a, b)
  {
    var n := if |a| < |b| then |a| else |b|;
    var i := 0;
    while i < n
      invariant 0 <= i <= n && Compare(a, b) == Compare(a[i..], b[i..])
    {
      assert a[i..][0] == a[i] && b[i..][0] == b[i] && a[i..][1..] == a[i + 1..] && b[i..][1..] == b[i + 1..];
      if a[i] < b[i] {
        return -1;
      }
      if a[i] > b[i] {
        return 1;
      }
      i := i + 1;
    }
    c := if |a| < |b| then -1 else if |a| > |b| then 1 else 0;
  }

  /** Dictionary order of code points. */
  function CompareRunes(x: seq<nat>, y: seq<nat>): int {
    if x == [] then if y == [] then 0 else -1
    else if y == [] then 1
    else if x[0] < y[0] then -1
    else if x[0] > y[0] then 1
    else CompareRunes(x[1..], y[1..])
  }

  lemma First(h1: Byte, t1: seq<Byte>, h2: Byte, t2: seq<Byte>)
    ensures Compare([h1] + t1, [h2] + t2) == if h1 < h2 then -1 else if h1 > h2 then 1 else Compare(t1, t2)
  {
    assert ([h1] + t1)[1..] == t1 && ([h2] + t2)[1..] == t2;
  }

  lemma {:induction false} SkipCommon(p: seq<Byte>, x: seq<Byte>, y: seq<Byte>)
    ensures Compare(p + x, p + y) == Compare(x, y)
  {
    if p == [] {
      assert p + x == x && p + y == y;
    } else {
      assert (p + x)[1..] == p[1..] + x && (p + y)[1..] == p[1..] + y;
      SkipCommon(p[1..], x, y);
    }
  }

  lemma {:induction false} CompareTurned(x: seq<Byte>, y: seq<Byte>)
    ensures Compare(x, y) == -Compare(y, x)
  {
    if x != [] && y != [] {
      CompareTurned(x[1..], y[1..]);
    }
  }

  /** The first byte at which x is below y. */
  ghost predicate Below(x: seq<Byte>, y: seq<Byte>) {
    exists k :: 0 <= k < |x| && k < |y| && x[..k] == y[..k] && x[k] < y[k]
  }

  lemma Around(x: seq<Byte>, k: nat, more: seq<Byte>)
    requires k < |x|
    ensures x + more == x[..k] + ([x[k]] + (x[k + 1..] + more))
  {
    assert x == x[..k] + ([x[k]] + x[k + 1..]);
  }

  lemma BelowCompares(x: seq<Byte>, y: seq<Byte>, more: seq<Byte>, rest: seq<Byte>)
    requires Below(x, y)
    ensures Compare(x + more, y + rest) == -1
  {
    var k :| 0 <= k < |x| && k < |y| && x[..k] == y[..k] && x[k] < y[k];
    Around(x, k, more);
    Around(y, k, rest);
    SkipCommon(x[..k], [x[k]] + (x[k + 1..] + more), [y[k]] + (y[k + 1..] + rest));
    First(x[k], x[k + 1..] + more, y[k], y[k + 1..] + rest);
  }

  lemma FirstDifference(x: seq<Byte>, y: seq<Byte>, k: nat)
    requires k < |x| && k < |y| && x[k] < y[k] && forall i :: 0 <= i < k ==> x[i] == y[i]
    ensures Below(x, y)
  {
    assert x[..k] == y[..k];
  }

  lemma OrderTwo(a: nat, b: nat)
    requires Scalar(a) && Scalar(b) && a < b && 0x7F < a && b <= 0x7FF
    ensures Below(Encode(a), Encode(b))
  {
    SixBitDigits(a);
    SixBitDigits(b);
    hide Below;
    FirstDifference(Encode(a), Encode(b), if a / 64 < b / 64 then 0 else 1);
  }

  lemma OrderThree(a: nat, b: nat)
    requires Scalar(a) && Scalar(b) && a < b && 0x7FF < a && b <= 0xFFFF
    ensures Below(Encode(a), Encode(b))
  {
    SixBitDigits(a);
    SixBitDigits(b);
    hide Below;
    FirstDifference(Encode(a), Encode(b), if a / 4096 < b / 4096 then 0 else if a / 64 < b / 64 then 1 else 2);
  }

  lemma OrderFour(a: nat, b: nat)
    requires Scalar(a) && Scalar(b) && a < b && 0xFFFF < a
    ensures Below(Encode(a), Encode(b))
  {
    SixBitDigits(a);
    SixBitDigits(b);
    hide Below;
    FirstDifference(Encode(a), Encode(b),
                    if a / 262144 < b / 262144 then 0 else if a / 4096 < b / 4096 then 1 else if a / 64 < b / 64 then 2
                        else 3);
  }

  /** A smaller rune's encoding differs from a larger one's at a byte where it is smaller. */
  lemma EncodingOrder(a: nat, b: nat)
    requires Scalar(a) && Scalar(b) && a < b
    ensures Below(Encode(a), Encode(b))
  {
    if 0x7F < a && b <= 0x7FF {
      OrderTwo(a, b);
    } else if 0x7FF < a && b <= 0xFFFF {
      OrderThree(a, b);
    } else if 0xFFFF < a {
      OrderFour(a, b);
    } else {
      FirstDifference(Encode(a), Encode(b), 0);
    }
  }

  /** Comparing encoded texts compares their rune sequences; equal bytes mean equal texts. */
  lemma {:induction false} TextOrder(x: seq<nat>, y: seq<nat>)
    requires Scalars(x) && Scalars(y)
    ensures Compare(EncodeAll(x), EncodeAll(y)) == CompareRunes(x, y)
    ensures CompareRunes(x, y) == 0 <==> x == y
  {
    hide Encode;
    if x != [] && y != [] {
      var more, rest := EncodeAll(x[1..]), EncodeAll(y[1..]);
      TextOrder(x[1..], y[1..]);
      assert x == [x[0]] + x[1..] && y == [y[0]] + y[1..];
      if x[0] < y[0] {
        EncodingOrder(x[0], y[0]);
        BelowCompares(Encode(x[0]), Encode(y[0]), more, rest);
      } else if x[0] > y[0] {
        EncodingOrder(y[0], x[0]);
        BelowCompares(Encode(y[0]), Encode(x[0]), rest, more);
        CompareTurned(EncodeAll(x), EncodeAll(y));
      } else {
        SkipCommon(Encode(x[0]), more, rest);
      }
    }
  }
}
