/**
 * Base64 as used on the media socket: outbound audio is encoded with the
 * padded standard alphabet of section 4 of RFC 4648, and inbound payloads are
 * decoded with the lenient rule of Node's `Buffer.from(s, 'base64')`, which
 * also accepts the URL-safe digits of section 5, skips every other character
 * and stops at the first '='.
 *
 * Bytes and digits are small integers; the shifts and masks of the
 * bit-level description are written as multiplication, division and
 * remainder by powers of two.
 */
module Base64 {

  type Byte = x: int | 0 <= x < 256

  /** One base64 digit: a six-bit value. */
  type Sextet = x: int | 0 <= x < 64

  /** The 64 digits of the standard alphabet (section 4 of RFC 4648). */
  predicate IsStandardChar(c: char) {
    || 'A' <= c <= 'Z'
    || 'a' <= c <= 'z'
    || '0' <= c <= '9'
    || c == '+'
    || c == '/'
  }

  /** The digits the lenient decoder accepts: the standard ones plus '-' and '_'. */
  predicate IsDecoderChar(c: char) {
    IsStandardChar(c) || c == '-' || c == '_'
  }

  function CharOf(v: Sextet): (c: char)
    ensures IsStandardChar(c)
  {
    if v < 26 then ('A' as int + v) as char
    else if v < 52 then ('a' as int + (v - 26)) as char
    else if v < 62 then ('0' as int + (v - 52)) as char
    else if v == 62 then '+'
    else '/'
  }

  function ValueOf(c: char): (v: Sextet)
    requires IsDecoderChar(c)
    ensures IsStandardChar(c) ==> CharOf(v) == c
    ensures c == '-' ==> v == 62
    ensures c == '_' ==> v == 63
  {
    if 'A' <= c <= 'Z' then c as int - 'A' as int
    else if 'a' <= c <= 'z' then c as int - 'a' as int + 26
    else if '0' <= c <= '9' then c as int - '0' as int + 52
    else if c == '+' || c == '-' then 62
    else 63
  }

  lemma ValueOfCharOf(v: Sextet)
    ensures ValueOf(CharOf(v)) == v
  {
  }

  /** Spells a sequence of digits with the standard alphabet. */
  function Chars(v: seq<Sextet>): (s: string)
    ensures |s| == |v|
    ensures forall i :: 0 <= i < |v| ==> s[i] == CharOf(v[i])
  {
    seq(|v|, i requires 0 <= i < |v| => CharOf(v[i]))
  }

  /** One group of one to three bytes as two to four digits; unused low bits are zero. */
  function SplitGroup(g: seq<Byte>): (v: seq<Sextet>)
    requires 1 <= |g| <= 3
    ensures |v| == |g| + 1
  {
    if |g| == 1 then [g[0] / 4, (g[0] % 4) * 16]
    else if |g| == 2 then [g[0] / 4, (g[0] % 4) * 16 + g[1] / 16, (g[1] % 16) * 4]
    else [g[0] / 4, (g[0] % 4) * 16 + g[1] / 16, (g[1] % 16) * 4 + g[2] / 64, g[2] % 64]
  }

  /**
   * One group of up to four digits as bytes, the way Node's decoder emits
   * them: a byte for each digit after the first, so a lone digit gives none.
   */
  function JoinGroup(v: seq<Sextet>): (g: seq<Byte>)
    requires |v| <= 4
    ensures |g| == if |v| == 0 then 0 else |v| - 1
  {
    if |v| < 2 then []
    else
      var w: int, x: int := v[0], v[1];
      if |v| == 2 then [w * 4 + x / 16]
      else
        var y: int := v[2];
        if |v| == 3 then [w * 4 + x / 16, (x % 16) * 16 + y / 4]
        else [w * 4 + x / 16, (x % 16) * 16 + y / 4, (y % 4) * 64 + v[3]]
  }

  /** The number of digits `n` bytes give: four per whole group, one more than the bytes in a partial one. */
  function DigitCount(n: nat): nat {
    if n == 0 then 0 else if n <= 3 then n + 1 else 4 + DigitCount(n - 3)
  }

  /** The number of bytes `m` digits give: three per whole group, one fewer than the digits in a partial one. */
  function ByteCount(m: nat): nat {
    if m <= 1 then 0 else if m <= 4 then m - 1 else 3 + ByteCount(m - 4)
  }

  /** Bytes as digits, three bytes to four digits. */
  function ToSextets(b: seq<Byte>): (v: seq<Sextet>)
    ensures |v| == DigitCount(|b|)
    decreases |b|
  {
    if |b| == 0 then []
    else if |b| <= 3 then SplitGroup(b)
    else SplitGroup(b[..3]) + ToSextets(b[3..])
  }

  /** The '=' characters that fill the last four-digit group. */
  function Padding(byteCount: nat): (p: string)
    ensures |p| == (3 - byteCount % 3) % 3
    ensures forall i :: 0 <= i < |p| ==> p[i] == '='
  {
    if byteCount % 3 == 1 then "==" else if byteCount % 3 == 2 then "=" else ""
  }

  /** `buffer.toString('base64')`: padded standard base64, in whole four-character groups. */
  function Encode(b: seq<Byte>): (s: string)
    ensures |s| % 4 == 0
    ensures |b| > 0 ==> |s| > 0
    ensures forall i :: 0 <= i < |s| ==> IsStandardChar(s[i]) || s[i] == '='
  {
    WholeGroups(|b|);
    Chars(ToSextets(b)) + Padding(|b|)
  }

  /** How many digits and '=' a byte count gives, by its remainder mod 3. */
  lemma {:induction false} EncodingShape(n: nat)
    ensures DigitCount(n) % 4 == if n % 3 == 0 then 0 else n % 3 + 1
    ensures n > 0 ==> DigitCount(n) >= 2
    decreases n
  {
    if n > 3 {
      EncodingShape(n - 3);
      assert DigitCount(n) == DigitCount(n - 3) + 4;
      assert (n - 3) % 3 == n % 3;
    }
  }

  /** Digits and padding together fill whole groups of four. */
  lemma WholeGroups(n: nat)
    ensures (DigitCount(n) + |Padding(n)|) % 4 == 0
    ensures n > 0 ==> DigitCount(n) >= 2
  {
    EncodingShape(n);
    var r := n % 3;
    if r == 0 {
      assert |Padding(n)| == 0;
    } else if r == 1 {
      assert |Padding(n)| == 2;
    } else {
      assert |Padding(n)| == 1;
    }
  }

  /** The byte count of digits filling whole groups after `pad` '=' needs exactly `pad` '=' again. */
  lemma {:induction false} DecodingShape(m: nat, pad: nat)
    requires pad <= 2 && (m + pad) % 4 == 0
    ensures |Padding(ByteCount(m))| == pad
    decreases m
  {
    if m > 4 {
      DecodingShape(m - 4, pad);
    }
  }

  /**
   * The digits the lenient decoder keeps from a payload: characters outside
   * its alphabet are skipped and the first '=' ends the input.
   */
  function Digits(s: string): (v: seq<Sextet>)
    ensures |v| <= |s|
  {
    if |s| == 0 || s[0] == '=' then []
    else if IsDecoderChar(s[0]) then [ValueOf(s[0])] + Digits(s[1..])
    else Digits(s[1..])
  }

  /** Digits as bytes, four digits to three bytes. */
  function FromSextets(v: seq<Sextet>): (b: seq<Byte>)
    ensures |b| == ByteCount(|v|)
    decreases |v|
  {
    if |v| <= 4 then JoinGroup(v)
    else JoinGroup(v[..4]) + FromSextets(v[4..])
  }

  /** `Buffer.from(s, 'base64')`: never fails, whatever the input. */
  function Decode(s: string): (b: seq<Byte>)
    ensures |b| <= |s|
  {
    ByteCountBound(|Digits(s)|);
    FromSextets(Digits(s))
  }

  lemma {:induction false} ByteCountBound(m: nat)
    ensures ByteCount(m) <= m
    decreases m
  {
    if m > 4 {
      ByteCountBound(m - 4);
    }
  }

  /** Number of '=' characters (at most two) that end `s`. */
  function PadLength(s: string): (n: nat)
    ensures n <= 2 && n <= |s|
    ensures forall i :: |s| - n <= i < |s| ==> s[i] == '='
  {
    if |s| >= 2 && s[|s| - 1] == '=' && s[|s| - 2] == '=' then 2
    else if |s| >= 1 && s[|s| - 1] == '=' then 1
    else 0
  }

  /**
   * A canonical encoding: whole four-character groups of standard digits,
   * at most two '=' at the end, and zero in the bits the last digit does
   * not carry.
   */
  predicate IsCanonical(s: string) {
    && |s| % 4 == 0
    && (forall i :: 0 <= i < |s| - PadLength(s) ==> IsStandardChar(s[i]))
    && (PadLength(s) == 1 ==> ValueOf(s[|s| - 2]) % 4 == 0)
    && (PadLength(s) == 2 ==> ValueOf(s[|s| - 3]) % 16 == 0)
  }

  // ---------------------------------------------------------------------------
  // Round trips

  lemma {:induction false} DigitsOfChars(v: seq<Sextet>, p: string)
    requires p == [] || p[0] == '='
    ensures Digits(Chars(v) + p) == v
    decreases |v|
  {
    if |v| == 0 {
      assert Chars(v) + p == p;
    } else {
      var s := Chars(v) + p;
      ValueOfCharOf(v[0]);
      assert s[0] == CharOf(v[0]);
      assert s[1..] == Chars(v[1..]) + p;
      DigitsOfChars(v[1..], p);
      assert v == [v[0]] + v[1..];
    }
  }

  lemma JoinSplit(g: seq<Byte>)
    requires 1 <= |g| <= 3
    ensures JoinGroup(SplitGroup(g)) == g
  {
    if |g| == 1 {
      SplitOne(g[0]);
    } else if |g| == 2 {
      SplitTwo(g[0], g[1]);
    } else {
      SplitThree(g[0], g[1], g[2]);
    }
  }

  lemma SplitOne(a: Byte)
    ensures (a / 4) * 4 + ((a % 4) * 16) / 16 == a
  {
  }

  lemma SplitTwo(a: Byte, b: Byte)
    ensures var x := (a % 4) * 16 + b / 16;
      (a / 4) * 4 + x / 16 == a && (x % 16) * 16 + ((b % 16) * 4) / 4 == b
  {
  }

  lemma SplitThree(a: Byte, b: Byte, c: Byte)
    ensures var x, y := (a % 4) * 16 + b / 16, (b % 16) * 4 + c / 64;
      (a / 4) * 4 + x / 16 == a && (x % 16) * 16 + y / 4 == b && (y % 4) * 64 + c % 64 == c
  {
  }

  lemma {:induction false} FromToSextets(b: seq<Byte>)
    ensures FromSextets(ToSextets(b)) == b
    decreases |b|
  {
    if |b| == 0 {
    } else if |b| <= 3 {
      JoinSplit(b);
    } else {
      var g, rest := SplitGroup(b[..3]), ToSextets(b[3..]);
      assert (g + rest)[..4] == g && (g + rest)[4..] == rest;
      JoinSplit(b[..3]);
      FromToSextets(b[3..]);
      assert b == b[..3] + b[3..];
    }
  }

  /** The relay round trip: the lenient decoder gives back what Encode encoded. */
  lemma DecodeEncode(b: seq<Byte>)
    ensures Decode(Encode(b)) == b
  {
    DigitsOfChars(ToSextets(b), Padding(|b|));
    FromToSextets(b);
  }

  /** The bits a final partial group leaves unused are zero. */
  predicate ZeroTail(v: seq<Sextet>) {
    && (|v| % 4 == 2 ==> v[|v| - 1] % 16 == 0)
    && (|v| % 4 == 3 ==> v[|v| - 1] % 4 == 0)
  }

  lemma SplitJoin(v: seq<Sextet>)
    requires 2 <= |v| <= 4
    requires ZeroTail(v)
    ensures SplitGroup(JoinGroup(v)) == v
  {
    if |v| == 2 {
      RegroupTwo(v[0], v[1]);
    } else if |v| == 3 {
      RegroupThree(v[0], v[1], v[2]);
    } else {
      RegroupFull(v[0], v[1], v[2], v[3]);
    }
  }

  lemma RegroupFull(w: Sextet, x: Sextet, y: Sextet, z: Sextet)
    ensures var a, b, c := w * 4 + x / 16, (x % 16) * 16 + y / 4, (y % 4) * 64 + z;
      a / 4 == w && (a % 4) * 16 + b / 16 == x && (b % 16) * 4 + c / 64 == y && c % 64 == z
  {
  }

  lemma RegroupTwo(w: Sextet, x: Sextet)
    requires x % 16 == 0
    ensures var a := w * 4 + x / 16;
      a / 4 == w && (a % 4) * 16 == x
  {
  }

  lemma RegroupThree(w: Sextet, x: Sextet, y: Sextet)
    requires y % 4 == 0
    ensures var a, b := w * 4 + x / 16, (x % 16) * 16 + y / 4;
      a / 4 == w && (a % 4) * 16 + b / 16 == x && (b % 16) * 4 == y
  {
  }

  lemma {:induction false} ToFromSextets(v: seq<Sextet>)
    requires |v| % 4 != 1
    requires ZeroTail(v)
    ensures ToSextets(FromSextets(v)) == v
    decreases |v|
  {
    if |v| == 0 {
    } else if |v| <= 4 {
      SplitJoin(v);
    } else {
      var g, rest := JoinGroup(v[..4]), FromSextets(v[4..]);
      assert (g + rest)[..3] == g && (g + rest)[3..] == rest;
      SplitJoin(v[..4]);
      ZeroTailSuffix(v);
      ToFromSextets(v[4..]);
      assert v == v[..4] + v[4..];
    }
  }

  lemma ZeroTailSuffix(v: seq<Sextet>)
    requires |v| >= 4 && ZeroTail(v)
    ensures ZeroTail(v[4..])
  {
    if |v| % 4 != 0 {
      assert v[4..][|v[4..]| - 1] == v[|v| - 1];
    }
  }

  lemma {:induction false} ToSextetsZeroTail(b: seq<Byte>)
    ensures ZeroTail(ToSextets(b))
    decreases |b|
  {
    if |b| > 3 {
      ToSextetsZeroTail(b[3..]);
      var g, rest := SplitGroup(b[..3]), ToSextets(b[3..]);
      assert ToSextets(b) == g + rest;
      if |rest| % 4 != 0 {
        assert (g + rest)[|g + rest| - 1] == rest[|rest| - 1];
      }
    }
  }

  lemma PadLengthAfterDigits(body: string, pad: string)
    requires forall i :: 0 <= i < |body| ==> IsStandardChar(body[i])
    requires |pad| <= 2 && forall i :: 0 <= i < |pad| ==> pad[i] == '='
    requires |pad| > 0 ==> |body| >= 2
    ensures PadLength(body + pad) == |pad|
  {
    var s := body + pad;
    if |pad| == 0 {
      assert s == body;
    } else if |pad| == 1 {
      assert s[|s| - 2] == body[|body| - 1];
    } else {
      assert s[|s| - 1] == '=' && s[|s| - 2] == '=';
    }
  }

  /** Every encoding is canonical. */
  lemma EncodeIsCanonical(b: seq<Byte>)
    ensures IsCanonical(Encode(b))
  {
    var v, p := ToSextets(b), Padding(|b|);
    var s := Encode(b);
    assert s == Chars(v) + p;
    EncodingShape(|b|);
    assert PadLength(s) == |p| by {
      PadLengthAfterDigits(Chars(v), p);
    }
    assert forall i :: 0 <= i < |s| - |p| ==> IsStandardChar(s[i]) by {
      assert forall i :: 0 <= i < |s| - |p| ==> s[i] == Chars(v)[i];
    }
    if |p| > 0 {
      ToSextetsZeroTail(b);
      var last := v[|v| - 1];
      assert s[|v| - 1] == CharOf(last);
      ValueOfCharOf(last);
      assert |s| - |p| - 1 == |v| - 1;
    }
  }

  /** The digits of a canonical string, and its padding, which is the one their byte count needs. */
  lemma CanonicalDigits(s: string) returns (v: seq<Sextet>, pad: string)
    requires IsCanonical(s)
    ensures s == Chars(v) + pad
    ensures pad == Padding(ByteCount(|v|))
    ensures |v| % 4 != 1 && ZeroTail(v)
  {
    var n := PadLength(s);
    var body := s[..|s| - n];
    pad := s[|s| - n..];
    assert s == body + pad;
    v := ValuesOf(body);
    if n > 0 {
      assert v[|v| - 1] == ValueOf(s[|s| - n - 1]);
    }
    DecodingShape(|v|, n);
    PaddingOfLength(pad, ByteCount(|v|));
  }

  /** A string of standard digits spells the digits its characters stand for. */
  lemma ValuesOf(body: string) returns (v: seq<Sextet>)
    requires forall i :: 0 <= i < |body| ==> IsStandardChar(body[i])
    ensures Chars(v) == body
    ensures |v| == |body| && forall i :: 0 <= i < |v| ==> v[i] == ValueOf(body[i])
  {
    v := seq(|body|, i requires 0 <= i < |body| => ValueOf(body[i]));
  }

  lemma PaddingOfLength(pad: string, n: nat)
    requires forall i :: 0 <= i < |pad| ==> pad[i] == '='
    requires |pad| == |Padding(n)|
    ensures pad == Padding(n)
  {
  }

  /** Every canonical string is the encoding of what it decodes to. */
  lemma EncodeDecode(s: string)
    requires IsCanonical(s)
    ensures Encode(Decode(s)) == s
  {
    var v, pad := CanonicalDigits(s);
    DigitsOfChars(v, pad);
    assert Decode(s) == FromSextets(v);
    ToFromSextets(v);
  }

  /** The canonical strings are exactly the encodings. */
  lemma CanonicalIffEncoding(s: string)
    ensures IsCanonical(s) <==> exists b :: Encode(b) == s
  {
    if IsCanonical(s) {
      EncodeDecode(s);
    }
    if b :| Encode(b) == s {
      EncodeIsCanonical(b);
    }
  }

  // ---------------------------------------------------------------------------
  // The lenient decoding rule

  /** The first '=' ends the input: nothing after it is read. */
  lemma {:induction false} DigitsStopAtPad(s: string, t: string)
    ensures Digits(s + "=" + t) == Digits(s)
    decreases |s|
  {
    if |s| == 0 {
      assert s + "=" + t == "=" + t;
    } else {
      assert (s + "=" + t)[0] == s[0];
      if s[0] != '=' {
        assert (s + "=" + t)[1..] == s[1..] + "=" + t;
        DigitsStopAtPad(s[1..], t);
      }
    }
  }

  lemma DecodeStopsAtPad(s: string, t: string)
    ensures Decode(s + "=" + t) == Decode(s)
  {
    DigitsStopAtPad(s, t);
  }

  /** A character outside the decoder's alphabet, other than '=', is skipped. */
  lemma {:induction false} DigitsSkipForeign(s: string, c: char, t: string)
    requires !IsDecoderChar(c) && c != '='
    ensures Digits(s + [c] + t) == Digits(s + t)
    decreases |s|
  {
    if |s| == 0 {
      assert s + [c] + t == [c] + t && ([c] + t)[1..] == t && s + t == t;
    } else {
      assert (s + [c] + t)[0] == s[0] && (s + t)[0] == s[0];
      assert (s + [c] + t)[1..] == s[1..] + [c] + t && (s + t)[1..] == s[1..] + t;
      DigitsSkipForeign(s[1..], c, t);
    }
  }

  lemma DecodeSkipsForeign(s: string, c: char, t: string)
    requires !IsDecoderChar(c) && c != '='
    ensures Decode(s + [c] + t) == Decode(s + t)
  {
    DigitsSkipForeign(s, c, t);
  }

  /** Two digits of the same value read alike, wherever they stand. */
  lemma {:induction false} DigitsSameValue(s: string, c: char, d: char, t: string)
    requires IsDecoderChar(c) && IsDecoderChar(d) && ValueOf(c) == ValueOf(d)
    ensures Digits(s + [c] + t) == Digits(s + [d] + t)
    decreases |s|
  {
    if |s| == 0 {
      assert s + [c] + t == [c] + t && ([c] + t)[1..] == t;
      assert s + [d] + t == [d] + t && ([d] + t)[1..] == t;
    } else {
      assert (s + [c] + t)[0] == s[0] && (s + [d] + t)[0] == s[0];
      assert (s + [c] + t)[1..] == s[1..] + [c] + t && (s + [d] + t)[1..] == s[1..] + [d] + t;
      DigitsSameValue(s[1..], c, d, t);
    }
  }

  /** The URL-safe digits of section 5 of RFC 4648 decode as '+' and '/'. */
  lemma DecodeUrlSafe(s: string, t: string)
    ensures Decode(s + "-" + t) == Decode(s + "+" + t)
    ensures Decode(s + "_" + t) == Decode(s + "/" + t)
  {
    DigitsSameValue(s, '-', '+', t);
    DigitsSameValue(s, '_', '/', t);
    assert s + "-" + t == s + ['-'] + t && s + "+" + t == s + ['+'] + t;
    assert s + "_" + t == s + ['_'] + t && s + "/" + t == s + ['/'] + t;
  }

  /** Before any '=', the digits of a concatenation are the digits of its parts. */
  lemma {:induction false} DigitsAppend(s: string, t: string)
    requires forall i :: 0 <= i < |s| ==> s[i] != '='
    ensures Digits(s + t) == Digits(s) + Digits(t)
    decreases |s|
  {
    if |s| == 0 {
      assert s + t == t;
    } else {
      assert (s + t)[0] == s[0] && (s + t)[1..] == s[1..] + t;
      DigitsAppend(s[1..], t);
    }
  }

  /** After whole groups, a lone digit completes no byte. */
  lemma {:induction false} FromSextetsLone(v: seq<Sextet>, x: Sextet)
    requires |v| % 4 == 0
    ensures FromSextets(v + [x]) == FromSextets(v)
    decreases |v|
  {
    if |v| == 0 {
      assert v + [x] == [x];
    } else {
      var w := v + [x];
      assert w[..4] == v[..4] && w[4..] == v[4..] + [x];
      FromSextetsLone(v[4..], x);
      if |v| == 4 {
        assert v[4..] == [] && v[..4] == v;
      }
    }
  }

  /** A digit left alone after whole groups of digits gives no byte. */
  lemma DecodeLoneDigit(s: string, c: char)
    requires forall i :: 0 <= i < |s| ==> s[i] != '='
    requires |Digits(s)| % 4 == 0 && IsDecoderChar(c)
    ensures Decode(s + [c]) == Decode(s)
  {
    var v := Digits(s);
    assert Digits([c]) == [ValueOf(c)] by {
      assert [c][1..] == [];
      assert Digits([c][1..]) == [];
    }
    assert Digits(s + [c]) == v + [ValueOf(c)] by {
      DigitsAppend(s, [c]);
    }
    FromSextetsLone(v, ValueOf(c));
  }
}
