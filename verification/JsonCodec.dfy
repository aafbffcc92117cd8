/** The string codec of the remote transport, on bytes: escaping for a JSON frame and back, with
  * \u escapes turned into UTF-8.
  */
module JsonCodec {
  import opened Sequences

  newtype byte = x: int | 0 <= x < 256

  const QUOTE: byte := 34
  const BACKSLASH: byte := 92
  const LETTER_B: byte := 98
  const LETTER_F: byte := 102
  const LETTER_N: byte := 110
  const LETTER_R: byte := 114
  const LETTER_T: byte := 116
  const LETTER_U: byte := 117

  // ---- hex digits ----------------------------------------------------------------------

  /** The digit as printed, in lower case. */
  function HexDigit(d: nat): (b: byte)
    requires d < 16
    ensures HexValue(b) == d
  {
    if d < 10 then (48 + d) as byte else (87 + d) as byte
  }

  /** The value of a hex digit in either case; 16 for any other byte. */
  function HexValue(b: byte): nat {
    if 48 <= b <= 57 then (b - 48) as nat
    else if 97 <= b <= 102 then (b - 87) as nat
    else if 65 <= b <= 70 then (b - 55) as nat
    else 16
  }

  datatype Hex = NotHex | Hex(value: nat)

  /** The number that the bytes v[at..at + n] write, n at most four. */
  function HexAt(v: seq<byte>, at: nat, n: nat): Hex
    requires at + n <= |v|
  {
    if n == 0 then Hex(0)
    else
      var high := HexAt(v, at, n - 1);
      var d := HexValue(v[at + n - 1]);
      if high.NotHex? || d == 16 then NotHex else Hex(high.value * 16 + d)
  }

  function Hex4(v: seq<byte>, at: nat): Hex {
    if at + 4 > |v| then NotHex else HexAt(v, at, 4)
  }

  lemma {:induction false} NotHexStays(v: seq<byte>, at: nat, n: nat, m: nat)
    requires n <= m && at + m <= |v| && HexAt(v, at, n).NotHex?
    ensures HexAt(v, at, m).NotHex?
  {
    if n < m {
      NotHexStays(v, at, n, m - 1);
    }
  }

  /** Shifting by four and or-ing a digit in is what the accumulator does. */
  lemma ShiftAndOr(acc: bv32, d: bv32)
    requires acc < 0x1000_0000 && d < 16
    ensures (acc << 4) | d == acc * 16 + d
  {
  }

  method ReadHex4(value: seq<byte>, at: nat) returns (ok: bool, read: nat)
    ensures if ok then Hex4(value, at) == Hex(read) && read < 0x10000 else Hex4(value, at).NotHex?
  {
    read := 0;
    if at + 4 > |value| {
      return false, read;
    }
    var i: nat := at;
    while i < at + 4
      invariant at <= i <= at + 4 && HexAt(value, at, i - at) == Hex(read)
      invariant i - at == 0 ==> read < 1
      invariant i - at == 1 ==> read < 0x10
      invariant i - at == 2 ==> read < 0x100
      invariant i - at == 3 ==> read < 0x1000
      invariant i - at == 4 ==> read < 0x10000
    {
      var ch := value[i];
      var digit: nat;
      if 48 <= ch <= 57 {
        digit := (ch - 48) as nat;
      } else if 97 <= ch <= 102 {
        digit := (ch - 97) as nat + 10;
      } else if 65 <= ch <= 70 {
        digit := (ch - 65) as nat + 10;
      } else {
        NotHexStays(value, at, i - at + 1, 4);
        return false, read;
      }
      read := read * 16 + digit;
      i := i + 1;
    }
    ok := true;
  }

  // ---- UTF-8 ---------------------------------------------------------------------------

  predicate Surrogate(cp: nat) {
    0xD800 <= cp <= 0xDFFF
  }

  /** A Unicode scalar value. */
  predicate Scalar(cp: nat) {
    cp <= 0x10FFFF && !Surrogate(cp)
  }

  predicate Continues(b: byte) {
    0x80 <= b < 0xC0
  }

  /** The table of section 3 of RFC 3629, read backwards: the bytes carry the bits of cp, in the form for
    * its range. */
  predicate IsUtf8(bytes: seq<byte>, cp: nat) {
    if cp < 0x80 then
      |bytes| == 1 && bytes[0] as nat == cp
    else if cp < 0x800 then
      && |bytes| == 2 && 0xC0 <= bytes[0] < 0xE0 && Continues(bytes[1])
      && (bytes[0] - 0xC0) as nat * 0x40 + (bytes[1] - 0x80) as nat == cp
    else if cp < 0x10000 then
      && |bytes| == 3 && 0xE0 <= bytes[0] < 0xF0 && Continues(bytes[1]) && Continues(bytes[2])
      && (bytes[0] - 0xE0) as nat * 0x1000 + (bytes[1] - 0x80) as nat * 0x40 + (bytes[2] - 0x80) as nat == cp
    else
      && |bytes| == 4 && 0xF0 <= bytes[0] < 0xF8 && Continues(bytes[1]) && Continues(bytes[2]) && Continues(bytes[3])
      && (bytes[0] - 0xF0) as nat * 0x40000 + (bytes[1] - 0x80) as nat * 0x1000 + (bytes[2] - 0x80) as nat * 0x40
         + (bytes[3] - 0x80) as nat == cp
  }

  function Utf8(cp: nat): (bytes: seq<byte>)
    requires cp <= 0x10FFFF
    ensures |bytes| > 0
  {
    if cp < 0x80 then [cp as byte]
    else if cp < 0x800 then [(0xC0 + cp / 0x40) as byte, (0x80 + cp % 0x40) as byte]
    else if cp < 0x10000 then
      [(0xE0 + cp / 0x1000) as byte, (0x80 + cp / 0x40 % 0x40) as byte, (0x80 + cp % 0x40) as byte]
    else
      [(0xF0 + cp / 0x40000) as byte, (0x80 + cp / 0x1000 % 0x40) as byte, (0x80 + cp / 0x40 % 0x40) as byte,
       (0x80 + cp % 0x40) as byte]
  }

  /** The prefixes and the payload bits do not overlap, so or-ing them is adding them. */
  lemma OrIsSum(x: bv8)
    ensures x < 0x20 ==> 0xC0 | x == 0xC0 + x
    ensures x < 0x10 ==> 0xE0 | x == 0xE0 + x
    ensures x < 0x08 ==> 0xF0 | x == 0xF0 + x
    ensures x < 0x40 ==> 0x80 | x == 0x80 + x
  {
  }

  /** The six-bit groups of a code point put it together again. */
  lemma Groups(cp: nat)
    requires cp < 0x40000000
    ensures cp == cp / 0x40 * 0x40 + cp % 0x40
    ensures cp == cp / 0x1000 * 0x1000 + cp / 0x40 % 0x40 * 0x40 + cp % 0x40
    ensures cp == cp / 0x40000 * 0x40000 + cp / 0x1000 % 0x40 * 0x1000 + cp / 0x40 % 0x40 * 0x40 + cp % 0x40
  {
    var a := cp / 0x40;
    assert a / 0x40 == cp / 0x1000;
    var b := a / 0x40;
    assert b / 0x40 == cp / 0x40000;
    assert a == b * 0x40 + a % 0x40;
    assert b == b / 0x40 * 0x40 + b % 0x40;
  }

  /** The encoder writes the form the table demands. */
  lemma Utf8IsRight(cp: nat)
    requires cp <= 0x10FFFF
    ensures IsUtf8(Utf8(cp), cp)
  {
    Groups(cp);
  }

  /** No two byte strings encode one code point, and no byte string encodes two. */
  lemma Utf8IsUnique(a: seq<byte>, b: seq<byte>, c: nat, d: nat)
    requires c <= 0x10FFFF && d <= 0x10FFFF && IsUtf8(a, c) && IsUtf8(b, d)
    ensures a == b <==> c == d
  {
    if c == d {
      assert |a| == |b|;
      if c < 0x80 {
      } else if c < 0x800 {
      } else if c < 0x10000 {
        assert a[0] == b[0] && a[1] == b[1] && a[2] == b[2];
      } else {
        assert a[0] == b[0] && a[1] == b[1] && a[2] == b[2] && a[3] == b[3];
      }
    }
  }

  method AppendCodePoint(out: seq<byte>, codePoint: nat) returns (r: seq<byte>)
    requires codePoint <= 0x10FFFF
    ensures r == out + Utf8(codePoint)
  {
    if codePoint < 0x80 {
      r := out + [codePoint as byte];
    } else if codePoint < 0x800 {
      r := out + [(0xC0 + codePoint / 0x40) as byte];
      r := r + [(0x80 + codePoint % 0x40) as byte];
    } else if codePoint < 0x10000 {
      r := out + [(0xE0 + codePoint / 0x1000) as byte];
      r := r + [(0x80 + codePoint / 0x40 % 0x40) as byte];
      r := r + [(0x80 + codePoint % 0x40) as byte];
    } else {
      r := out + [(0xF0 + codePoint / 0x40000) as byte];
      r := r + [(0x80 + codePoint / 0x1000 % 0x40) as byte];
      r := r + [(0x80 + codePoint / 0x40 % 0x40) as byte];
      r := r + [(0x80 + codePoint % 0x40) as byte];
    }
  }

  // ---- escaping ------------------------------------------------------------------------

  function EscapeByte(b: byte): (e: seq<byte>)
    ensures 1 <= |e|
  {
    if b == BACKSLASH then [BACKSLASH, BACKSLASH]
    else if b == QUOTE then [BACKSLASH, QUOTE]
    else if b == 10 then [BACKSLASH, LETTER_N]
    else if b == 13 then [BACKSLASH, LETTER_R]
    else if b == 9 then [BACKSLASH, LETTER_T]
    else if b < 0x20 then [BACKSLASH, LETTER_U, 48, 48, HexDigit(b as nat / 16), HexDigit(b as nat % 16)]
    else [b]
  }

  function EscapedFrom(s: seq<byte>, i: nat): seq<byte>
    requires i <= |s|
    decreases |s| - i
  {
    if i == |s| then [] else EscapeByte(s[i]) + EscapedFrom(s, i + 1)
  }

  function Escaped(s: seq<byte>): seq<byte> {
    EscapedFrom(s, 0)
  }

  method JsonEscape(input: seq<byte>) returns (out: seq<byte>)
    ensures out == Escaped(input)
  {
    out := [];
    var i: nat := 0;
    while i < |input|
      invariant i <= |input| && out + EscapedFrom(input, i) == Escaped(input)
    {
      var ch := input[i];
      var escape: seq<byte>;
      if ch == BACKSLASH {
        escape := [BACKSLASH, BACKSLASH];
      } else if ch == QUOTE {
        escape := [BACKSLASH, QUOTE];
      } else if ch == 10 {
        escape := [BACKSLASH, LETTER_N];
      } else if ch == 13 {
        escape := [BACKSLASH, LETTER_R];
      } else if ch == 9 {
        escape := [BACKSLASH, LETTER_T];
      } else if ch < 0x20 {
        escape := [BACKSLASH, LETTER_U, 48, 48, HexDigit(ch as nat / 16), HexDigit(ch as nat % 16)];
      } else {
        escape := [ch];
      }
      AppendAssociates(out, EscapeByte(ch), EscapedFrom(input, i + 1));
      out := out + escape;
      i := i + 1;
    }
  }

  // ---- unescaping ----------------------------------------------------------------------

  predicate HighSurrogate(cp: nat) {
    0xD800 <= cp <= 0xDBFF
  }

  predicate LowSurrogate(cp: nat) {
    0xDC00 <= cp <= 0xDFFF
  }

  function Joined(high: nat, low: nat): nat
    requires HighSurrogate(high) && LowSurrogate(low)
  {
    0x10000 + (high - 0xD800) * 0x400 + (low - 0xDC00)
  }

  /** What one read at i yields, and where the next begins. */
  datatype Piece = Piece(bytes: seq<byte>, next: nat)

  /** The low half of a surrogate pair, if an escape that writes one stands at i. */
  function LowAt(v: seq<byte>, i: nat): Hex {
    if i + 6 <= |v| && v[i] == BACKSLASH && v[i + 1] == LETTER_U && Hex4(v, i + 2).Hex?
        && LowSurrogate(Hex4(v, i + 2).value)
    then Hex4(v, i + 2) else NotHex
  }

  lemma Hex4Small(v: seq<byte>, at: nat)
    ensures Hex4(v, at).Hex? ==> at + 4 <= |v| && Hex4(v, at).value < 0x10000
  {
    if at + 4 <= |v| {
      var d0, d1, d2, d3 := HexAt(v, at, 1), HexAt(v, at, 2), HexAt(v, at, 3), HexAt(v, at, 4);
      assert HexAt(v, at, 0) == Hex(0);
      assert d0.Hex? ==> d0.value < 0x10;
      assert d1.Hex? ==> d1.value < 0x100;
      assert d2.Hex? ==> d2.value < 0x1000;
    }
  }

  /** A \u escape whose digits begin at i. */
  function UnicodeAt(v: seq<byte>, i: nat): (p: Piece)
    requires i <= |v|
    ensures i <= p.next <= |v|
  {
    Hex4Small(v, i);
    var cp := Hex4(v, i);
    if cp.NotHex? then Piece([LETTER_U], i)
    else if HighSurrogate(cp.value) && LowAt(v, i + 4).Hex?
    then Piece(Utf8(Joined(cp.value, LowAt(v, i + 4).value)), i + 10)
    else Piece(Utf8(cp.value), i + 4)
  }

  function PieceAt(v: seq<byte>, i: nat): (p: Piece)
    requires i < |v|
    ensures i < p.next <= |v|
  {
    if v[i] != BACKSLASH || i + 1 >= |v| then Piece([v[i]], i + 1)
    else if v[i + 1] == LETTER_N then Piece([10], i + 2)
    else if v[i + 1] == LETTER_R then Piece([13], i + 2)
    else if v[i + 1] == LETTER_T then Piece([9], i + 2)
    else if v[i + 1] == LETTER_B then Piece([8], i + 2)
    else if v[i + 1] == LETTER_F then Piece([12], i + 2)
    else if v[i + 1] == LETTER_U then UnicodeAt(v, i + 2)
    else Piece([v[i + 1]], i + 2)
  }

  function UnescapedFrom(v: seq<byte>, i: nat): seq<byte>
    requires i <= |v|
    decreases |v| - i
  {
    if i == |v| then [] else PieceAt(v, i).bytes + UnescapedFrom(v, PieceAt(v, i).next)
  }

  function Unescaped(v: seq<byte>): seq<byte> {
    UnescapedFrom(v, 0)
  }

  /** The \u branch: i is the position of the letter u on entry, and of the last byte read on return. */
  method UnescapeUnicode(value: seq<byte>, at: nat) returns (bytes: seq<byte>, i: nat)
    requires at < |value| && value[at] == LETTER_U
    ensures i < |value| && Piece(bytes, i + 1) == UnicodeAt(value, at + 1)
  {
    i := at;
    Hex4Small(value, i + 1);
    var ok, codePoint := ReadHex4(value, i + 1);
    if !ok {
      return [value[i]], i;
    }
    i := i + 4;
    if codePoint >= 0xD800 && codePoint <= 0xDBFF && i + 6 < |value| && value[i + 1] == BACKSLASH
        && value[i + 2] == LETTER_U {
      var lowOk, low := ReadHex4(value, i + 3);
      if lowOk && low >= 0xDC00 && low <= 0xDFFF {
        codePoint := 0x10000 + (codePoint - 0xD800) * 0x400 + (low - 0xDC00);
        i := i + 6;
      }
    }
    bytes := AppendCodePoint([], codePoint);
  }

  method JsonUnescape(value: seq<byte>) returns (out: seq<byte>)
    ensures out == Unescaped(value)
  {
    out := [];
    var i: nat := 0;
    while i < |value|
      invariant i <= |value| && out + UnescapedFrom(value, i) == Unescaped(value)
    {
      ghost var p := PieceAt(value, i);
      AppendAssociates(out, p.bytes, UnescapedFrom(value, p.next));
      if value[i] != BACKSLASH || i + 1 >= |value| {
        out := out + [value[i]];
      } else {
        i := i + 1;
        var ch := value[i];
        if ch == LETTER_N {
          out := out + [10];
        } else if ch == LETTER_R {
          out := out + [13];
        } else if ch == LETTER_T {
          out := out + [9];
        } else if ch == LETTER_B {
          out := out + [8];
        } else if ch == LETTER_F {
          out := out + [12];
        } else if ch == LETTER_U {
          var bytes;
          bytes, i := UnescapeUnicode(value, i);
          out := out + bytes;
        } else {
          out := out + [ch];
        }
      }
      i := i + 1;
      assert i == p.next;
    }
  }

  // ---- round trips ---------------------------------------------------------------------

  /** Reading at the end of a prefix sees only what follows it. */
  lemma EscapeReadsBack(pre: seq<byte>, b: byte, rest: seq<byte>)
    ensures PieceAt(pre + EscapeByte(b) + rest, |pre|) == Piece([b], |pre| + |EscapeByte(b)|)
  {
    var e := EscapeByte(b);
    var v := pre + e + rest;
    assert forall k | 0 <= k < |e| :: v[|pre| + k] == e[k];
    if |e| == 6 {
      var at := |pre| + 2;
      assert v[at] == 48 && v[at + 1] == 48 && v[at + 2] == e[4] && v[at + 3] == e[5];
      assert HexAt(v, at, 0) == Hex(0) && HexAt(v, at, 1) == Hex(0) && HexAt(v, at, 2) == Hex(0);
      assert HexAt(v, at, 3) == Hex(b as nat / 16);
      assert HexAt(v, at, 4) == Hex(b as nat);
    }
  }

  /** Unescaping undoes escaping, for every byte string. */
  lemma RoundTrip(s: seq<byte>)
    ensures Unescaped(Escaped(s)) == s
  {
    assert [] + EscapedFrom(s, 0) == Escaped(s);
    RoundTripFrom([], s, 0);
    assert s[0..] == s;
  }

  lemma {:induction false} RoundTripFrom(pre: seq<byte>, s: seq<byte>, i: nat)
    requires i <= |s|
    ensures UnescapedFrom(pre + EscapedFrom(s, i), |pre|) == s[i..]
    decreases |s| - i
  {
    if i < |s| {
      var e, rest := EscapeByte(s[i]), EscapedFrom(s, i + 1);
      var v := pre + EscapedFrom(s, i);
      assert v == (pre + e) + rest by { AppendAssociates(pre, e, rest); }
      assert PieceAt(v, |pre|) == Piece([s[i]], |pre + e|) by { EscapeReadsBack(pre, s[i], rest); }
      assert UnescapedFrom(v, |pre + e|) == s[i + 1..] by { RoundTripFrom(pre + e, s, i + 1); }
      assert s[i..] == [s[i]] + s[i + 1..];
    }
  }

  /** Escaping loses nothing: different strings stay different. */
  lemma EscapeIsInjective(s: seq<byte>, t: seq<byte>)
    requires Escaped(s) == Escaped(t)
    ensures s == t
  {
    RoundTrip(s);
    RoundTrip(t);
  }

  // ---- what a frame may contain --------------------------------------------------------

  /** The body of a JSON string as the frame parser takes it: backslash pairs, and bytes other than the
    * quote and the backslash. */
  predicate IsBody(v: seq<byte>, i: nat)
    requires i <= |v|
    decreases |v| - i
  {
    i == |v| ||
    if v[i] == BACKSLASH then i + 1 < |v| && v[i + 1] != 10 && v[i + 1] != 13 && IsBody(v, i + 2)
    else v[i] != QUOTE && IsBody(v, i + 1)
  }

  /** An escaped string fits between the quotes of a frame whole, and holds no control byte, so it
    * cannot end a line-framed message. */
  lemma {:induction false} EscapedIsBody(pre: seq<byte>, s: seq<byte>, i: nat)
    requires i <= |s|
    ensures IsBody(pre + EscapedFrom(s, i), |pre|)
    decreases |s| - i
  {
    if i < |s| {
      var e, rest := EscapeByte(s[i]), EscapedFrom(s, i + 1);
      var v := pre + EscapedFrom(s, i);
      assert v == (pre + e) + rest by { AppendAssociates(pre, e, rest); }
      EscapedIsBody(pre + e, s, i + 1);
      assert v[|pre|..|pre| + |e|] == e;
      BodyOfEscape(v, |pre|, s[i]);
    }
  }

  lemma {:induction false} EscapedHasNoControls(s: seq<byte>, i: nat, k: nat)
    requires i <= |s| && k < |EscapedFrom(s, i)|
    ensures EscapedFrom(s, i)[k] >= 0x20
    decreases |s| - i
  {
    var e := EscapeByte(s[i]);
    if k >= |e| {
      EscapedHasNoControls(s, i + 1, k - |e|);
    } else {
      assert EscapedFrom(s, i)[k] == e[k];
    }
  }

  /** So the frame parser takes an escaped string whole, and unescaping it gives the string back. */
  lemma FrameRoundTrip(s: seq<byte>)
    ensures IsBody(Escaped(s), 0) && Unescaped(Escaped(s)) == s
    ensures forall k | 0 <= k < |Escaped(s)| :: Escaped(s)[k] >= 0x20
  {
    assert [] + EscapedFrom(s, 0) == Escaped(s);
    EscapedIsBody([], s, 0);
    RoundTrip(s);
    forall k | 0 <= k < |Escaped(s)| ensures Escaped(s)[k] >= 0x20 {
      EscapedHasNoControls(s, 0, k);
    }
  }

  lemma BodyOfEscape(v: seq<byte>, i: nat, b: byte)
    requires i + |EscapeByte(b)| <= |v| && IsBody(v, i + |EscapeByte(b)|)
    requires v[i..i + |EscapeByte(b)|] == EscapeByte(b)
    ensures IsBody(v, i)
  {
    var e := v[i..i + |EscapeByte(b)|];
    assert v[i] == e[0];
    if |e| == 6 {
      assert v[i + 1] == e[1] && v[i + 2] == e[2] && v[i + 3] == e[3] && v[i + 4] == e[4] && v[i + 5] == e[5];
      assert IsBody(v, i + 5) && IsBody(v, i + 4);
      assert IsBody(v, i + 3) && IsBody(v, i + 2);
    } else if |e| == 2 {
      assert v[i + 1] == e[1];
    }
  }

  // ---- \u escapes and UTF-8 -------------------------------------------------------------

  /** How section 7 of RFC 8259 escapes a scalar value: four hex digits in either case, or twelve bytes
    * writing the surrogate pair of a value beyond the first plane. */
  predicate IsScalarEscape(e: seq<byte>, cp: nat) {
    && Scalar(cp)
    && (if cp < 0x10000 then |e| == 6 && Hex4(e, 2) == Hex(cp)
        else
          && |e| == 12 && e[6] == BACKSLASH && e[7] == LETTER_U
          && Hex4(e, 2) == Hex(0xD800 + (cp - 0x10000) / 0x400)
          && Hex4(e, 8) == Hex(0xDC00 + (cp - 0x10000) % 0x400))
    && e[0] == BACKSLASH && e[1] == LETTER_U
  }

  lemma {:induction false} SameHex(a: seq<byte>, i: nat, b: seq<byte>, j: nat, n: nat)
    requires i + n <= |a| && j + n <= |b| && a[i..i + n] == b[j..j + n]
    ensures HexAt(a, i, n) == HexAt(b, j, n)
  {
    if n > 0 {
      assert a[i..i + n - 1] == a[i..i + n][..n - 1] == b[j..j + n - 1];
      SameHex(a, i, b, j, n - 1);
      assert a[i..i + n][n - 1] == b[j..j + n][n - 1];
    }
  }

  /** Wherever it stands, the escape of a scalar value becomes exactly its UTF-8 bytes. */
  lemma ScalarEscapeReads(pre: seq<byte>, e: seq<byte>, rest: seq<byte>, cp: nat)
    requires IsScalarEscape(e, cp)
    ensures PieceAt(pre + e + rest, |pre|) == Piece(Utf8(cp), |pre| + |e|)
  {
    var v := pre + e + rest;
    assert forall k | 0 <= k < |e| :: v[|pre| + k] == e[k];
    assert v[|pre|] == e[0] && v[|pre| + 1] == e[1];
    assert v[|pre|..|pre| + |e|] == e;
    assert v[|pre| + 2..|pre| + 6] == v[|pre|..|pre| + |e|][2..6];
    SameHex(e, 2, v, |pre| + 2, 4);
    if cp >= 0x10000 {
      assert v[|pre| + 8..|pre| + 12] == v[|pre|..|pre| + |e|][8..12];
      SameHex(e, 8, v, |pre| + 8, 4);
      assert v[|pre| + 6] == e[6] && v[|pre| + 7] == e[7];
      var high, low := Hex4(e, 2).value, Hex4(e, 8).value;
      assert HighSurrogate(high) && LowSurrogate(low) && Joined(high, low) == cp;
      assert LowAt(v, |pre| + 6) == Hex(low);
    }
  }

  /** The two-byte escapes of section 7 of RFC 8259. */
  predicate IsShortEscape(e: seq<byte>, cp: nat) {
    && |e| == 2 && e[0] == BACKSLASH
    && (cp == 0x22 || cp == 0x5C || cp == 0x2F || cp == 0x08 || cp == 0x0C || cp == 0x0A || cp == 0x0D || cp == 0x09)
    && e[1] == (if cp == 0x08 then LETTER_B else if cp == 0x0C then LETTER_F else if cp == 0x0A then LETTER_N
                else if cp == 0x0D then LETTER_R else if cp == 0x09 then LETTER_T else cp as byte)
  }

  /** A character that may stand as itself, in UTF-8. */
  predicate IsLiteral(e: seq<byte>, cp: nat) {
    Scalar(cp) && cp >= 0x20 && cp != 0x22 && cp != 0x5C && e == Utf8(cp)
  }

  /** All the ways section 7 of RFC 8259 gives to write one character. */
  predicate IsJsonChar(e: seq<byte>, cp: nat) {
    IsLiteral(e, cp) || IsShortEscape(e, cp) || IsScalarEscape(e, cp)
  }

  /** Bytes other than the backslash pass through. */
  lemma {:induction false} PlainReads(v: seq<byte>, i: nat, j: nat)
    requires i <= j <= |v| && forall k | i <= k < j :: v[k] != BACKSLASH
    ensures UnescapedFrom(v, i) == v[i..j] + UnescapedFrom(v, j)
    decreases j - i
  {
    if i < j {
      PlainReads(v, i + 1, j);
      assert PieceAt(v, i) == Piece([v[i]], i + 1);
      assert v[i..j] == [v[i]] + v[i + 1..j];
      AppendAssociates([v[i]], v[i + 1..j], UnescapedFrom(v, j));
    } else {
      assert v[i..j] == [];
    }
  }

  lemma LiteralHasNoBackslash(e: seq<byte>, cp: nat)
    requires IsLiteral(e, cp)
    ensures forall k | 0 <= k < |e| :: e[k] != BACKSLASH
  {
  }

  lemma LiteralReads(v: seq<byte>, i: nat, e: seq<byte>, cp: nat)
    requires IsLiteral(e, cp) && i + |e| <= |v| && v[i..i + |e|] == e
    ensures UnescapedFrom(v, i) == Utf8(cp) + UnescapedFrom(v, i + |e|)
  {
    LiteralHasNoBackslash(e, cp);
    forall k | i <= k < i + |e| ensures v[k] != BACKSLASH {
      assert v[k] == v[i..i + |e|][k - i];
    }
    PlainReads(v, i, i + |e|);
  }

  lemma ShortEscapeReads(v: seq<byte>, i: nat, e: seq<byte>, cp: nat)
    requires IsShortEscape(e, cp) && i + |e| <= |v| && v[i..i + |e|] == e
    ensures PieceAt(v, i) == Piece(Utf8(cp), i + |e|)
  {
    assert v[i] == v[i..i + |e|][0] && v[i + 1] == v[i..i + |e|][1];
  }

  /** The characters e fill v from position i up to next. */
  ghost predicate StandsAt(v: seq<byte>, i: nat, next: nat, e: seq<byte>) {
    next == i + |e| && next <= |v| && v[i..next] == e
  }

  lemma EscapeReads(v: seq<byte>, i: nat, next: nat, e: seq<byte>, cp: nat)
    requires StandsAt(v, i, next, e) && (IsShortEscape(e, cp) || IsScalarEscape(e, cp))
    ensures i < next && PieceAt(v, i) == Piece(Utf8(cp), next)
  {
    if IsShortEscape(e, cp) {
      ShortEscapeReads(v, i, e, cp);
    } else {
      assert v == v[..i] + e + v[i + |e|..];
      ScalarEscapeReads(v[..i], e, v[i + |e|..], cp);
    }
  }

  /** Wherever it stands and however it is written, a character becomes its UTF-8 bytes. */
  lemma CharReads(v: seq<byte>, i: nat, next: nat, e: seq<byte>, cp: nat)
    requires StandsAt(v, i, next, e) && IsJsonChar(e, cp)
    ensures cp <= 0x10FFFF && UnescapedFrom(v, i) == Utf8(cp) + UnescapedFrom(v, next)
  {
    if IsLiteral(e, cp) {
      LiteralReads(v, i, e, cp);
    } else {
      EscapeReads(v, i, next, e, cp);
      assert i < |v|;
    }
  }

  function Concat(parts: seq<seq<byte>>, i: nat): seq<byte>
    requires i <= |parts|
    decreases |parts| - i
  {
    if i == |parts| then [] else parts[i] + Concat(parts, i + 1)
  }

  predicate AllScalar(text: seq<nat>) {
    forall k | 0 <= k < |text| :: Scalar(text[k])
  }

  function Utf8All(text: seq<nat>, i: nat): seq<byte>
    requires i <= |text| && AllScalar(text)
    decreases |text| - i
  {
    if i == |text| then [] else Utf8(text[i]) + Utf8All(text, i + 1)
  }

  ghost predicate Writes(chars: seq<seq<byte>>, text: seq<nat>) {
    |chars| == |text| && AllScalar(text) && forall k {:trigger IsJsonChar(chars[k], text[k])} | 0 <= k < |text| ::
        IsJsonChar(chars[k], text[k])
  }

  /** Where character k begins. */
  function Offset(chars: seq<seq<byte>>, k: nat): nat
    requires k <= |chars|
  {
    if k == 0 then 0 else Offset(chars, k - 1) + |chars[k - 1]|
  }

  lemma {:induction false} ConcatTail(chars: seq<seq<byte>>, k: nat)
    requires k <= |chars|
    ensures Offset(chars, k) <= |Concat(chars, 0)| && Concat(chars, 0)[Offset(chars, k)..] == Concat(chars, k)
  {
    if k > 0 {
      ConcatTail(chars, k - 1);
      var v, at := Concat(chars, 0), Offset(chars, k - 1);
      assert v[at..] == chars[k - 1] + Concat(chars, k);
      assert v[at + |chars[k - 1]|..] == v[at..][|chars[k - 1]|..];
    }
  }

  /** Character k stands at its offset, whatever k. */
  lemma CharsStand(chars: seq<seq<byte>>)
    ensures forall k: nat | k <= |chars| :: Offset(chars, k) <= |Concat(chars, 0)|
    ensures forall k: nat | k < |chars| :: StandsAt(Concat(chars, 0), Offset(chars, k), Offset(chars, k + 1), chars[k])
  {
    forall k: nat | k <= |chars| ensures Offset(chars, k) <= |Concat(chars, 0)| {
      ConcatTail(chars, k);
    }
    forall k: nat | k < |chars|
      ensures StandsAt(Concat(chars, 0), Offset(chars, k), Offset(chars, k + 1), chars[k])
    {
      CharStands(chars, k);
    }
  }

  lemma CharStands(chars: seq<seq<byte>>, k: nat)
    requires k < |chars|
    ensures StandsAt(Concat(chars, 0), Offset(chars, k), Offset(chars, k + 1), chars[k])
  {
    ConcatTail(chars, k);
    var v, at, e := Concat(chars, 0), Offset(chars, k), chars[k];
    assert v[at..] == e + Concat(chars, k + 1);
    assert v[at..at + |e|] == v[at..][..|e|];
  }

  /** Pieces that each begin with the next character make up the text. */
  lemma {:induction false} TailsMakeText(tails: seq<seq<byte>>, text: seq<nat>, i: nat)
    requires AllScalar(text) && |tails| == |text| + 1 && tails[|text|] == [] && i <= |text|
    requires forall k | 0 <= k < |text| :: tails[k] == Utf8(text[k]) + tails[k + 1]
    ensures tails[i] == Utf8All(text, i)
    decreases |text| - i
  {
    if i < |text| {
      TailsMakeText(tails, text, i + 1);
    }
  }

  /** A JSON string body unescapes to its text in UTF-8, for every Unicode text and every way of
    * writing its characters. */
  lemma TextReadsBack(chars: seq<seq<byte>>, text: seq<nat>)
    requires Writes(chars, text)
    ensures Unescaped(Concat(chars, 0)) == Utf8All(text, 0)
  {
    var v := Concat(chars, 0);
    ConcatTail(chars, |chars|);
    CharsStand(chars);
    var tails := seq(|chars| + 1, k requires 0 <= k <= |chars| => UnescapedFrom(v, Offset(chars, k)));
    forall k: nat | k < |text| ensures tails[k] == Utf8(text[k]) + tails[k + 1] {
      CharReads(v, Offset(chars, k), Offset(chars, k + 1), chars[k], text[k]);
    }
    TailsMakeText(tails, text, 0);
  }

  /** Every scalar value has such an escape. */
  function HexOf(n: nat): (h: seq<byte>)
    requires n < 0x10000
    ensures |h| == 4
  {
    [HexDigit(n / 0x1000), HexDigit(n / 0x100 % 0x10), HexDigit(n / 0x10 % 0x10), HexDigit(n % 0x10)]
  }

  function EscapeScalar(cp: nat): seq<byte>
    requires Scalar(cp)
  {
    if cp < 0x10000 then [BACKSLASH, LETTER_U] + HexOf(cp)
    else [BACKSLASH, LETTER_U] + HexOf(0xD800 + (cp - 0x10000) / 0x400)
         + [BACKSLASH, LETTER_U] + HexOf(0xDC00 + (cp - 0x10000) % 0x400)
  }

  lemma Nibbles(n: nat)
    requires n < 0x10000
    ensures n / 0x100 == n / 0x1000 * 0x10 + n / 0x100 % 0x10
    ensures n / 0x10 == n / 0x100 * 0x10 + n / 0x10 % 0x10
    ensures n == n / 0x10 * 0x10 + n % 0x10
  {
  }

  lemma HexReadsBack(v: seq<byte>, at: nat, n: nat)
    requires n < 0x10000 && at + 4 <= |v| && v[at..at + 4] == HexOf(n)
    ensures Hex4(v, at) == Hex(n)
  {
    var h := v[at..at + 4];
    Nibbles(n);
    assert v[at] == h[0] && v[at + 1] == h[1] && v[at + 2] == h[2] && v[at + 3] == h[3];
    assert HexAt(v, at, 0) == Hex(0);
    assert HexAt(v, at, 1) == Hex(n / 0x1000);
    assert HexAt(v, at, 2) == Hex(n / 0x100);
    assert HexAt(v, at, 3) == Hex(n / 0x10);
  }

  lemma EveryScalarHasAnEscape(cp: nat)
    requires Scalar(cp)
    ensures IsScalarEscape(EscapeScalar(cp), cp)
  {
    var e := EscapeScalar(cp);
    if cp < 0x10000 {
      assert e[2..6] == HexOf(cp);
      HexReadsBack(e, 2, cp);
    } else {
      assert e[2..6] == HexOf(0xD800 + (cp - 0x10000) / 0x400);
      assert e[8..12] == HexOf(0xDC00 + (cp - 0x10000) % 0x400);
      HexReadsBack(e, 2, 0xD800 + (cp - 0x10000) / 0x400);
      HexReadsBack(e, 8, 0xDC00 + (cp - 0x10000) % 0x400);
    }
  }

  ghost predicate EncodesScalar(bytes: seq<byte>) {
    exists cp: nat :: Scalar(cp) && IsUtf8(bytes, cp)
  }

  lemma OnlyScalarsEncodeScalars(cp: nat)
    requires cp <= 0x10FFFF
    ensures EncodesScalar(Utf8(cp)) <==> Scalar(cp)
  {
    Utf8IsRight(cp);
    forall c: nat | Scalar(c) && IsUtf8(Utf8(cp), c)
      ensures c == cp
    {
      Utf8IsUnique(Utf8(cp), Utf8(cp), cp, c);
    }
  }

  /** A \u escape yields the UTF-8 of a scalar value unless it is a surrogate without its other half:
    * those are passed through as three bytes that section 3 of RFC 3629 forbids. */
  lemma UnicodeYieldsScalar(v: seq<byte>, i: nat)
    requires i <= |v| && Hex4(v, i).Hex?
    ensures EncodesScalar(UnicodeAt(v, i).bytes) <==>
            !Surrogate(Hex4(v, i).value) || (HighSurrogate(Hex4(v, i).value) && LowAt(v, i + 4).Hex?)
  {
    Hex4Small(v, i);
    var cp := Hex4(v, i).value;
    if HighSurrogate(cp) && LowAt(v, i + 4).Hex? {
      OnlyScalarsEncodeScalars(Joined(cp, LowAt(v, i + 4).value));
    } else {
      OnlyScalarsEncodeScalars(cp);
    }
  }

  // ---- what escaping makes of a text ---------------------------------------------------

  lemma {:induction false} EscapedShifts(a: seq<byte>, b: seq<byte>, j: nat)
    requires j <= |b|
    ensures EscapedFrom(a + b, |a| + j) == EscapedFrom(b, j)
    decreases |b| - j
  {
    if j < |b| {
      EscapedShifts(a, b, j + 1);
    }
  }

  lemma {:induction false} EscapedSplits(a: seq<byte>, b: seq<byte>, i: nat)
    requires i <= |a|
    ensures EscapedFrom(a + b, i) == EscapedFrom(a, i) + Escaped(b)
    decreases |a| - i
  {
    if i == |a| {
      EscapedShifts(a, b, 0);
    } else {
      EscapedSplits(a, b, i + 1);
      AppendAssociates(EscapeByte(a[i]), EscapedFrom(a, i + 1), Escaped(b));
    }
  }

  lemma {:induction false} HighBytesStay(s: seq<byte>, i: nat)
    requires i <= |s| && forall k | 0 <= k < |s| :: s[k] >= 0x80
    ensures EscapedFrom(s, i) == s[i..]
    decreases |s| - i
  {
    if i < |s| {
      HighBytesStay(s, i + 1);
    }
  }

  /** A character is escaped in one of the ways section 7 of RFC 8259 gives to write it. */
  lemma CharEscapes(cp: nat)
    requires Scalar(cp)
    ensures IsJsonChar(Escaped(Utf8(cp)), cp)
  {
    var u := Utf8(cp);
    if cp < 0x80 {
      var e := EscapeByte(u[0]);
      assert EscapedFrom(u, 1) == [];
      assert Escaped(u) == e;
      if cp < 0x20 && cp != 10 && cp != 13 && cp != 9 {
        assert HexOf(cp) == e[2..6];
        HexReadsBack(e, 2, cp);
      }
    } else {
      HighBytesStay(u, 0);
      assert u[0..] == u;
    }
  }

  /** And in the shortest of them, but for backspace and form feed. */
  lemma EscapeIsShortest(e: seq<byte>, cp: nat)
    requires IsJsonChar(e, cp) && cp != 0x08 && cp != 0x0C
    ensures |Escaped(Utf8(cp))| <= |e|
  {
    var u := Utf8(cp);
    if cp < 0x80 {
      assert EscapedFrom(u, 1) == [];
      assert Escaped(u) == EscapeByte(u[0]);
    } else {
      HighBytesStay(u, 0);
      assert |Escaped(u)| == |u| <= 4;
    }
  }

  /** So the escape of any text, in UTF-8, is a JSON string body of that text. */
  lemma {:induction false} EscapedTextIsJson(text: seq<nat>, chars: seq<seq<byte>>, i: nat)
    requires AllScalar(text) && |chars| == |text| && i <= |text|
    requires forall k | 0 <= k < |text| :: chars[k] == Escaped(Utf8(text[k]))
    ensures Writes(chars, text) && Concat(chars, i) == Escaped(Utf8All(text, i))
    decreases |text| - i
  {
    forall k | 0 <= k < |text| ensures IsJsonChar(chars[k], text[k]) {
      CharEscapes(text[k]);
    }
    if i < |text| {
      EscapedTextIsJson(text, chars, i + 1);
      EscapedSplits(Utf8(text[i]), Utf8All(text, i + 1), 0);
    }
  }
}
