/** Frames between the worker and its transport child: one line of JSON out, one line back, searched by
  * pattern for the fields wanted.
  */
module RemoteFrames {
  import opened JsonCodec
  import opened Sequences

  const OPEN: byte := 123
  const CLOSE: byte := 125
  const COMMA: byte := 44
  const COLON: byte := 58
  const MINUS: byte := 45
  const NEWLINE: byte := 10

  // ---- the patterns --------------------------------------------------------------------

  predicate IsSpace(b: byte) {
    9 <= b <= 13 || b == 32
  }

  predicate IsDigit(b: byte) {
    48 <= b <= 57
  }

  /** Bytes that stand for themselves in a pattern and in a key. */
  predicate IsWordByte(b: byte) {
    IsDigit(b) || 65 <= b <= 90 || 97 <= b <= 122 || b == 95
  }

  predicate IsWord(key: seq<byte>) {
    key != [] && forall k | 0 <= k < |key| :: IsWordByte(key[k])
  }

  /** The bytes s stand in v at position p. */
  predicate Has(v: seq<byte>, p: nat, s: seq<byte>) {
    p + |s| <= |v| && forall k | 0 <= k < |s| :: v[p + k] == s[k]
  }

  /** \s* from i on. */
  function SkipSpace(v: seq<byte>, i: nat): (j: nat)
    requires i <= |v|
    ensures i <= j <= |v| && (forall k | i <= k < j :: IsSpace(v[k])) && (j < |v| ==> !IsSpace(v[j]))
    decreases |v| - i
  {
    if i < |v| && IsSpace(v[i]) then SkipSpace(v, i + 1) else i
  }

  /** Where the value of the key begins if "key"\s*:\s* matches at p. */
  function ValueStart(v: seq<byte>, p: nat, key: seq<byte>): (r: Option<nat>)
    ensures r.Some? ==> p + |key| + 2 < r.value <= |v|
  {
    if p + |key| + 2 <= |v| && v[p] == QUOTE && Has(v, p + 1, key) && v[p + 1 + |key|] == QUOTE then
      var c := SkipSpace(v, p + 2 + |key|);
      if c < |v| && v[c] == COLON then Some(SkipSpace(v, c + 1)) else None
    else None
  }

  /** The closing quote of a string whose body begins at i: the first one that no backslash pair takes. */
  function BodyEnd(v: seq<byte>, i: nat): (r: Option<nat>)
    ensures r.Some? ==> i <= r.value < |v|
    decreases |v| - i
  {
    if i >= |v| then None
    else if v[i] == QUOTE then Some(i)
    else if v[i] == BACKSLASH then
      if i + 1 < |v| && v[i + 1] != 10 && v[i + 1] != 13 then BodyEnd(v, i + 2) else None
    else BodyEnd(v, i + 1)
  }

  function DigitsEnd(v: seq<byte>, i: nat): (j: nat)
    requires i <= |v|
    ensures i <= j <= |v| && (forall k | i <= k < j :: IsDigit(v[k])) && (j < |v| ==> !IsDigit(v[j]))
    decreases |v| - i
  {
    if i < |v| && IsDigit(v[i]) then DigitsEnd(v, i + 1) else i
  }

  /** What a search asks for: a string or a whole number. */
  datatype Kind = TextKind | NumberKind

  datatype Span = Span(lo: nat, hi: nat)

  /** The part of v that the pattern captures if it matches at p. */
  function MatchAt(v: seq<byte>, p: nat, key: seq<byte>, kind: Kind): (r: Option<Span>)
    ensures r.Some? ==> r.value.lo <= r.value.hi <= |v|
  {
    match ValueStart(v, p, key)
    case None => None
    case Some(q) =>
      match kind
      case TextKind =>
        if q < |v| && v[q] == QUOTE && BodyEnd(v, q + 1).Some? then Some(Span(q + 1, BodyEnd(v, q + 1).value)) else None
      case NumberKind =>
        var s := if q < |v| && v[q] == MINUS then q + 1 else q;
        if s < DigitsEnd(v, s) then Some(Span(q, DigitsEnd(v, s))) else None
  }

  /** The search goes through all positions from the front. */
  function Find(v: seq<byte>, p: nat, key: seq<byte>, kind: Kind): (r: Option<Span>)
    ensures r.Some? ==> r.value.lo <= r.value.hi <= |v|
    decreases |v| - p
  {
    if p >= |v| then None
    else if MatchAt(v, p, key, kind).Some? then MatchAt(v, p, key, kind)
    else Find(v, p + 1, key, kind)
  }

  function ExtractString(v: seq<byte>, key: seq<byte>): Option<seq<byte>> {
    match Find(v, 0, key, TextKind)
    case None => None
    case Some(s) => Some(Unescaped(v[s.lo..s.hi]))
  }

  function ExtractLong(v: seq<byte>, key: seq<byte>): Option<int> {
    match Find(v, 0, key, NumberKind)
    case None => None
    case Some(s) => Some(LongOf(v[s.lo..s.hi]))
  }

  // ---- frames --------------------------------------------------------------------------

  /** A value as it is written: the body of a string, or a numeral. */
  datatype Value = Text(body: seq<byte>) | Number(numeral: seq<byte>)

  datatype Field = Field(key: seq<byte>, value: Value)

  predicate IsNumeral(d: seq<byte>) {
    && d != [] && (d[0] == MINUS || IsDigit(d[0])) && (d[0] == MINUS ==> |d| > 1)
    && forall k | 1 <= k < |d| :: IsDigit(d[k])
  }

  predicate FieldRight(f: Field) {
    IsWord(f.key) && match f.value case Text(b) => IsBody(b, 0) case Number(d) => IsNumeral(d)
  }

  function ValueText(value: Value): seq<byte> {
    match value case Text(b) => [QUOTE] + b + [QUOTE] case Number(d) => d
  }

  function FieldText(f: Field): seq<byte> {
    [QUOTE] + f.key + [QUOTE, COLON] + ValueText(f.value)
  }

  /** The fields from i on, each with the comma or brace after it. */
  function FieldsFrom(fs: seq<Field>, i: nat): seq<byte>
    requires i <= |fs|
    decreases |fs| - i
  {
    if i == |fs| then []
    else FieldText(fs[i]) + [if i + 1 < |fs| then COMMA else CLOSE] + FieldsFrom(fs, i + 1)
  }

  function Frame(fs: seq<Field>): seq<byte>
    requires fs != []
  {
    [OPEN] + FieldsFrom(fs, 0)
  }

  predicate NoQuotes(v: seq<byte>) {
    forall k | 0 <= k < |v| :: v[k] != QUOTE
  }

  // ---- where a pattern can match -------------------------------------------------------

  lemma HasParts(v: seq<byte>, p: nat, a: seq<byte>, b: seq<byte>)
    requires Has(v, p, a + b)
    ensures Has(v, p, a) && Has(v, p + |a|, b)
  {
    forall k | 0 <= k < |a| ensures v[p + k] == a[k] {
      assert (a + b)[k] == a[k];
    }
    forall k | 0 <= k < |b| ensures v[p + |a| + k] == b[k] {
      assert (a + b)[|a| + k] == b[k];
    }
  }

  /** In a string body every quote has a backslash right before it. */
  lemma {:induction false} QuotesEscaped(body: seq<byte>, i: nat, j: nat)
    requires i <= j < |body| && IsBody(body, i) && body[j] == QUOTE
    ensures i < j && body[j - 1] == BACKSLASH
    decreases |body| - i
  {
    if body[i] == BACKSLASH {
      if i + 2 <= j {
        QuotesEscaped(body, i + 2, j);
      }
    } else if i < j {
      QuotesEscaped(body, i + 1, j);
    }
  }

  /** v holds the field f at position at, and a comma or brace behind it. */
  ghost predicate Holds(v: seq<byte>, at: nat, f: Field) {
    var end := at + |FieldText(f)|;
    Has(v, at, FieldText(f)) && end < |v| && (v[end] == COMMA || v[end] == CLOSE)
  }

  /** The places of a field's parts. */
  lemma FieldParts(v: seq<byte>, at: nat, f: Field)
    requires Holds(v, at, f)
    ensures var c := at + 1 + |f.key|;
            && at + |FieldText(f)| == c + 2 + |ValueText(f.value)|
            && v[at] == QUOTE && Has(v, at + 1, f.key) && v[c] == QUOTE && v[c + 1] == COLON
            && Has(v, c + 2, ValueText(f.value))
  {
    var k, w := f.key, ValueText(f.value);
    HasParts(v, at, [QUOTE] + k + [QUOTE, COLON], w);
    HasParts(v, at, [QUOTE] + k, [QUOTE, COLON]);
    HasParts(v, at, [QUOTE], k);
    assert v[at + 0] == [QUOTE][0];
    assert v[at + |[QUOTE] + k| + 0] == [QUOTE, COLON][0] && v[at + |[QUOTE] + k| + 1] == [QUOTE, COLON][1];
  }

  lemma TextParts(v: seq<byte>, w: nat, body: seq<byte>)
    requires Has(v, w, [QUOTE] + body + [QUOTE])
    ensures v[w] == QUOTE && Has(v, w + 1, body) && v[w + 1 + |body|] == QUOTE
  {
    HasParts(v, w, [QUOTE] + body, [QUOTE]);
    HasParts(v, w, [QUOTE], body);
    assert v[w + 0] == [QUOTE][0] && v[w + |[QUOTE] + body| + 0] == [QUOTE][0];
  }

  /** At the opening quote of a key only that very key matches. */
  lemma KeyMatches(v: seq<byte>, at: nat, own: seq<byte>, key: seq<byte>)
    requires IsWord(own) && IsWord(key) && at + 1 + |own| < |v|
    requires v[at] == QUOTE && Has(v, at + 1, own) && v[at + 1 + |own|] == QUOTE
    ensures ValueStart(v, at, key).Some? ==> own == key
  {
    if ValueStart(v, at, key).Some? {
      assert |key| < |own| ==> IsWordByte(v[at + 1 + |key|]) by {
        assert |key| < |own| ==> v[at + 1 + |key|] == own[|key|];
      }
      assert |own| < |key| ==> IsWordByte(v[at + 1 + |own|]) by {
        assert |own| < |key| ==> v[at + 1 + |own|] == key[|own|];
      }
      forall k | 0 <= k < |own| && |own| == |key| ensures own[k] == key[k] {
        assert v[at + 1 + k] == own[k];
      }
    }
  }

  /** No key starts at a quote after which no word byte stands. */
  lemma NoWordNoMatch(v: seq<byte>, p: nat, key: seq<byte>)
    requires IsWord(key) && (p + 1 < |v| ==> !IsWordByte(v[p + 1]))
    ensures ValueStart(v, p, key).None?
  {
    KeyByte(v, p, key, 0);
  }

  /** Where a key matches there are word bytes behind the quote. */
  lemma KeyByte(v: seq<byte>, p: nat, key: seq<byte>, k: nat)
    requires IsWord(key) && k < |key|
    ensures ValueStart(v, p, key).Some? ==> p + 1 + k < |v| && IsWordByte(v[p + 1 + k])
  {
    if ValueStart(v, p, key).Some? {
      assert v[p + 1 + k] == key[k];
    }
  }

  /** Nothing in a string value looks like a key: an escaped quote cannot end one, and after the closing
    * quote there is no colon. */
  lemma TextHidesNoKey(v: seq<byte>, w: nat, body: seq<byte>, p: nat, key: seq<byte>)
    requires IsBody(body, 0) && IsWord(key) && Has(v, w, [QUOTE] + body + [QUOTE])
    requires var e := w + 1 + |body|; e + 1 < |v| && (v[e + 1] == COMMA || v[e + 1] == CLOSE) && w <= p <= e
    ensures ValueStart(v, p, key).None?
  {
    var e := w + 1 + |body|;
    TextParts(v, w, body);
    if p == e {
      NoWordNoMatch(v, p, key);
    } else {
      var q := p + 1 + |key|;
      if q < e {
        EscapedIsNoEnd(v, w, body, p, key);
      } else if q == e {
        assert SkipSpace(v, e + 1) == e + 1;
      } else {
        QuoteInKey(v, p, key, e);
      }
    }
  }

  lemma EscapedIsNoEnd(v: seq<byte>, w: nat, body: seq<byte>, p: nat, key: seq<byte>)
    requires IsBody(body, 0) && IsWord(key) && Has(v, w + 1, body) && w <= p && p + 1 + |key| < w + 1 + |body|
    ensures ValueStart(v, p, key).None?
  {
    var j := p + |key| - w;
    assert v[w + 1 + j] == body[j];
    if body[j] == QUOTE {
      QuotesEscaped(body, 0, j);
      assert v[w + 1 + (j - 1)] == body[j - 1];
    }
    KeyByte(v, p, key, |key| - 1);
  }

  lemma QuoteInKey(v: seq<byte>, p: nat, key: seq<byte>, e: nat)
    requires IsWord(key) && p < e < p + 1 + |key| && e < |v| && v[e] == QUOTE
    ensures ValueStart(v, p, key).None?
  {
    KeyByte(v, p, key, e - p - 1);
  }

  /** Inside a field a key matches only at the front, and only if it is the field's own. */
  lemma OnlyOwnKey(v: seq<byte>, at: nat, f: Field, p: nat, key: seq<byte>)
    requires FieldRight(f) && IsWord(key) && Holds(v, at, f) && at <= p <= at + |FieldText(f)|
    ensures ValueStart(v, p, key).Some? ==> p == at && f.key == key
  {
    FieldParts(v, at, f);
    var c := at + 1 + |f.key|;
    if p == at {
      KeyMatches(v, at, f.key, key);
    } else if p < c {
      assert v[at + 1 + (p - at - 1)] == f.key[p - at - 1];
    } else if p == c {
      NoWordNoMatch(v, p, key);
    } else if c + 2 <= p < at + |FieldText(f)| {
      match f.value
      case Text(b) => TextHidesNoKey(v, c + 2, b, p, key);
      case Number(d) => assert v[c + 2 + (p - c - 2)] == d[p - c - 2];
    }
  }

  /** The field's own key finds its value. */
  lemma OwnKeyMatches(v: seq<byte>, at: nat, f: Field)
    requires FieldRight(f) && Holds(v, at, f)
    ensures ValueStart(v, at, f.key) == Some(at + |f.key| + 3)
  {
    FieldParts(v, at, f);
    var w := at + |f.key| + 3;
    assert SkipSpace(v, w - 1) == w - 1;
    assert v[w + 0] == ValueText(f.value)[0];
    assert SkipSpace(v, w) == w;
  }

  lemma {:induction false} BodyEndsAtQuote(v: seq<byte>, i: nat, body: seq<byte>, j: nat)
    requires j <= |body| && IsBody(body, j) && Has(v, i, body) && i + |body| < |v| && v[i + |body|] == QUOTE
    ensures BodyEnd(v, i + j) == Some(i + |body|)
    decreases |body| - j
  {
    if j < |body| {
      assert v[i + j] == body[j];
      if body[j] == BACKSLASH {
        assert v[i + (j + 1)] == body[j + 1];
        BodyEndsAtQuote(v, i, body, j + 2);
      } else {
        BodyEndsAtQuote(v, i, body, j + 1);
      }
    }
  }

  lemma NumeralEnds(v: seq<byte>, w: nat, d: seq<byte>)
    requires IsNumeral(d) && Has(v, w, d) && w + |d| < |v| && !IsDigit(v[w + |d|])
    ensures DigitsEnd(v, if v[w] == MINUS then w + 1 else w) == w + |d|
  {
    var s := if v[w] == MINUS then w + 1 else w;
    assert v[w + 0] == d[0];
    forall k | s <= k < w + |d| ensures IsDigit(v[k]) {
      assert v[w + (k - w)] == d[k - w];
    }
    DigitsEndAt(v, s, w + |d|);
  }

  lemma DigitsEndAt(v: seq<byte>, s: nat, e: nat)
    requires s <= e < |v| && !IsDigit(v[e]) && forall k | s <= k < e :: IsDigit(v[k])
    ensures DigitsEnd(v, s) == e
  {
    var j := DigitsEnd(v, s);
    assert j < |v| ==> !IsDigit(v[j]);
  }

  /** What the search captures at a field of the right key: its value, if it is of the right kind. */
  lemma FieldCaptured(v: seq<byte>, at: nat, f: Field, kind: Kind)
    requires FieldRight(f) && Holds(v, at, f)
    ensures var w := at + |f.key| + 3;
            MatchAt(v, at, f.key, kind)
            == match f.value
               case Text(b) => if kind.TextKind? then Some(Span(w + 1, w + 1 + |b|)) else None
               case Number(d) => if kind.NumberKind? then Some(Span(w, w + |d|)) else None
  {
    FieldParts(v, at, f);
    OwnKeyMatches(v, at, f);
    var w := at + |f.key| + 3;
    match f.value
    case Text(b) =>
      TextParts(v, w, b);
      BodyEndsAtQuote(v, w + 1, b, 0);
      assert DigitsEnd(v, w) == w;
    case Number(d) =>
      assert v[w + 0] == d[0];
      NumeralEnds(v, w, d);
  }

  // ---- numbers -------------------------------------------------------------------------

  const LONG_MAX: int := 0x7FFF_FFFF_FFFF_FFFF

  function DigitsValue(d: seq<byte>, n: nat): nat
    requires n <= |d|
  {
    if n == 0 then 0 else DigitsValue(d, n - 1) * 10 + if IsDigit(d[n - 1]) then (d[n - 1] - 48) as nat else 0
  }

  /** strtol saturates. */
  function Saturated(z: int): int {
    if z > LONG_MAX then LONG_MAX else if z < -LONG_MAX - 1 then -LONG_MAX - 1 else z
  }

  function LongOf(d: seq<byte>): int {
    if d != [] && d[0] == MINUS then Saturated(0 - DigitsValue(d, |d|)) else Saturated(DigitsValue(d, |d|))
  }

  // ---- a search reads the field of its key ---------------------------------------------

  lemma {:induction false} FindSkips(v: seq<byte>, p: nat, q: nat, key: seq<byte>, kind: Kind)
    requires p <= q && forall x: nat | p <= x < q :: ValueStart(v, x, key).None?
    ensures Find(v, p, key, kind) == Find(v, q, key, kind)
    decreases q - p
  {
    if p < q {
      assert ValueStart(v, p, key).None?;
      FindSkips(v, p + 1, q, key, kind);
    }
  }

  predicate Fits(value: Value, kind: Kind) {
    value.Text? <==> kind.TextKind?
  }

  /** The first field from i on that has the key and a value of the kind asked for. */
  function FirstOf(fs: seq<Field>, i: nat, key: seq<byte>, kind: Kind): Option<Value>
    requires i <= |fs|
    decreases |fs| - i
  {
    if i == |fs| then None
    else if fs[i].key == key && Fits(fs[i].value, kind) then Some(fs[i].value)
    else FirstOf(fs, i + 1, key, kind)
  }

  function Inner(value: Value): seq<byte> {
    match value case Text(b) => b case Number(d) => d
  }

  /** The span found holds the value. */
  ghost predicate Captures(v: seq<byte>, found: Option<Span>, value: Option<Value>)
    requires found.Some? ==> found.value.lo <= found.value.hi <= |v|
  {
    && (found.Some? <==> value.Some?)
    && (found.Some? ==> v[found.value.lo..found.value.hi] == Inner(value.value))
  }

  ghost predicate QuietFrom(v: seq<byte>, e: nat) {
    forall k | e <= k < |v| :: v[k] != QUOTE
  }

  lemma CapturedAt(v: seq<byte>, at: nat, f: Field, kind: Kind)
    requires FieldRight(f) && Holds(v, at, f)
    ensures Captures(v, MatchAt(v, at, f.key, kind), if Fits(f.value, kind) then Some(f.value) else None)
  {
    FieldCaptured(v, at, f, kind);
    FieldParts(v, at, f);
    var w := at + |f.key| + 3;
    if Fits(f.value, kind) {
      match f.value
      case Text(b) =>
        TextParts(v, w, b);
        assert v[w + 1..w + 1 + |b|] == b;
      case Number(d) =>
        assert v[w..w + |d|] == d;
    }
  }

  lemma FieldStands(v: seq<byte>, at: nat, fs: seq<Field>, i: nat)
    requires i < |fs| && Has(v, at, FieldsFrom(fs, i))
    ensures Holds(v, at, fs[i]) && Has(v, at + |FieldText(fs[i])| + 1, FieldsFrom(fs, i + 1))
  {
    var sep := [if i + 1 < |fs| then COMMA else CLOSE];
    HasParts(v, at, FieldText(fs[i]) + sep, FieldsFrom(fs, i + 1));
    HasParts(v, at, FieldText(fs[i]), sep);
    assert v[at + |FieldText(fs[i])| + 0] == sep[0];
  }

  lemma {:induction false} FieldsSearched(v: seq<byte>, fs: seq<Field>, i: nat, at: nat, key: seq<byte>, kind: Kind)
    requires (forall k | 0 <= k < |fs| :: FieldRight(fs[k])) && IsWord(key) && i <= |fs|
    requires Has(v, at, FieldsFrom(fs, i)) && QuietFrom(v, at + |FieldsFrom(fs, i)|)
    ensures Captures(v, Find(v, at, key, kind), FirstOf(fs, i, key, kind))
    decreases |fs| - i
  {
    if i == |fs| {
      FindSkips(v, at, |v|, key, kind);
    } else {
      var f := fs[i];
      var next := at + |FieldText(f)| + 1;
      FieldStands(v, at, fs, i);
      assert QuietFrom(v, next + |FieldsFrom(fs, i + 1)|);
      FieldsSearched(v, fs, i + 1, next, key, kind);
      forall p: nat | at < p < next ensures ValueStart(v, p, key).None? {
        OnlyOwnKey(v, at, f, p, key);
      }
      FindSkips(v, at + 1, next, key, kind);
      OnlyOwnKey(v, at, f, at, key);
      if f.key == key {
        CapturedAt(v, at, f, kind);
      }
    }
  }

  /** A search over a whole frame yields the first field that has the key and a value of the right kind, and
    * nothing if there is none: whatever the string values hold, none of it is taken for a field. */
  lemma FrameRead(fs: seq<Field>, tail: seq<byte>, key: seq<byte>, kind: Kind)
    requires fs != [] && (forall k | 0 <= k < |fs| :: FieldRight(fs[k])) && IsWord(key) && NoQuotes(tail)
    ensures Captures(Frame(fs) + tail, Find(Frame(fs) + tail, 0, key, kind), FirstOf(fs, 0, key, kind))
  {
    var v := Frame(fs) + tail;
    assert Has(v, 1, FieldsFrom(fs, 0));
    FieldsSearched(v, fs, 0, 1, key, kind);
    assert v[0] == OPEN;
    FindSkips(v, 0, 1, key, kind);
  }

  // ---- numerals ------------------------------------------------------------------------

  function Decimal(n: nat): (d: seq<byte>)
    ensures d != [] && forall k | 0 <= k < |d| :: IsDigit(d[k])
  {
    if n < 10 then [(48 + n) as byte] else Decimal(n / 10) + [(48 + n % 10) as byte]
  }

  function NumeralOf(z: int): seq<byte> {
    if z < 0 then [MINUS] + Decimal(-z) else Decimal(z)
  }

  lemma {:induction false} DigitsValueFront(a: seq<byte>, b: seq<byte>, n: nat)
    requires n <= |a|
    ensures DigitsValue(a + b, n) == DigitsValue(a, n)
  {
    if n > 0 {
      DigitsValueFront(a, b, n - 1);
    }
  }

  lemma {:induction false} DecimalValue(n: nat)
    ensures DigitsValue(Decimal(n), |Decimal(n)|) == n
  {
    if n < 10 {
      assert DigitsValue(Decimal(n), 0) == 0;
    } else {
      DecimalValue(n / 10);
      var d, last := Decimal(n / 10), [(48 + n % 10) as byte];
      DigitsValueFront(d, last, |d|);
      assert Decimal(n) == d + last;
    }
  }

  lemma {:induction false} DigitsValueBehindSign(d: seq<byte>, n: nat)
    requires n <= |d|
    ensures DigitsValue([MINUS] + d, n + 1) == DigitsValue(d, n)
  {
    if n > 0 {
      DigitsValueBehindSign(d, n - 1);
    } else {
      assert DigitsValue([MINUS] + d, 0) == 0;
    }
  }

  /** A printed number is read back, up to the range of a long. */
  lemma NumeralReadsBack(z: int)
    ensures IsNumeral(NumeralOf(z)) && LongOf(NumeralOf(z)) == Saturated(z)
  {
    var d := Decimal(if z < 0 then -z else z);
    DecimalValue(if z < 0 then -z else z);
    if z < 0 {
      DigitsValueBehindSign(d, |d|);
    }
  }

  // ---- responses -----------------------------------------------------------------------

  const STATUS: seq<byte> := [115, 116, 97, 116, 117, 115]
  const TEXT: seq<byte> := [116, 101, 120, 116]
  const ERROR: seq<byte> := [101, 114, 114, 111, 114]
  const PROMPT: seq<byte> := [112, 114, 111, 109, 112, 116]
  const ENDPOINT: seq<byte> := [101, 110, 100, 112, 111, 105, 110, 116]

  datatype Response = Response(status: int, text: seq<byte>, error: seq<byte>)

  predicate IsBlank(b: byte) {
    b == 13 || b == NEWLINE || b == 32 || b == 9
  }

  /** The length of v without the blanks at its end. */
  function SolidLength(v: seq<byte>, n: nat): (m: nat)
    requires n <= |v|
    ensures m <= n && (m > 0 ==> !IsBlank(v[m - 1])) && forall k | m <= k < n :: IsBlank(v[k])
  {
    if n > 0 && IsBlank(v[n - 1]) then SolidLength(v, n - 1) else n
  }

  /** Where the line begins that holds the last of the first n bytes. */
  function LineStart(v: seq<byte>, n: nat): (m: nat)
    requires n <= |v|
    ensures m <= n && (m > 0 ==> v[m - 1] == NEWLINE) && forall k | m <= k < n :: v[k] != NEWLINE
  {
    if n > 0 && v[n - 1] != NEWLINE then LineStart(v, n - 1) else n
  }

  function OrEmpty(s: Option<seq<byte>>): seq<byte> {
    if s.Some? then s.value else []
  }

  /** What the worker makes of a child's output: its last line, if that has a status. */
  function ParseResponse(output: seq<byte>): Option<Response> {
    var n := SolidLength(output, |output|);
    if n == 0 then None
    else
      var line := output[LineStart(output, n)..];
      match ExtractLong(line, STATUS)
      case None => None
      case Some(z) => Some(Response(z, OrEmpty(ExtractString(line, TEXT)), OrEmpty(ExtractString(line, ERROR))))
  }

  function ReplyFields(status: int, text: seq<byte>, error: seq<byte>): seq<Field> {
    [Field(STATUS, Number(NumeralOf(status))), Field(TEXT, Text(text)), Field(ERROR, Text(error))]
  }

  function RequestFields(prompt: seq<byte>, endpoint: seq<byte>): seq<Field> {
    [Field(PROMPT, Text(Escaped(prompt))), Field(ENDPOINT, Text(Escaped(endpoint)))]
  }

  predicate OneLine(v: seq<byte>) {
    forall k | 0 <= k < |v| :: v[k] != NEWLINE
  }

  lemma OneLineSum(a: seq<byte>, b: seq<byte>)
    requires OneLine(a) && OneLine(b)
    ensures OneLine(a + b)
  {
  }

  lemma FieldOneLine(f: Field)
    requires FieldRight(f) && OneLine(Inner(f.value))
    ensures OneLine(FieldText(f))
  {
    assert OneLine(f.key);
    OneLineSum([QUOTE], Inner(f.value));
    OneLineSum([QUOTE] + Inner(f.value), [QUOTE]);
    OneLineSum([QUOTE], f.key);
    OneLineSum([QUOTE] + f.key, [QUOTE, COLON]);
    OneLineSum([QUOTE] + f.key + [QUOTE, COLON], ValueText(f.value));
  }

  lemma {:induction false} FieldsOneLine(fs: seq<Field>, i: nat)
    requires i <= |fs|
    requires forall k | 0 <= k < |fs| :: FieldRight(fs[k]) && OneLine(Inner(fs[k].value))
    ensures OneLine(FieldsFrom(fs, i))
    decreases |fs| - i
  {
    if i < |fs| {
      FieldsOneLine(fs, i + 1);
      FieldOneLine(fs[i]);
      var sep := [if i + 1 < |fs| then COMMA else CLOSE];
      OneLineSum(FieldText(fs[i]), sep);
      OneLineSum(FieldText(fs[i]) + sep, FieldsFrom(fs, i + 1));
    }
  }

  lemma {:induction false} FieldsEnd(fs: seq<Field>, i: nat)
    requires i < |fs|
    ensures FieldsFrom(fs, i) != [] && FieldsFrom(fs, i)[|FieldsFrom(fs, i)| - 1] == CLOSE
    decreases |fs| - i
  {
    var front := FieldText(fs[i]) + [if i + 1 < |fs| then COMMA else CLOSE];
    assert front[|front| - 1] == if i + 1 < |fs| then COMMA else CLOSE;
    if i + 1 < |fs| {
      FieldsEnd(fs, i + 1);
    } else {
      assert FieldsFrom(fs, i) == front + [] == front;
    }
  }

  lemma {:induction false} SolidLengthAt(v: seq<byte>, n: nat, e: nat)
    requires 0 < e <= n <= |v| && !IsBlank(v[e - 1]) && forall k | e <= k < n :: IsBlank(v[k])
    ensures SolidLength(v, n) == e
  {
    if e < n {
      SolidLengthAt(v, n - 1, e);
    }
  }

  lemma {:induction false} LineStartAt(v: seq<byte>, n: nat, m: nat)
    requires m <= n <= |v| && (m > 0 ==> v[m - 1] == NEWLINE) && forall k | m <= k < n :: v[k] != NEWLINE
    ensures LineStart(v, n) == m
  {
    if m < n {
      LineStartAt(v, n - 1, m);
    }
  }

  /** The last line of an output is found whatever lines come before and blanks behind it. */
  lemma LastLine(pre: seq<byte>, line: seq<byte>, tail: seq<byte>)
    requires pre != [] ==> pre[|pre| - 1] == NEWLINE
    requires line != [] && OneLine(line) && !IsBlank(line[|line| - 1]) && forall k | 0 <= k < |tail| :: IsBlank(tail[k])
    ensures var v := pre + line + tail;
            var n := SolidLength(v, |v|);
            n > 0 && v[LineStart(v, n)..] == line + tail
  {
    var v, e := pre + line + tail, |pre| + |line|;
    SolidLengthAt(v, |v|, e);
    LineStartAt(v, e, |pre|);
  }

  lemma SearchReads(fs: seq<Field>, tail: seq<byte>, key: seq<byte>)
    requires fs != [] && (forall k | 0 <= k < |fs| :: FieldRight(fs[k])) && IsWord(key) && NoQuotes(tail)
    ensures var r := ExtractString(Frame(fs) + tail, key);
            r == match FirstOf(fs, 0, key, TextKind) case None => None case Some(w) => Some(Unescaped(Inner(w)))
    ensures var r := ExtractLong(Frame(fs) + tail, key);
            r == match FirstOf(fs, 0, key, NumberKind) case None => None case Some(w) => Some(LongOf(Inner(w)))
  {
    FrameRead(fs, tail, key, TextKind);
    FrameRead(fs, tail, key, NumberKind);
  }

  /** The reply of the child is read back whole, whatever its strings hold: none of them can pass for a status
    * or for another field. */
  lemma ReplyReads(pre: seq<byte>, status: int, text: seq<byte>, error: seq<byte>, tail: seq<byte>)
    requires pre != [] ==> pre[|pre| - 1] == NEWLINE
    requires IsBody(text, 0) && OneLine(text) && IsBody(error, 0) && OneLine(error)
    requires forall k | 0 <= k < |tail| :: IsBlank(tail[k])
    ensures ParseResponse(pre + Frame(ReplyFields(status, text, error)) + tail)
            == Some(Response(Saturated(status), Unescaped(text), Unescaped(error)))
  {
    ReplyStands(status, text, error);
    LastLine(pre, Frame(ReplyFields(status, text, error)), tail);
    StatusReads(status, text, error, tail);
    TextReads(status, text, error, tail);
    ErrorReads(status, text, error, tail);
  }

  lemma StatusReads(status: int, text: seq<byte>, error: seq<byte>, tail: seq<byte>)
    requires IsBody(text, 0) && OneLine(text) && IsBody(error, 0) && OneLine(error) && NoQuotes(tail)
    ensures ExtractLong(Frame(ReplyFields(status, text, error)) + tail, STATUS) == Some(Saturated(status))
  {
    ReplyStands(status, text, error);
    ReplyFirsts(status, text, error);
    NumeralReadsBack(status);
    SearchReads(ReplyFields(status, text, error), tail, STATUS);
  }

  lemma TextReads(status: int, text: seq<byte>, error: seq<byte>, tail: seq<byte>)
    requires IsBody(text, 0) && OneLine(text) && IsBody(error, 0) && OneLine(error) && NoQuotes(tail)
    ensures ExtractString(Frame(ReplyFields(status, text, error)) + tail, TEXT) == Some(Unescaped(text))
  {
    ReplyStands(status, text, error);
    ReplyFirsts(status, text, error);
    SearchReads(ReplyFields(status, text, error), tail, TEXT);
  }

  lemma ErrorReads(status: int, text: seq<byte>, error: seq<byte>, tail: seq<byte>)
    requires IsBody(text, 0) && OneLine(text) && IsBody(error, 0) && OneLine(error) && NoQuotes(tail)
    ensures ExtractString(Frame(ReplyFields(status, text, error)) + tail, ERROR) == Some(Unescaped(error))
  {
    ReplyStands(status, text, error);
    ReplyFirsts(status, text, error);
    SearchReads(ReplyFields(status, text, error), tail, ERROR);
  }

  lemma ReplyStands(status: int, text: seq<byte>, error: seq<byte>)
    requires IsBody(text, 0) && OneLine(text) && IsBody(error, 0) && OneLine(error)
    ensures var fs := ReplyFields(status, text, error);
            && (forall k | 0 <= k < |fs| :: FieldRight(fs[k]))
            && OneLine(Frame(fs)) && !IsBlank(Frame(fs)[|Frame(fs)| - 1])
  {
    var fs := ReplyFields(status, text, error);
    NumeralReadsBack(status);
    assert OneLine(NumeralOf(status)) && IsWord(STATUS) && IsWord(TEXT) && IsWord(ERROR);
    FieldsOneLine(fs, 0);
    FieldsEnd(fs, 0);
    OneLineSum([OPEN], FieldsFrom(fs, 0));
  }

  lemma ReplyFirsts(status: int, text: seq<byte>, error: seq<byte>)
    ensures var fs := ReplyFields(status, text, error);
            && FirstOf(fs, 0, STATUS, NumberKind) == Some(Number(NumeralOf(status)))
            && FirstOf(fs, 0, TEXT, TextKind) == Some(Text(text))
            && FirstOf(fs, 0, ERROR, TextKind) == Some(Text(error))
  {
    var fs := ReplyFields(status, text, error);
    assert |STATUS| == 6 && |TEXT| == 4 && |ERROR| == 5;
    assert FirstOf(fs, 2, ERROR, TextKind) == Some(Text(error));
    assert FirstOf(fs, 1, ERROR, TextKind) == FirstOf(fs, 2, ERROR, TextKind);
  }

  /** A request frame gives back the very prompt and endpoint. */
  lemma RequestReads(prompt: seq<byte>, endpoint: seq<byte>)
    ensures var v := Frame(RequestFields(prompt, endpoint)) + [NEWLINE];
            ExtractString(v, PROMPT) == Some(prompt) && ExtractString(v, ENDPOINT) == Some(endpoint)
  {
    var fs := RequestFields(prompt, endpoint);
    FrameRoundTrip(prompt);
    FrameRoundTrip(endpoint);
    SearchReads(fs, [NEWLINE], PROMPT);
    SearchReads(fs, [NEWLINE], ENDPOINT);
    assert |PROMPT| == 6 && |ENDPOINT| == 8;
    assert FirstOf(fs, 1, ENDPOINT, TextKind) == Some(fs[1].value);
  }

  // ---- replies as JSON writes them -----------------------------------------------------

  lemma {:induction false} HexBytes(v: seq<byte>, at: nat, n: nat, k: nat)
    requires at + n <= |v| && k < n && HexAt(v, at, n).Hex?
    ensures HexValue(v[at + k]) < 16
  {
    if k < n - 1 {
      HexBytes(v, at, n - 1, k);
    }
  }

  predicate PlainByte(b: byte) {
    b != QUOTE && b != BACKSLASH && b != NEWLINE
  }

  /** However a character is written, what it leaves of a body is a body. */
  lemma CharIsBody(v: seq<byte>, i: nat, next: nat, e: seq<byte>, cp: nat)
    requires StandsAt(v, i, next, e) && IsJsonChar(e, cp) && IsBody(v, next)
    ensures IsBody(v, i) && OneLine(e)
  {
    forall k | 0 <= k < |e| ensures v[i + k] == e[k] {
      assert v[i..next][k] == e[k];
    }
    if IsLiteral(e, cp) {
      assert forall k | 0 <= k < |e| :: e[k] != QUOTE && e[k] != BACKSLASH && e[k] != 10;
      PlainIsBody(v, i, next);
    } else if IsShortEscape(e, cp) {
      assert v[i + 0] == e[0] && v[i + 1] == e[1];
    } else {
      ScalarIsBody(v, i, next, e, cp);
    }
  }

  lemma {:induction false} PlainIsBody(v: seq<byte>, i: nat, next: nat)
    requires i <= next <= |v| && IsBody(v, next) && forall k | i <= k < next :: v[k] != QUOTE && v[k] != BACKSLASH
    ensures IsBody(v, i)
    decreases next - i
  {
    if i < next {
      PlainIsBody(v, i + 1, next);
    }
  }

  lemma EscapePairIsBody(v: seq<byte>, i: nat)
    requires i + 6 <= |v| && v[i] == BACKSLASH && v[i + 1] == LETTER_U && IsBody(v, i + 6)
    requires forall k | i + 2 <= k < i + 6 :: v[k] != QUOTE && v[k] != BACKSLASH
    ensures IsBody(v, i)
  {
    PlainIsBody(v, i + 2, i + 6);
  }

  lemma ScalarIsBody(v: seq<byte>, i: nat, next: nat, e: seq<byte>, cp: nat)
    requires StandsAt(v, i, next, e) && IsScalarEscape(e, cp) && IsBody(v, next)
    requires forall k | 0 <= k < |e| :: v[i + k] == e[k]
    ensures IsBody(v, i) && OneLine(e)
  {
    forall k: nat | k < |e| && 2 <= k && k != 6 && k != 7 ensures PlainByte(e[k]) {
      if k < 6 {
        HexBytes(e, 2, 4, k - 2);
      } else {
        HexBytes(e, 8, 4, k - 8);
      }
    }
    assert v[i + 0] == BACKSLASH && v[i + 1] == LETTER_U;
    if |e| == 12 {
      assert v[i + 6] == BACKSLASH && v[i + 7] == LETTER_U;
      forall k | i + 8 <= k < i + 12 ensures v[k] != QUOTE && v[k] != BACKSLASH {
        assert v[i + (k - i)] == e[k - i];
      }
      EscapePairIsBody(v, i + 6);
    }
    forall k | i + 2 <= k < i + 6 ensures v[k] != QUOTE && v[k] != BACKSLASH {
      assert v[i + (k - i)] == e[k - i];
    }
    EscapePairIsBody(v, i);
  }

  /** A written text is the body of a string and stays on one line. */
  lemma {:induction false} TextIsBody(chars: seq<seq<byte>>, text: seq<nat>, k: nat)
    requires Writes(chars, text) && k <= |chars|
    ensures Offset(chars, k) <= |Concat(chars, 0)| && IsBody(Concat(chars, 0), Offset(chars, k))
    ensures OneLine(Concat(chars, k))
    decreases |chars| - k
  {
    CharsStand(chars);
    ConcatTail(chars, |chars|);
    if k < |chars| {
      TextIsBody(chars, text, k + 1);
      assert IsJsonChar(chars[k], text[k]);
      CharIsBody(Concat(chars, 0), Offset(chars, k), Offset(chars, k + 1), chars[k], text[k]);
      OneLineSum(chars[k], Concat(chars, k + 1));
    }
  }

  /** So the worker gets the child's status, text and error exactly, for every Unicode text and every way of
    * writing it in JSON. */
  lemma ReplyTextReads(pre: seq<byte>, status: int, chars: seq<seq<byte>>, text: seq<nat>,
                       errorChars: seq<seq<byte>>, error: seq<nat>, tail: seq<byte>)
    requires pre != [] ==> pre[|pre| - 1] == NEWLINE
    requires Writes(chars, text) && Writes(errorChars, error) && forall k | 0 <= k < |tail| :: IsBlank(tail[k])
    ensures ParseResponse(pre + Frame(ReplyFields(status, Concat(chars, 0), Concat(errorChars, 0))) + tail)
            == Some(Response(Saturated(status), Utf8All(text, 0), Utf8All(error, 0)))
  {
    TextIsBody(chars, text, 0);
    TextIsBody(errorChars, error, 0);
    ReplyReads(pre, status, Concat(chars, 0), Concat(errorChars, 0), tail);
    TextReadsBack(chars, text);
    TextReadsBack(errorChars, error);
  }
}
