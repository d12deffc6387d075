/** The value of the sw entry in a tracestate header: internal/w3cfmt/w3cfmt.go. */
module W3cFormat {

  type Byte = b: int | 0 <= b < 256

  type SpanId = id: seq<Byte> | |id| == 8 witness [0, 0, 0, 0, 0, 0, 0, 0]

  datatype SwTraceState = SwTraceState(isValid: bool, spanId: string, flags: Byte)

  const INVALID := SwTraceState(false, "", 0)

  predicate IsSampled(flags: Byte) {
    flags % 2 == 1
  }

  // ---------- lowercase hexadecimal ----------

  function HexDigit(n: int): char
    requires 0 <= n < 16
  {
    "0123456789abcdef"[n]
  }

  predicate IsHexDigit(c: char) {
    '0' <= c <= '9' || 'a' <= c <= 'f'
  }

  function HexValue(c: char): (n: int)
    requires IsHexDigit(c)
    ensures 0 <= n < 16
  {
    if c <= '9' then c as int - '0' as int else c as int - 'a' as int + 10
  }

  predicate AllHex(s: string) {
    forall i :: 0 <= i < |s| ==> IsHexDigit(s[i])
  }

  /** The two digits of a byte. */
  function HexOf(b: Byte): string {
    [HexDigit(b / 16), HexDigit(b % 16)]
  }

  function HexByte(c: char, d: char): (b: Byte)
    requires IsHexDigit(c) && IsHexDigit(d)
    ensures b / 16 == HexValue(c) && b % 16 == HexValue(d)
  {
    16 * HexValue(c) + HexValue(d)
  }

  function ToHex(bs: seq<Byte>): string {
    if bs == [] then [] else HexOf(bs[0]) + ToHex(bs[1..])
  }

  function FromHex(s: string): seq<Byte>
    requires AllHex(s)
  {
    if |s| < 2 then [] else [HexByte(s[0], s[1])] + FromHex(s[2..])
  }

  lemma HexOfInverse(b: Byte)
    ensures |HexOf(b)| == 2 && IsHexDigit(HexOf(b)[0]) && IsHexDigit(HexOf(b)[1])
    ensures HexByte(HexOf(b)[0], HexOf(b)[1]) == b
  {
    HexDigitInverse(b / 16);
    HexDigitInverse(b % 16);
    hide HexDigit;
    hide HexValue;
  }

  lemma HexDigitInverse(n: int)
    requires 0 <= n < 16
    ensures IsHexDigit(HexDigit(n)) && HexValue(HexDigit(n)) == n
  {
  }

  lemma HexValueInverse(c: char)
    requires IsHexDigit(c)
    ensures 0 <= HexValue(c) < 16 && HexDigit(HexValue(c)) == c
  {
  }

  lemma HexByteInverse(c: char, d: char)
    requires IsHexDigit(c) && IsHexDigit(d)
    ensures HexOf(HexByte(c, d)) == [c, d]
  {
    HexValueInverse(c);
    HexValueInverse(d);
    hide HexValue;
    hide HexDigit;
    hide HexByte;
  }

  lemma {:induction false} ToHexInverse(bs: seq<Byte>)
    ensures AllHex(ToHex(bs)) && |ToHex(bs)| == 2 * |bs| && FromHex(ToHex(bs)) == bs
  {
    if bs != [] {
      ToHexInverse(bs[1..]);
      HexOfInverse(bs[0]);
      hide HexOf;
      hide HexByte;
      hide IsHexDigit;
      assert ToHex(bs)[2..] == ToHex(bs[1..]);
    }
  }

  lemma ToHexCons(b: Byte, bs: seq<Byte>)
    ensures ToHex([b] + bs) == HexOf(b) + ToHex(bs)
  {
    assert ([b] + bs)[1..] == bs;
  }

  lemma {:induction false} FromHexInverse(s: string)
    requires AllHex(s) && |s| % 2 == 0
    ensures 2 * |FromHex(s)| == |s| && ToHex(FromHex(s)) == s
  {
    hide HexOf;
    hide HexByte;
    hide IsHexDigit;
    if s != [] {
      HexByteInverse(s[0], s[1]);
      FromHexInverse(s[2..]);
      hide ToHex;
      ToHexCons(HexByte(s[0], s[1]), FromHex(s[2..]));
      assert s == [s[0], s[1]] + s[2..];
    }
  }

  /** The digits are the decimal ones and the small letters from a to f, in order, the higher one first. */
  lemma DigitsTell(b: Byte)
    ensures var (high, low) := (b / 16, b % 16);
            |HexOf(b)| == 2
            && HexOf(b)[0] as int == (if high < 10 then 48 + high else 87 + high)
            && HexOf(b)[1] as int == (if low < 10 then 48 + low else 87 + low)
  {
    assert 'a' as int == 97 && '0' as int == 48;
  }

  // ---------- printing and parsing ----------

  /** The printed form: 16 hexadecimal digits of span id, a dash, two digits of flags. */
  function SwFromCtx(spanId: SpanId, flags: Byte): string {
    ToHex(spanId) + "-" + ToHex([flags])
  }

  function ParseSwTraceState(s: string): SwTraceState {
    if |s| == 19 && AllHex(s[..16]) && s[16] == '-' && AllHex(s[17..])
    then SwTraceState(true, s[..16], HexByte(s[17..][0], s[17..][1]))
    else INVALID
  }

  /** The printed form has 19 characters: two for each byte of the span id, a dash, and two for the flags. */
  lemma PrintedTells(spanId: SpanId, flags: Byte, i: nat)
    requires i < 8
    ensures var s := SwFromCtx(spanId, flags);
            |s| == 19 && s[2 * i..2 * i + 2] == HexOf(spanId[i]) && s[16] == '-' && s[17..] == HexOf(flags)
  {
    ToHexAt(spanId, i);
    ToHexInverse(spanId);
    assert ToHex([flags]) == HexOf(flags) + ToHex([flags][1..]);
    hide ToHex;
    hide HexOf;
  }

  lemma {:induction false} ToHexAt(bs: seq<Byte>, i: nat)
    requires i < |bs|
    ensures |ToHex(bs)| == 2 * |bs| && ToHex(bs)[2 * i..2 * i + 2] == HexOf(bs[i])
  {
    ToHexInverse(bs);
    if i > 0 {
      ToHexAt(bs[1..], i - 1);
      assert ToHex(bs)[2..] == ToHex(bs[1..]);
    }
  }

  /** Parsing what was printed gives the span id and flags back. */
  lemma PrintThenParse(spanId: SpanId, flags: Byte)
    ensures var p := ParseSwTraceState(SwFromCtx(spanId, flags));
            p.isValid && AllHex(p.spanId) && FromHex(p.spanId) == spanId && p.flags == flags
  {
    ToHexInverse(spanId);
    ToHexInverse([flags]);
    var s := SwFromCtx(spanId, flags);
    assert s[..16] == ToHex(spanId) && s[17..] == ToHex([flags]);
  }

  /** Printing what was parsed gives the text back. */
  lemma ParseThenPrint(s: string)
    requires ParseSwTraceState(s).isValid
    ensures var p := ParseSwTraceState(s);
            AllHex(p.spanId) && |FromHex(p.spanId)| == 8 && SwFromCtx(FromHex(p.spanId), p.flags) == s
  {
    var p := ParseSwTraceState(s);
    FromHexInverse(p.spanId);
    FromHexInverse(s[17..]);
    assert FromHex(s[17..]) == [p.flags];
    assert s == s[..16] + "-" + s[17..];
  }

  /** Exactly the printed forms are accepted, so every value of the entry has one spelling. */
  lemma AcceptsExactlyPrinted(s: string)
    ensures ParseSwTraceState(s).isValid <==> exists id: SpanId, flags: Byte :: s == SwFromCtx(id, flags)
  {
    if ParseSwTraceState(s).isValid {
      ParseThenPrint(s);
      assert s == SwFromCtx(FromHex(ParseSwTraceState(s).spanId), ParseSwTraceState(s).flags);
    }
    if id: SpanId, flags: Byte :| s == SwFromCtx(id, flags) {
      PrintThenParse(id, flags);
    }
  }
}
