/** The functions of Go's strings and strconv packages that the modelled code calls. */
module Text {
  import opened Wrappers

  // ---------- splitting ----------

  /** One more character in front of the parts of a split. */
  function Put(first: char, c: char, rest: seq<string>): seq<string>
    requires rest != []
  {
    if first == c then [[]] + rest else [[first] + rest[0]] + rest[1..]
  }

  /** strings.Split and strings.SplitSeq with a one-character separator. */
  function Split(s: string, c: char): (r: seq<string>)
    ensures r != []
  {
    if s == [] then [[]] else Put(s[0], c, Split(s[1..], c))
  }

  lemma Onto(first: char, c: char, front: seq<string>, back: seq<string>)
    requires front != []
    ensures Put(first, c, front + back) == Put(first, c, front) + back
  {
  }

  lemma {:induction false} SplitConcat(a: string, c: char, b: string)
    ensures Split(a + [c] + b, c) == Split(a, c) + Split(b, c)
  {
    var s := a + [c] + b;
    if a == [] {
      assert s[1..] == b;
    } else {
      assert s[1..] == a[1..] + [c] + b && s[0] == a[0];
      SplitConcat(a[1..], c, b);
      hide Put;
      Onto(a[0], c, Split(a[1..], c), Split(b, c));
    }
  }

  lemma {:induction false} NoSeparator(s: string, c: char)
    requires c !in s
    ensures Split(s, c) == [s]
  {
    if s != [] {
      assert s[0] in s && s == [s[0]] + s[1..];
      NoSeparator(s[1..], c);
    }
  }

  // ---------- substrings ----------

  predicate OccursAt(s: string, p: string, i: nat) {
    i + |p| <= |s| && s[i..i + |p|] == p
  }

  ghost predicate Contains(s: string, p: string) {
    exists i: nat :: OccursAt(s, p, i)
  }

  lemma ContainsStep(s: string, p: string)
    requires s != [] && p != []
    ensures Contains(s, p) <==> p <= s || Contains(s[1..], p)
  {
    var t := s[1..];
    if i: nat :| OccursAt(s, p, i) && i > 0 {
      assert t[i - 1..i - 1 + |p|] == s[i..i + |p|];
      assert OccursAt(t, p, i - 1);
    }
    if i: nat :| OccursAt(t, p, i) {
      assert s[i + 1..i + 1 + |p|] == t[i..i + |p|];
      assert OccursAt(s, p, i + 1);
    }
    assert p <= s <==> OccursAt(s, p, 0);
  }

  /** strings.ReplaceAll with a non-empty old string. */
  function ReplaceAll(s: string, old_: string, new_: string): string
    requires old_ != []
  {
    if s == [] then []
    else if old_ <= s then new_ + ReplaceAll(s[|old_|..], old_, new_)
    else [s[0]] + ReplaceAll(s[1..], old_, new_)
  }

  // ---------- blanks ----------

  /** unicode.IsSpace. */
  predicate IsSpace(c: char) {
    var n := c as int;
    || 9 <= n <= 13 || n == 32 || n == 0x85 || n == 0xA0
    || n == 0x1680 || 0x2000 <= n <= 0x200A || n == 0x2028 || n == 0x2029 || n == 0x202F || n == 0x205F || n == 0x3000
  }

  predicate IsBlank(s: string) {
    forall i :: 0 <= i < |s| ==> IsSpace(s[i])
  }

  function TrimLeft(s: string): string {
    if s != [] && IsSpace(s[0]) then TrimLeft(s[1..]) else s
  }

  function TrimRight(s: string): string {
    if s != [] && IsSpace(s[|s| - 1]) then TrimRight(s[..|s| - 1]) else s
  }

  function TrimSpace(s: string): string {
    TrimRight(TrimLeft(s))
  }

  lemma {:induction false} TrimLeftPadding(p: string, s: string)
    requires IsBlank(p)
    ensures TrimLeft(p + s) == TrimLeft(s)
  {
    if p == [] {
      assert p + s == s;
    } else {
      assert (p + s)[0] == p[0] && (p + s)[1..] == p[1..] + s;
      TrimLeftPadding(p[1..], s);
    }
  }

  lemma {:induction false} TrimRightPadding(s: string, p: string)
    requires IsBlank(p)
    ensures TrimRight(s + p) == TrimRight(s)
    decreases p
  {
    if p == [] {
      assert s + p == s;
    } else {
      assert (s + p)[|s + p| - 1] == p[|p| - 1] && (s + p)[..|s + p| - 1] == s + p[..|p| - 1];
      TrimRightPadding(s, p[..|p| - 1]);
    }
  }

  /** Trimming on the left either leaves some text, and then padding behind stays behind, or nothing. */
  lemma {:induction false} TrimLeftOfPadded(s: string, p: string)
    requires IsBlank(p)
    ensures TrimLeft(s + p) == TrimLeft(s) + (if TrimLeft(s) == [] then [] else p)
  {
    if s == [] {
      assert s + p == p && p + [] == p;
      TrimLeftPadding(p, []);
    } else {
      assert (s + p)[0] == s[0] && (s + p)[1..] == s[1..] + p;
      if IsSpace(s[0]) {
        TrimLeftOfPadded(s[1..], p);
      }
    }
  }

  /** Blanks around a text do not matter to strings.TrimSpace. */
  lemma TrimSpacePadding(p: string, s: string, q: string)
    requires IsBlank(p) && IsBlank(q)
    ensures TrimSpace(p + s + q) == TrimSpace(s)
  {
    assert p + s + q == p + (s + q);
    TrimLeftPadding(p, s + q);
    TrimLeftOfPadded(s, q);
    if TrimLeft(s) != [] {
      TrimRightPadding(TrimLeft(s), q);
    } else {
      assert TrimLeft(s) + [] == [];
    }
  }

  /** No blank at either end. */
  predicate IsTrimmed(s: string) {
    s != [] ==> !IsSpace(s[0]) && !IsSpace(s[|s| - 1])
  }

  /** Trimming takes off exactly the blanks at the ends. */
  lemma TrimSpaceTells(p: string, s: string, q: string)
    requires IsBlank(p) && IsBlank(q) && IsTrimmed(s)
    ensures TrimSpace(p + s + q) == s
  {
    TrimSpacePadding(p, s, q);
    assert TrimLeft(s) == s && TrimRight(s) == s;
  }

  /** The ASCII blanks. */
  lemma AsciiBlanks(c: char)
    requires c < 128 as char
    ensures IsSpace(c) <==> c == ' ' || c == '\t' || c == '\n' || c == '\r' || c == 11 as char || c == 12 as char
  {
  }

  // ---------- cutting at a separator ----------

  datatype CutResult = CutResult(before: string, after: string, found: bool)

  /** strings.Cut with a one-character separator. */
  function Cut(s: string, c: char): CutResult {
    if s == [] then CutResult([], [], false)
    else if s[0] == c then CutResult([], s[1..], true)
    else
      var r := Cut(s[1..], c);
      CutResult([s[0]] + r.before, r.after, r.found)
  }

  lemma CutStep(x: char, s: string, c: char)
    ensures Cut([x] + s, c) ==
              if x == c then CutResult([], s, true)
              else CutResult([x] + Cut(s, c).before, Cut(s, c).after, Cut(s, c).found)
    ensures Cut([], c) == CutResult([], [], false)
  {
    assert ([x] + s)[1..] == s;
  }

  lemma {:induction false} CutAtFirst(a: string, c: char, b: string)
    requires c !in a
    ensures Cut(a + [c] + b, c) == CutResult(a, b, true)
    ensures Cut(a, c) == CutResult(a, [], false)
  {
    hide Cut;
    if a == [] {
      assert a + [c] + b == [c] + b;
      CutStep(c, b, c);
    } else {
      var x, rest := a[0], a[1..];
      assert a == [x] + rest && a + [c] + b == [x] + (rest + [c] + b);
      CutStep(x, rest, c);
      CutStep(x, rest + [c] + b, c);
      CutAtFirst(rest, c, b);
    }
  }

  // ---------- decimal numbers ----------

  const MAX_INT64: int := 0x7FFF_FFFF_FFFF_FFFF
  const MIN_INT64: int := -0x8000_0000_0000_0000

  predicate IsDigit(c: char) {
    '0' <= c <= '9'
  }

  function Digit(n: int): char
    requires 0 <= n < 10
  {
    "0123456789"[n]
  }

  predicate AllDigits(s: string) {
    forall i :: 0 <= i < |s| ==> IsDigit(s[i])
  }

  function DigitsValue(s: string): nat
    requires AllDigits(s)
  {
    if s == [] then 0 else 10 * DigitsValue(s[..|s| - 1]) + (s[|s| - 1] as int - '0' as int)
  }

  function FormatNat(n: nat): string {
    if n < 10 then [Digit(n)] else FormatNat(n / 10) + [Digit(n % 10)]
  }

  /** strconv.FormatInt in base 10. */
  function FormatInt(n: int): string {
    if n < 0 then "-" + FormatNat(-n) else FormatNat(n)
  }

  /** strconv.ParseInt in base 10 for 64 bits; out of range is an error. */
  function ParseInt(s: string): Option<int> {
    var signed := s != [] && (s[0] == '-' || s[0] == '+');
    var digits := if signed then s[1..] else s;
    if digits == [] || !AllDigits(digits) then None
    else
      var n: int := if signed && s[0] == '-' then 0 - DigitsValue(digits) else DigitsValue(digits);
      if MIN_INT64 <= n <= MAX_INT64 then Some(n) else None
  }

  lemma {:induction false} FormatNatInverse(n: nat)
    ensures AllDigits(FormatNat(n)) && FormatNat(n) != [] && DigitsValue(FormatNat(n)) == n
  {
    var s := FormatNat(n);
    if n >= 10 {
      FormatNatInverse(n / 10);
      assert s[..|s| - 1] == FormatNat(n / 10);
    } else {
      assert s[..0] == [];
    }
  }

  lemma ParseUnsigned(d: string)
    requires d != [] && AllDigits(d) && DigitsValue(d) <= MAX_INT64
    ensures ParseInt(d) == Some(DigitsValue(d))
  {
    assert IsDigit(d[0]);
    hide AllDigits;
    hide DigitsValue;
  }

  lemma ParseSigned(sign: char, d: string)
    requires (sign == '-' || sign == '+') && d != [] && AllDigits(d)
    ensures ParseInt([sign] + d) ==
              var n: int := if sign == '-' then 0 - DigitsValue(d) else DigitsValue(d);
              if MIN_INT64 <= n <= MAX_INT64 then Some(n) else None
  {
    assert ([sign] + d)[1..] == d;
    hide AllDigits;
    hide DigitsValue;
  }

  lemma ParseBeyond(d: string)
    requires d != [] && AllDigits(d) && DigitsValue(d) > MAX_INT64
    ensures ParseInt(d) == None
  {
    assert IsDigit(d[0]);
    hide AllDigits;
    hide DigitsValue;
  }

  /** A plus sign is allowed, and no number beyond 64 bits is. */
  lemma ParseIntTells(n: nat)
    ensures ParseInt("+" + FormatInt(n)) == if n <= 0x7FFF_FFFF_FFFF_FFFF then Some(n) else None
    ensures n > 0x7FFF_FFFF_FFFF_FFFF ==> ParseInt(FormatInt(n)) == None
    ensures n > 0x8000_0000_0000_0000 ==> ParseInt(FormatInt(0 - n)) == None
  {
    hide FormatNat;
    hide DigitsValue;
    hide AllDigits;
    hide ParseInt;
    FormatNatInverse(n);
    ParseSigned('+', FormatNat(n));
    ParseSigned('-', FormatNat(n));
    if n > 0x7FFF_FFFF_FFFF_FFFF {
      ParseBeyond(FormatNat(n));
    }
  }

  /** Every 64-bit number is read back from its decimal form. */
  lemma ParseFormatted(n: int)
    requires MIN_INT64 <= n <= MAX_INT64
    ensures ParseInt(FormatInt(n)) == Some(n)
  {
    hide FormatNat;
    hide DigitsValue;
    hide AllDigits;
    hide ParseInt;
    if n < 0 {
      FormatNatInverse(-n);
      ParseSigned('-', FormatNat(-n));
    } else {
      FormatNatInverse(n);
      ParseUnsigned(FormatNat(n));
    }
  }
}
