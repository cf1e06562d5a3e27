/** The few pieces of the Java and Kotlin standard libraries that the modelled code leans on:
    `Integer.parseInt` (also Kotlin's `toInt`/`toIntOrNull`), `String.valueOf(int)`,
    `trim`, `isBlank` and `lowercase`. White space is Kotlin's full `isWhitespace`; digits
    and the letters `lowercase` changes are ASCII only. */
module JavaText {
  import opened Wrappers

  const IntMin: int := -0x8000_0000
  const IntMax: int := 0x7fff_ffff

  /** A value that fits a Java `int`. */
  predicate IsInt32(x: int) { IntMin <= x <= IntMax }

  /** Two's-complement wrap-around of a mathematical integer into a Java `int`. */
  function Wrap32(x: int): (r: int)
    ensures IsInt32(r)
    ensures IsInt32(x) ==> r == x
    ensures (r - x) % 0x1_0000_0000 == 0
  {
    (x - IntMin) % 0x1_0000_0000 + IntMin
  }

  /** Java's unary minus on an `int`: only `Integer.MIN_VALUE` is its own negation. */
  function Neg32(x: int): (r: int)
    requires IsInt32(x)
    ensures IsInt32(r)
    ensures x != IntMin ==> r == -x
  {
    if x == IntMin then x else -x
  }

  /** Java's `x - 1` on an `int`: `Integer.MIN_VALUE - 1` wraps to `Integer.MAX_VALUE`. */
  function Dec32(x: int): (r: int)
    requires IsInt32(x)
    ensures IsInt32(r)
    ensures x != IntMin ==> r == x - 1
  {
    if x == IntMin then IntMax else x - 1
  }

  /** Both are the two's-complement wrap-around of the exact result. */
  lemma Neg32Dec32Wrap(x: int)
    requires IsInt32(x)
    ensures Neg32(x) == Wrap32(-x)
    ensures Dec32(x) == Wrap32(x - 1)
  {
    if x == IntMin {
      assert Wrap32(-x) == (-x - IntMin) % 0x1_0000_0000 + IntMin;
      assert Wrap32(x - 1) == (x - 1 - IntMin) % 0x1_0000_0000 + IntMin;
    }
  }

  predicate IsDigit(c: char) { '0' <= c <= '9' }

  function DigitValue(c: char): (d: nat)
    requires IsDigit(c)
    ensures d < 10
  {
    (c - '0') as nat
  }

  function DigitChar(d: nat): (c: char)
    requires d < 10
    ensures IsDigit(c) && DigitValue(c) == d
  {
    ('0' as int + d) as char
  }

  predicate AllDigits(s: string) { forall i :: 0 <= i < |s| ==> IsDigit(s[i]) }

  function Pow10(n: nat): (p: nat)
    ensures p >= 1
  {
    if n == 0 then 1 else 10 * Pow10(n - 1)
  }

  /** The value of a string of decimal digits, read left to right. */
  function DigitsValue(s: string): (v: nat)
    requires AllDigits(s)
  {
    if s == [] then 0 else 10 * DigitsValue(s[..|s| - 1]) + DigitValue(s[|s| - 1])
  }

  lemma {:induction false} DigitsValueBound(s: string)
    requires AllDigits(s)
    ensures DigitsValue(s) < Pow10(|s|)
  {
    if s != [] {
      DigitsValueBound(s[..|s| - 1]);
    }
  }

  /** The digit loop of `parseInt`: the value of `s` when every character is a decimal
      digit, `None` at the first one that is not. */
  function ReadDigits(s: string): Option<nat> {
    if s == [] then Some(0)
    else if !IsDigit(s[|s| - 1]) then None
    else match ReadDigits(s[..|s| - 1])
      case None => None
      case Some(v) => Some(10 * v + DigitValue(s[|s| - 1]))
  }

  lemma {:induction false} ReadDigitsValue(s: string)
    ensures ReadDigits(s).Some? <==> AllDigits(s)
    ensures AllDigits(s) ==> ReadDigits(s) == Some(DigitsValue(s))
  {
    if s != [] {
      var p := s[..|s| - 1];
      ReadDigitsValue(p);
      assert AllDigits(s) <==> AllDigits(p) && IsDigit(s[|s| - 1]) by {
        assert forall i :: 0 <= i < |p| ==> p[i] == s[i];
      }
    }
  }

  /** `Integer.parseInt(s)` (radix 10): an optional '+' or '-' followed by at least one
      digit, with a value that fits an `int`; `None` stands for NumberFormatException. */
  function ParseInt(s: string): (r: Option<int>)
    ensures r.Some? ==> IsInt32(r.value) && |s| > 0
  {
    if |s| == 0 then None
    else
      var body := if s[0] == '-' || s[0] == '+' then s[1..] else s;
      if body == [] then None
      else match ReadDigits(body)
        case None => None
        case Some(v) =>
          var r: int := if s[0] == '-' then 0 - (v as int) else v;
          if IsInt32(r) then Some(r) else None
  }

  /** On unsigned decimal digits `parseInt` is their value, refused only when that value
      does not fit an `int`. */
  lemma ParseIntDigits(s: string)
    requires AllDigits(s)
    ensures ParseInt(s).Some? ==> ParseInt(s).value == DigitsValue(s)
    ensures s != [] && DigitsValue(s) <= IntMax ==> ParseInt(s) == Some(DigitsValue(s))
    ensures s != [] && DigitsValue(s) > IntMax ==> ParseInt(s) == None
  {
    ReadDigitsValue(s);
  }

  /** A sign followed by unsigned decimal digits. */
  lemma ParseIntSigned(sign: char, s: string)
    requires sign == '-' || sign == '+'
    requires AllDigits(s) && s != []
    ensures ParseInt([sign] + s)
         == (var v: int := if sign == '-' then 0 - (DigitsValue(s) as int) else DigitsValue(s);
             if IsInt32(v) then Some(v) else None)
  {
    ReadDigitsValue(s);
    assert ([sign] + s)[1..] == s;
  }

  /** Text with no decimal digit at all is never an `int`. */
  lemma ParseIntNoDigits(s: string)
    requires forall i :: 0 <= i < |s| ==> !IsDigit(s[i])
    ensures ParseInt(s) == None
  {
    if |s| > 0 {
      var body := if s[0] == '-' || s[0] == '+' then s[1..] else s;
      if body != [] {
        ReadDigitsValue(body);
        assert !IsDigit(body[0]);
      }
    }
  }

  /** Decimal digits of a natural number, most significant first, without leading zeros. */
  function NatToString(n: nat): string {
    if n < 10 then [DigitChar(n)] else NatToString(n / 10) + [DigitChar(n % 10)]
  }

  /** `NatToString` prints digits whose value is the number, one of them exactly below ten. */
  lemma {:induction false} NatToStringDigits(n: nat)
    ensures AllDigits(NatToString(n)) && 1 <= |NatToString(n)|
    ensures DigitsValue(NatToString(n)) == n
    ensures |NatToString(n)| == 1 <==> n < 10
  {
    if n >= 10 {
      NatToStringDigits(n / 10);
      var s := NatToString(n);
      assert s[..|s| - 1] == NatToString(n / 10);
    }
  }

  /** `String.valueOf(int)`. */
  function IntToString(i: int): (s: string)
    ensures 0 <= i ==> s == NatToString(i)
    ensures i < 0 ==> s == "-" + NatToString(-i)
  {
    if i < 0 then "-" + NatToString(-i) else NatToString(i)
  }

  lemma ParseIntToString(i: int)
    requires IsInt32(i)
    ensures ParseInt(IntToString(i)) == Some(i)
  {
    if i < 0 {
      NatToStringDigits(-i);
      ParseIntSigned('-', NatToString(-i));
    } else {
      NatToStringDigits(i);
      ParseIntDigits(NatToString(i));
    }
  }

  /** Kotlin's `Char.isWhitespace` on the JVM: `Character.isWhitespace` or
      `Character.isSpaceChar`. These are the controls U+0009..U+000D and U+001C..U+001F,
      the space separators (U+0020, U+00A0, U+1680, U+2000..U+200A, U+202F, U+205F,
      U+3000, as of Unicode 6.3), and the line and paragraph separators U+2028, U+2029. */
  predicate IsWhitespace(c: char) {
    ('\U{09}' <= c <= '\U{0D}') || ('\U{1C}' <= c <= '\U{20}') || c == '\U{A0}' || c == '\U{1680}'
      || ('\U{2000}' <= c <= '\U{200A}') || c == '\U{2028}' || c == '\U{2029}' || c == '\U{202F}'
      || c == '\U{205F}' || c == '\U{3000}'
  }

  /** Kotlin's `isBlank`: empty or only white space. */
  predicate IsBlank(s: string) { forall i :: 0 <= i < |s| ==> IsWhitespace(s[i]) }

  function TrimStart(s: string): (r: string)
    ensures |r| <= |s| && r == s[|s| - |r|..]
    ensures r == [] || !IsWhitespace(r[0])
    ensures forall i :: 0 <= i < |s| - |r| ==> IsWhitespace(s[i])
  {
    if s != [] && IsWhitespace(s[0]) then TrimStart(s[1..]) else s
  }

  function TrimEnd(s: string): (r: string)
    ensures |r| <= |s| && r == s[..|r|]
    ensures r == [] || !IsWhitespace(r[|r| - 1])
    ensures forall i :: |r| <= i < |s| ==> IsWhitespace(s[i])
  {
    if s != [] && IsWhitespace(s[|s| - 1]) then TrimEnd(s[..|s| - 1]) else s
  }

  /** Kotlin's `trim()`: white space removed from both ends. */
  function Trim(s: string): string { TrimEnd(TrimStart(s)) }

  function LowerChar(c: char): char {
    if 'A' <= c <= 'Z' then (c as int + 32) as char else c
  }

  /** `lowercase()` restricted to ASCII letters. */
  function LowerCase(s: string): (r: string)
    ensures |r| == |s|
    ensures forall i :: 0 <= i < |s| ==> r[i] == LowerChar(s[i])
  {
    if s == [] then [] else [LowerChar(s[0])] + LowerCase(s[1..])
  }

  predicate EndsWith(s: string, suffix: string) {
    |suffix| <= |s| && s[|s| - |suffix|..] == suffix
  }

  /** Kotlin's `split(sep)` for a single-character separator: the pieces between
      separators, always at least one (possibly empty). */
  function Split(s: string, sep: char): (r: seq<string>)
    ensures |r| >= 1
    ensures forall i :: 0 <= i < |r| ==> sep !in r[i]
  {
    if s == [] then [""]
    else
      var rest := Split(s[1..], sep);
      if s[0] == sep then [""] + rest else [[s[0]] + rest[0]] + rest[1..]
  }

  /** `joinToString(separator = sep, prefix = pre)`. */
  function JoinWithPrefix(items: seq<string>, sep: string, pre: string): string {
    pre + Join(items, sep)
  }

  function Join(items: seq<string>, sep: string): string {
    if items == [] then ""
    else if |items| == 1 then items[0]
    else items[0] + sep + Join(items[1..], sep)
  }

  lemma {:induction false} SplitWord(w: string, sep: char)
    requires sep !in w
    ensures Split(w, sep) == [w]
  {
    if w != [] {
      SplitWord(w[1..], sep);
      assert [w[0]] + w[1..] == w;
    }
  }

  lemma {:induction false} SplitWordThen(w: string, sep: char, rest: string)
    requires sep !in w
    ensures Split(w + [sep] + rest, sep) == [w] + Split(rest, sep)
  {
    if w == [] {
      assert w + [sep] + rest == [sep] + rest;
      assert ([sep] + rest)[1..] == rest;
    } else {
      var s := w + [sep] + rest;
      assert s[1..] == w[1..] + [sep] + rest;
      SplitWordThen(w[1..], sep, rest);
      assert [w[0]] + w[1..] == w;
    }
  }

  /** Splitting text joined with a separator gives back the pieces when none holds it. */
  lemma {:induction false} SplitJoin(items: seq<string>, sep: char)
    requires items != []
    requires forall i :: 0 <= i < |items| ==> sep !in items[i]
    ensures Split(Join(items, [sep]), sep) == items
  {
    if |items| == 1 {
      SplitWord(items[0], sep);
    } else {
      SplitJoin(items[1..], sep);
      SplitWordThen(items[0], sep, Join(items[1..], [sep]));
      assert [items[0]] + items[1..] == items;
    }
  }
}
