/**
 * The pieces of java.lang.String, Integer and hutool's StrUtil that the import core relies on.
 * Case mapping is ASCII-only; 32-bit integer arithmetic wraps as in Java.
 */
module JavaStrings {
  import opened Wrappers

  /** A Java String reference: None is null. */
  type JString = Option<string>

  /** `String.valueOf(s)` as string concatenation uses it: a null reference prints as "null". */
  function Show(s: JString): string {
    match s
    case Some(v) => v
    case None => "null"
  }

  /**
   * The characters hutool's CharUtil.isBlankChar accepts: Java whitespace, the Unicode space
   * separators, and the byte-order mark, NUL, U+202A, U+3164, U+2800 and U+180E.
   */
  predicate IsBlankChar(c: char)
    ensures ('a' <= c <= 'z' || 'A' <= c <= 'Z' || '0' <= c <= '9') ==> !IsBlankChar(c)
    ensures '\U{4E00}' <= c <= '\U{9FFF}' ==> !IsBlankChar(c)
  {
    || c == ' ' || c == '\t' || c == '\n' || c == '\r'
    || c == '\U{000B}' || c == '\U{000C}' || ('\U{001C}' <= c <= '\U{001F}')
    || c == '\U{00A0}' || c == '\U{1680}' || ('\U{2000}' <= c <= '\U{200A}')
    || c == '\U{2028}' || c == '\U{2029}' || c == '\U{202F}' || c == '\U{205F}' || c == '\U{3000}'
    || c == '\U{FEFF}' || c == '\U{0000}' || c == '\U{202A}' || c == '\U{3164}' || c == '\U{2800}'
    || c == '\U{180E}'
  }

  /** StrUtil.isBlank: null, empty, or made only of blank characters. */
  predicate IsBlank(s: JString)
    ensures s.None? || s == Some("") ==> IsBlank(s)
    ensures !IsBlank(s) ==> s.Some? && |s.value| > 0
  {
    s.None? || forall i | 0 <= i < |s.value| :: IsBlankChar(s.value[i])
  }

  /** A concatenation is blank exactly when both parts are. */
  lemma BlankConcat(a: string, b: string)
    ensures IsBlank(Some(a + b)) <==> IsBlank(Some(a)) && IsBlank(Some(b))
  {
    if IsBlank(Some(a)) && IsBlank(Some(b)) {
      forall i | 0 <= i < |a + b| ensures IsBlankChar((a + b)[i]) {
        if i < |a| {
          assert (a + b)[i] == a[i];
        } else {
          assert (a + b)[i] == b[i - |a|];
        }
      }
    }
    if IsBlank(Some(a + b)) {
      forall i | 0 <= i < |a| ensures IsBlankChar(a[i]) {
        assert (a + b)[i] == a[i];
      }
      forall i | 0 <= i < |b| ensures IsBlankChar(b[i]) {
        assert (a + b)[|a| + i] == b[i];
      }
    }
  }

  /** Character.toLowerCase restricted to ASCII letters; every other character maps to itself. */
  function ToLower(c: char): char {
    if 'A' <= c <= 'Z' then (c as int + 32) as char else c
  }

  /** String.toLowerCase, character by character. */
  function LowerCase(s: string): (r: string)
    ensures |r| == |s|
    ensures forall i | 0 <= i < |s| :: r[i] == ToLower(s[i])
  {
    seq(|s|, i requires 0 <= i < |s| => ToLower(s[i]))
  }

  /**
   * Lower-casing is idempotent, leaves a string without upper-case letters as it is, and works
   * piece by piece over a concatenation.
   */
  lemma LowerCaseProperties(a: string, b: string)
    ensures LowerCase(LowerCase(a)) == LowerCase(a)
    ensures (forall i | 0 <= i < |a| :: !('A' <= a[i] <= 'Z')) ==> LowerCase(a) == a
    ensures LowerCase(a + b) == LowerCase(a) + LowerCase(b)
  {
    assert forall i | 0 <= i < |a| :: ToLower(ToLower(a[i])) == ToLower(a[i]);
    assert forall i | 0 <= i < |a + b| :: LowerCase(a + b)[i] == (LowerCase(a) + LowerCase(b))[i];
  }

  /** `a.equalsIgnoreCase(b)`: false when b is null, otherwise equal after case folding. */
  predicate EqualsIgnoreCase(a: string, b: JString)
    ensures b == Some(a) ==> EqualsIgnoreCase(a, b)
    ensures b.None? ==> !EqualsIgnoreCase(a, b)
    ensures EqualsIgnoreCase(a, b) ==> |a| == |b.value|
  {
    b.Some? && LowerCase(a) == LowerCase(b.value)
  }

  /** equalsIgnoreCase is symmetric on non-null strings. */
  lemma EqualsIgnoreCaseSymmetric(a: string, b: string)
    ensures EqualsIgnoreCase(a, Some(b)) <==> EqualsIgnoreCase(b, Some(a))
  {
  }

  /** String.endsWith. */
  predicate EndsWith(s: string, suffix: string)
    ensures EndsWith(s, suffix) ==> |suffix| <= |s| && s == s[..|s| - |suffix|] + suffix
  {
    |suffix| <= |s| && s[|s| - |suffix|..] == suffix
  }

  /** Whatever precedes it, a string ends with its own tail, and every string ends with "". */
  lemma EndsWithConcat(prefix: string, suffix: string)
    ensures EndsWith(prefix + suffix, suffix)
    ensures EndsWith(prefix, "")
  {
    assert (prefix + suffix)[|prefix|..] == suffix;
  }

  /** `s.lastIndexOf(c)`: the index of the last occurrence of c, or -1. */
  function LastIndexOf(s: string, c: char): (r: int)
    ensures -1 <= r < |s|
    ensures r == -1 <==> c !in s
    ensures r >= 0 ==> s[r] == c && c !in s[r + 1..]
  {
    if s == [] then -1
    else if s[|s| - 1] == c then |s| - 1
    else
      assert s == s[..|s| - 1] + [s[|s| - 1]];
      LastIndexOf(s[..|s| - 1], c)
  }

  const INT_MIN: int := -0x8000_0000
  const INT_MAX: int := 0x7FFF_FFFF
  const TWO_TO_32: int := 0x1_0000_0000

  /** The values of a Java `int`. */
  type Int32 = x: int | INT_MIN <= x <= INT_MAX

  /** Reduces a mathematical integer to the Java `int` with the same low 32 bits. */
  function Wrap32(x: int): (r: Int32)
    ensures INT_MIN <= x <= INT_MAX ==> r == x
    ensures (r - x) % TWO_TO_32 == 0
  {
    (x - INT_MIN) % TWO_TO_32 + INT_MIN
  }

  /** AtomicInteger.incrementAndGet on the counter's value: MAX_VALUE wraps to MIN_VALUE. */
  function Inc32(x: Int32): (r: Int32)
    ensures r == Wrap32(x + 1)
  {
    if x == INT_MAX then INT_MIN else x + 1
  }

  /** Incrementing a wrapped value is wrapping the incremented value. */
  lemma IncWrap(x: int)
    ensures Inc32(Wrap32(x)) == Wrap32(x + 1)
  {
    var w := (x - INT_MIN) % TWO_TO_32;
    var q := (x - INT_MIN) / TWO_TO_32;
    assert x - INT_MIN == q * TWO_TO_32 + w;
    if w == TWO_TO_32 - 1 {
      assert x + 1 - INT_MIN == (q + 1) * TWO_TO_32;
    } else {
      assert x + 1 - INT_MIN == q * TWO_TO_32 + (w + 1);
    }
  }
}
