/**
 * The small C library surface the tool relies on, stated over Dafny strings:
 * character classes (isspace, tolower), searching (strstr, strchr, strrchr,
 * strsep), the printf conversions it uses (%u, %d, %0Nd, %3d, snprintf
 * truncation) and atoi. A C string is a `string` holding no NUL character.
 */
module Text {
  import opened Wrappers

  /** isspace() in the "C" locale. */
  predicate IsSpace(c: char) {
    c == ' ' || c == '\t' || c == '\n' || c == '\U{B}' || c == '\U{C}' || c == '\r'
  }

  predicate IsDigit(c: char) {
    '0' <= c <= '9'
  }

  predicate AllDigits(s: string) {
    forall i :: 0 <= i < |s| ==> IsDigit(s[i])
  }

  /** tolower() in the "C" locale: only ASCII letters change. */
  function ToLower(c: char): (r: char)
    ensures 'A' <= c <= 'Z' ==> r as int == c as int + 32
    ensures !('A' <= c <= 'Z') ==> r == c
  {
    if 'A' <= c <= 'Z' then (c as int + 32) as char else c
  }

  predicate StartsWith(s: string, prefix: string) {
    |prefix| <= |s| && s[..|prefix|] == prefix
  }

  /** `pat` occurs in `s` starting at index `i`. */
  predicate OccursAt(s: string, pat: string, i: int) {
    0 <= i && i + |pat| <= |s| && s[i..i + |pat|] == pat
  }

  /** The first occurrence of `pat` in `s` at or after `from` (the search loop of strstr). */
  function FindFrom(s: string, pat: string, from: nat): (r: Option<nat>)
    ensures r.Some? ==> from <= r.value && OccursAt(s, pat, r.value)
    ensures forall j :: from <= j && (r.None? || j < r.value) ==> !OccursAt(s, pat, j)
    decreases |s| - from
  {
    if |s| < from + |pat| then None
    else if s[from..from + |pat|] == pat then Some(from)
    else FindFrom(s, pat, from + 1)
  }

  /** strstr(s, pat): the index of the first occurrence, or None for NULL. */
  function Find(s: string, pat: string): (r: Option<nat>)
    ensures r.Some? ==> OccursAt(s, pat, r.value)
    ensures r.Some? ==> forall j :: 0 <= j < r.value ==> !OccursAt(s, pat, j)
    ensures r.None? ==> forall j :: 0 <= j ==> !OccursAt(s, pat, j)
  {
    FindFrom(s, pat, 0)
  }

  /** strstr(s, pat) != NULL */
  predicate Contains(s: string, pat: string) {
    Find(s, pat).Some?
  }

  /** strchr(s, c): the first index holding `c`. */
  function IndexOf(s: string, c: char): (r: Option<nat>)
    ensures r.Some? ==> r.value < |s| && s[r.value] == c && c !in s[..r.value]
    ensures r.None? ==> c !in s
    decreases |s|
  {
    if s == [] then None
    else if s[0] == c then Some(0)
    else match IndexOf(s[1..], c)
      case None => None
      case Some(k) =>
        assert s[..k + 1] == [s[0]] + s[1..][..k];
        Some(k + 1)
  }

  /** strrchr(s, c): the last index holding `c`. */
  function LastIndexOf(s: string, c: char): (r: Option<nat>)
    ensures r.Some? ==> r.value < |s| && s[r.value] == c && c !in s[r.value + 1..]
    ensures r.None? ==> c !in s
    decreases |s|
  {
    if s == [] then None
    else if s[|s| - 1] == c then Some(|s| - 1)
    else match LastIndexOf(s[..|s| - 1], c)
      case None =>
        assert s == s[..|s| - 1] + [s[|s| - 1]];
        None
      case Some(k) =>
        assert s[k + 1..] == s[..|s| - 1][k + 1..] + [s[|s| - 1]];
        Some(k)
  }

  /** The parts glued back together with one separator between neighbours. */
  function Join(parts: seq<string>, sep: char): string
    decreases |parts|
  {
    if |parts| == 0 then ""
    else if |parts| == 1 then parts[0]
    else parts[0] + [sep] + Join(parts[1..], sep)
  }

  /**
   * The tokens strsep() yields for one separator character: every separator
   * ends a token, empty tokens are kept, and the text after the last separator
   * is the final token.
   */
  function Split(s: string, sep: char): (parts: seq<string>)
    ensures |parts| >= 1
    ensures forall i :: 0 <= i < |parts| ==> sep !in parts[i]
    ensures Join(parts, sep) == s
    decreases |s|
  {
    match IndexOf(s, sep)
    case None => [s]
    case Some(k) =>
      var rest := Split(s[k + 1..], sep);
      assert s == s[..k] + [sep] + s[k + 1..];
      [s[..k]] + rest
  }

  /** strchr finds the first occurrence: any index holding `c` with no earlier `c` is the answer. */
  lemma {:induction false} IndexOfIs(s: string, c: char, k: nat)
    requires k < |s| && s[k] == c && c !in s[..k]
    ensures IndexOf(s, c) == Some(k)
    decreases k
  {
    if k > 0 {
      assert s[0] in s[..k];
      assert s[1..][..k - 1] == s[..k][1..];
      IndexOfIs(s[1..], c, k - 1);
    }
  }

  lemma FirstSeparator(a: string, sep: char, b: string)
    requires sep !in a
    ensures IndexOf(a + [sep] + b, sep) == Some(|a|)
  {
    var s := a + [sep] + b;
    assert s[..|a|] == a;
    IndexOfIs(s, sep, |a|);
  }

  /** Splitting undoes joining when no part holds the separator. */
  lemma {:induction false} SplitJoin(parts: seq<string>, sep: char)
    requires |parts| >= 1
    requires forall i :: 0 <= i < |parts| ==> sep !in parts[i]
    ensures Split(Join(parts, sep), sep) == parts
    decreases |parts|
  {
    if |parts| > 1 {
      var tail := Join(parts[1..], sep);
      var s := Join(parts, sep);
      assert s == parts[0] + [sep] + tail;
      FirstSeparator(parts[0], sep, tail);
      assert s[..|parts[0]|] == parts[0];
      assert s[|parts[0]| + 1..] == tail;
      SplitJoin(parts[1..], sep);
      assert parts == [parts[0]] + parts[1..];
    } else {
      assert sep !in parts[0];
    }
  }

  function DigitChar(d: nat): (c: char)
    requires d < 10
    ensures IsDigit(c)
  {
    ('0' as int + d) as char
  }

  function DigitValue(c: char): (d: nat)
    requires IsDigit(c)
    ensures d < 10
  {
    c as int - '0' as int
  }

  /** printf("%u", n): the decimal digits of `n`, without leading zeros. */
  function Digits(n: nat): (s: string)
    ensures |s| >= 1 && AllDigits(s)
    decreases n
  {
    if n < 10 then [DigitChar(n)] else Digits(n / 10) + [DigitChar(n % 10)]
  }

  /** The number a string of decimal digits denotes. */
  function DecValue(s: string): nat
    requires AllDigits(s)
    decreases |s|
  {
    if s == [] then 0 else 10 * DecValue(s[..|s| - 1]) + DigitValue(s[|s| - 1])
  }

  /** Reading back what %u printed gives the number. */
  lemma {:induction false} DecValueDigits(n: nat)
    ensures DecValue(Digits(n)) == n
    decreases n
  {
    if n >= 10 {
      DecValueDigits(n / 10);
      var s := Digits(n);
      assert s[..|s| - 1] == Digits(n / 10);
    }
  }

  function Pow10(w: nat): (p: nat)
    ensures p >= 1
  {
    if w == 0 then 1 else 10 * Pow10(w - 1)
  }

  /** A number below 10^w has at most w digits. */
  lemma {:induction false} DigitsLength(n: nat, w: nat)
    requires 1 <= w && n < Pow10(w)
    ensures |Digits(n)| <= w
    decreases w
  {
    assert Pow10(1) == 10;
    if n >= 10 {
      assert n / 10 < Pow10(w - 1);
      DigitsLength(n / 10, w - 1);
    }
  }

  /** `k` copies of `c`; none when `k` is not positive. */
  function Repeat<T>(c: T, k: int): (r: seq<T>)
    ensures |r| == if k > 0 then k else 0
    ensures forall i :: 0 <= i < |r| ==> r[i] == c
  {
    if k <= 0 then [] else Repeat(c, k - 1) + [c]
  }

  /** One more copy goes at the end. */
  lemma RepeatMore<T>(c: T, k: nat)
    ensures Repeat(c, k + 1) == Repeat(c, k) + [c]
  {
  }

  /** Leading zeros do not change a decimal value. */
  lemma {:induction false} DecValueLeadingZeros(k: nat, s: string)
    requires AllDigits(s)
    ensures AllDigits(Repeat('0', k) + s)
    ensures DecValue(Repeat('0', k) + s) == DecValue(s)
    decreases |s|, k
  {
    var z := Repeat('0', k);
    var t := z + s;
    assert AllDigits(t) by {
      forall i | 0 <= i < |t| ensures IsDigit(t[i]) {
        if i < |z| { assert t[i] == '0'; } else { assert t[i] == s[i - |z|]; }
      }
    }
    if s == [] {
      if k > 0 {
        assert t == z;
        assert t[..|t| - 1] == Repeat('0', k - 1) + [];
        DecValueLeadingZeros(k - 1, []);
        assert DigitValue(t[|t| - 1]) == 0;
      }
    } else {
      var s' := s[..|s| - 1];
      assert t[..|t| - 1] == z + s';
      assert t[|t| - 1] == s[|s| - 1];
      DecValueLeadingZeros(k, s');
    }
  }

  /** printf("%0<w>d", n): sign first, then zeros up to the field width, then the digits. */
  function ZeroPad(n: int, w: nat): string {
    if n >= 0 then Repeat('0', w - |Digits(n)|) + Digits(n)
    else "-" + Repeat('0', w - 1 - |Digits(-n)|) + Digits(-n)
  }

  /** A number that fits its field prints as exactly `w` digits, which read back as the number. */
  lemma ZeroPadRoundTrip(n: int, w: nat)
    requires 1 <= w && 0 <= n < Pow10(w)
    ensures |ZeroPad(n, w)| == w
    ensures AllDigits(ZeroPad(n, w))
    ensures DecValue(ZeroPad(n, w)) == n
  {
    var d := Digits(n);
    DigitsLength(n, w);
    var k: nat := w - |d|;
    assert ZeroPad(n, w) == Repeat('0', k) + d;
    DecValueLeadingZeros(k, d);
    DecValueDigits(n);
  }

  /** printf("%d", n) and printf("%ld", n). */
  function IntText(n: int): string {
    if n < 0 then "-" + Digits(-n) else Digits(n)
  }

  /** A right-aligned printf field of width `w` ("%3d" is SpacePad(IntText(n), 3)). */
  function SpacePad(s: string, w: nat): string {
    Repeat(' ', w - |s|) + s
  }

  /** What snprintf keeps of `s` in a buffer with room for `max` characters and the NUL. */
  function Truncate(s: string, max: nat): (r: string)
    ensures |r| <= max && StartsWith(s, r)
    ensures |s| <= max ==> r == s
    ensures |s| > max ==> |r| == max
  {
    if |s| <= max then s else s[..max]
  }

  /** The string with its leading isspace() characters skipped. */
  function DropSpaces(s: string): (r: string)
    ensures |r| <= |s| && r == s[|s| - |r|..]
    ensures r != [] ==> !IsSpace(r[0])
    decreases |s|
  {
    if s != [] && IsSpace(s[0]) then DropSpaces(s[1..]) else s
  }

  /** The longest prefix of `s` made of decimal digits. */
  function DigitRun(s: string): (r: string)
    ensures AllDigits(r) && StartsWith(s, r)
    ensures |r| < |s| ==> !IsDigit(s[|r|])
    decreases |s|
  {
    if s != [] && IsDigit(s[0]) then
      var rest := DigitRun(s[1..]);
      assert s == [s[0]] + s[1..];
      [s[0]] + rest
    else []
  }

  /** atoi(): optional leading white space and sign, then as many digits as follow; 0 when none do. */
  function Atoi(s: string): int {
    var t := DropSpaces(s);
    if t != [] && t[0] == '-' then 0 - DecValue(DigitRun(t[1..]))
    else if t != [] && t[0] == '+' then DecValue(DigitRun(t[1..]))
    else DecValue(DigitRun(t))
  }

  lemma {:induction false} DigitRunAll(s: string)
    requires AllDigits(s)
    ensures DigitRun(s) == s
    decreases |s|
  {
    if s != [] {
      DigitRunAll(s[1..]);
      assert s == [s[0]] + s[1..];
    }
  }

  /** atoi reads back every number printed with %d. */
  lemma AtoiIntText(n: int)
    ensures Atoi(IntText(n)) == n
  {
    if n < 0 {
      var d := Digits(-n);
      var t := "-" + d;
      assert t[0] == '-' && !IsSpace(t[0]);
      assert DropSpaces(t) == t;
      assert t[1..] == d;
      DigitRunAll(d);
      DecValueDigits(-n);
      assert Atoi(t) == 0 - DecValue(d);
    } else {
      var d := Digits(n);
      assert IsDigit(d[0]) && !IsSpace(d[0]);
      assert DropSpaces(d) == d;
      DigitRunAll(d);
      DecValueDigits(n);
      assert Atoi(d) == DecValue(d);
    }
  }

  /** atoi yields 0 for text that holds no number after the white space and sign. */
  lemma AtoiNoDigits(s: string)
    requires var t := DropSpaces(s);
             (t == [] || !IsDigit(t[0])) &&
             (t != [] && (t[0] == '-' || t[0] == '+') ==> |t| == 1 || !IsDigit(t[1]))
    ensures Atoi(s) == 0
  {
  }

  /** C's `/` on a positive divisor: the quotient truncated toward zero. */
  function CDiv(a: int, b: int): (q: int)
    requires b > 0
    ensures a >= 0 ==> 0 <= q && q * b <= a < (q + 1) * b
    ensures a < 0 ==> q <= 0 && (q - 1) * b < a <= q * b
  {
    if a >= 0 then
      FloorDivBounds(a, b);
      a / b
    else
      var m := 0 - a;
      FloorDivBounds(m, b);
      NegateBounds(m / b, m, b);
      0 - m / b
  }

  /** The quotient of a non-negative number brackets it between two multiples of the divisor. */
  lemma FloorDivBounds(m: int, b: int)
    requires m >= 0 && b > 0
    ensures 0 <= m / b && (m / b) * b <= m < (m / b + 1) * b
  {
    assert m == (m / b) * b + m % b;
    assert (m / b + 1) * b == (m / b) * b + b;
  }

  /** Negating a bracketed number flips its bracket. */
  lemma NegateBounds(d: int, m: int, b: int)
    requires b > 0 && d * b <= m < (d + 1) * b
    ensures (0 - d - 1) * b < 0 - m <= (0 - d) * b
  {
    assert (0 - d - 1) * b == 0 - (d + 1) * b;
    assert (0 - d) * b == 0 - d * b;
  }

  /** Truncating division keeps order. */
  lemma CDivMonotone(a: int, c: int, b: int)
    requires b > 0 && a <= c
    ensures CDiv(a, b) <= CDiv(c, b)
  {
    var qa, qc := CDiv(a, b), CDiv(c, b);
    assert (qa - 1) * b < a <= c < (qc + 1) * b;
    MulCancel(qa - 1, qc + 1, b);
  }

  lemma MulCancel(x: int, y: int, b: int)
    requires b > 0 && x * b < y * b
    ensures x < y
  {
    assert (y - x) * b == y * b - x * b;
  }
}
