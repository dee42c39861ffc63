/** The parts of the C library and of the Arduino `String` class that the firmware
    relies on, written out explicitly: fixed-width integer casts, `constrain`, C's
    truncating `%`, `atoi`/`String::toInt`, `String::indexOf`, `String::substring`,
    `trim`, `toLowerCase` and `%d` formatting of unsigned values.

    Strings are sequences of characters that contain no NUL (they come from C strings). */
module Arduino {

  type byte = x: int | 0 <= x < 0x100
  type uint16 = x: int | 0 <= x < 0x1_0000
  type uint64 = x: int | 0 <= x < 0x1_0000_0000_0000_0000
  type int16 = x: int | -0x8000 <= x < 0x8000

  //--------------------------------------------------------------------------
  // Integer conversions
  //--------------------------------------------------------------------------

  /** Conversion to `uint8_t`: reduction modulo 256 (Dafny's `%` is Euclidean,
      which is exactly C's conversion to an unsigned type). */
  function ToByte(x: int): byte
  {
    x % 0x100
  }

  /** A value that already fits is kept. */
  lemma ByteFits(b: byte)
    ensures (b as int) % 0x100 == b
  {
  }

  /** Conversion to `uint16_t`. */
  function ToUInt16(x: int): uint16
  {
    x % 0x1_0000
  }

  /** Conversion to a 32-bit `unsigned int`, as when -1 is passed where an
      unsigned index is expected. */
  function ToUInt32(x: int): nat
  {
    x % 0x1_0000_0000
  }

  /** Conversion to `int16_t` (two's complement wrap-around). */
  function ToInt16(x: int): int16
  {
    var u := x % 0x1_0000;
    if u < 0x8000 then u else u - 0x1_0000
  }

  /** C's `%`, which truncates toward zero: the remainder has the sign of `a`. */
  function CRem(a: int, b: int): (r: int)
    requires b != 0
    ensures a >= 0 ==> 0 <= r < if b > 0 then b else -b
    ensures a < 0 ==> -(if b > 0 then b else -b) < r <= 0
  {
    var m := if b > 0 then b else -b;
    if a >= 0 then a % m else -((-a) % m)
  }

  /** Arduino's `constrain(x, lo, hi)`. */
  function Constrain(x: int, lo: int, hi: int): (r: int)
    requires lo <= hi
    ensures lo <= r <= hi
    ensures lo <= x <= hi ==> r == x
    ensures x < lo ==> r == lo
    ensures x > hi ==> r == hi
  {
    if x < lo then lo else if x > hi then hi else x
  }

  function Pow256(n: nat): (r: nat)
    ensures r >= 1
  {
    if n == 0 then 1 else 256 * Pow256(n - 1)
  }

  //--------------------------------------------------------------------------
  // Characters
  //--------------------------------------------------------------------------

  predicate IsDigit(c: char)
  {
    '0' <= c <= '9'
  }

  /** C's `isspace` in the "C" locale. */
  predicate IsSpace(c: char)
  {
    c == ' ' || 9 <= c as int <= 13
  }

  function DigitValue(c: char): nat
    requires IsDigit(c)
  {
    c as int - '0' as int
  }

  function DigitChar(d: nat): (c: char)
    requires d < 10
    ensures IsDigit(c) && DigitValue(c) == d
  {
    ('0' as int + d) as char
  }

  /** C's `tolower` in the "C" locale: only ASCII capitals change. */
  function LowerChar(c: char): char
  {
    if 'A' <= c <= 'Z' then (c as int - 'A' as int + 'a' as int) as char else c
  }

  predicate AllDigits(s: string)
  {
    forall i :: 0 <= i < |s| ==> IsDigit(s[i])
  }

  //--------------------------------------------------------------------------
  // Decimal numbers: `atoi` / `String::toInt` and `%d`
  //--------------------------------------------------------------------------

  /** The value of a string of decimal digits, most significant first: the
      reference definition `atoi` is checked against. */
  function DecimalValue(d: string): nat
    requires AllDigits(d)
  {
    if |d| == 0 then 0 else DecimalValue(d[..|d| - 1]) * 10 + DigitValue(d[|d| - 1])
  }

  /** Reads digits from the front of `s`, starting from the value `acc`, and stops
      at the first character that is not a digit. */
  function Digits(s: string, acc: nat): (r: nat)
    ensures r >= acc
  {
    if |s| > 0 && IsDigit(s[0]) then Digits(s[1..], acc * 10 + DigitValue(s[0])) else acc
  }

  /** No digit follows the leading white space and optional sign. */
  predicate NoNumber(s: string)
  {
    if |s| > 0 && IsSpace(s[0]) then NoNumber(s[1..])
    else
      var u := if |s| > 0 && (s[0] == '-' || s[0] == '+') then s[1..] else s;
      |u| == 0 || !IsDigit(u[0])
  }

  /** The largest value of a 32-bit `long` (and `int`) on the target. */
  const LONG_MAX: nat := 0x7FFF_FFFF

  /** `atoi` (and `String::toInt`, which calls `atol`): skips leading white space,
      takes an optional sign, then the longest run of digits; 0 when there are no
      digits (`AtoINoNumber`), the decimal value on a string of digits
      (`AtoIDecimal`). The C result is undefined past `LONG_MAX`; here it is
      unbounded, so only values within a 32-bit `long` say what the firmware reads. */
  function AtoI(s: string): int
  {
    if |s| > 0 && IsSpace(s[0]) then AtoI(s[1..])
    else if |s| > 0 && s[0] == '-' then -(Digits(s[1..], 0) as int)
    else if |s| > 0 && s[0] == '+' then Digits(s[1..], 0)
    else Digits(s, 0)
  }

  lemma {:induction false} AtoINoNumber(s: string)
    requires NoNumber(s)
    ensures AtoI(s) == 0
    decreases |s|
  {
    if |s| > 0 && IsSpace(s[0]) {
      AtoINoNumber(s[1..]);
    }
  }

  lemma AtoIDecimal(s: string)
    requires AllDigits(s)
    ensures AtoI(s) == DecimalValue(s)
  {
    DigitsOfAllDigits(s);
  }

  /** On a string of digits, reading from the front agrees with the reference value. */
  lemma {:induction false} DigitsOfAllDigits(s: string)
    ensures AllDigits(s) ==> Digits(s, 0) == DecimalValue(s)
    decreases |s|
  {
    if AllDigits(s) && |s| > 0 {
      var init := s[..|s| - 1];
      assert AllDigits(init);
      DigitsOfAllDigits(init);
      DigitsLast(s, 0);
    }
  }

  /** Reading a string of digits is reading all but its last digit, times ten, plus
      the last digit. */
  lemma {:induction false} DigitsLast(s: string, acc: nat)
    requires |s| > 0 && AllDigits(s)
    ensures Digits(s, acc) == Digits(s[..|s| - 1], acc) * 10 + DigitValue(s[|s| - 1])
    decreases |s|
  {
    var a := acc * 10 + DigitValue(s[0]);
    if |s| > 1 {
      DigitsLast(s[1..], a);
      assert s[1..][..|s| - 2] == s[..|s| - 1][1..];
    }
  }

  /** `%d` of a non-negative value. */
  function FormatDecimal(n: nat): (r: string)
    ensures |r| > 0 && AllDigits(r)
    decreases n
  {
    if n < 10 then [DigitChar(n)] else FormatDecimal(n / 10) + [DigitChar(n % 10)]
  }

  /** Printing a number with `%d` and reading it back with `atoi` gives the number. */
  lemma {:induction false} FormatDecimalRoundTrip(n: nat)
    ensures AtoI(FormatDecimal(n)) == n
    decreases n
  {
    DecimalOfFormat(n);
    AtoIDecimal(FormatDecimal(n));
  }

  lemma {:induction false} DecimalOfFormat(n: nat)
    ensures DecimalValue(FormatDecimal(n)) == n
    decreases n
  {
    var r := FormatDecimal(n);
    if n >= 10 {
      DecimalOfFormat(n / 10);
      assert r[..|r| - 1] == FormatDecimal(n / 10);
    }
  }

  //--------------------------------------------------------------------------
  // String operations
  //--------------------------------------------------------------------------

  /** `String::indexOf(c, from)`: the first index at or after `from` holding `c`,
      or -1 when there is none (including when `from` is past the end). */
  function IndexOf(s: string, c: char, from: nat): (r: int)
    ensures -1 <= r < |s|
    ensures r >= 0 ==> from <= r && s[r] == c && forall k :: from <= k < r ==> s[k] != c
    ensures r == -1 <==> forall k :: from <= k < |s| ==> s[k] != c
    decreases |s| - from
  {
    if from >= |s| then -1
    else if s[from] == c then from
    else IndexOf(s, c, from + 1)
  }

  /** `String::substring(left, right)`: the bounds are swapped when `left > right`,
      the result is empty when the lower bound is at or past the end, and the upper
      bound is cut back to the length. */
  function Substring(s: string, left: nat, right: nat): (r: string)
    ensures left <= right <= |s| ==> r == s[left..right]
    ensures left <= |s| <= right ==> r == s[left..]
  {
    var lo := if left > right then right else left;
    var hi := if left > right then left else right;
    if lo >= |s| then "" else s[lo..if hi > |s| then |s| else hi]
  }

  /** `String::substring(left)`. */
  function SubstringFrom(s: string, left: nat): (r: string)
    ensures left <= |s| ==> r == s[left..]
    ensures left > |s| ==> r == ""
  {
    Substring(s, left, |s|)
  }

  function LeadingSpaces(s: string): (n: nat)
    ensures n <= |s|
    ensures forall i :: 0 <= i < n ==> IsSpace(s[i])
    ensures n == |s| || !IsSpace(s[n])
  {
    if |s| > 0 && IsSpace(s[0]) then 1 + LeadingSpaces(s[1..]) else 0
  }

  function TrailingSpaces(s: string): (n: nat)
    ensures n <= |s|
    ensures forall i :: |s| - n <= i < |s| ==> IsSpace(s[i])
    ensures n == |s| || !IsSpace(s[|s| - n - 1])
  {
    if |s| > 0 && IsSpace(s[|s| - 1]) then 1 + TrailingSpaces(s[..|s| - 1]) else 0
  }

  /** `String::trim`: white space removed from both ends. The result is the part
      of `s` between white space only (`TrimInner`), and starts and ends with
      something else; `TrimUnique` shows these determine it. */
  function Trim(s: string): (r: string)
    ensures |r| == 0 || (!IsSpace(r[0]) && !IsSpace(r[|r| - 1]))
    ensures (|s| == 0 || (!IsSpace(s[0]) && !IsSpace(s[|s| - 1]))) ==> r == s
  {
    var t := s[LeadingSpaces(s)..];
    t[..|t| - TrailingSpaces(t)]
  }

  /** What trimming removes is white space at the two ends of `s`. */
  lemma TrimInner(s: string)
    ensures exists i, j :: 0 <= i <= j <= |s| && Trim(s) == s[i..j] && AllSpace(s[..i]) && AllSpace(s[j..])
  {
    var i := LeadingSpaces(s);
    var n := TrailingSpaces(s[i..]);
    SpaceEnds(s, i, n);
    assert Trim(s) == s[i..|s| - n];
  }

  /** `s` cut after `i` leading and before `n` trailing blanks. */
  lemma SpaceEnds(s: string, i: nat, n: nat)
    requires i <= |s| && n <= |s| - i
    requires forall k :: 0 <= k < i ==> IsSpace(s[k])
    requires forall k :: |s[i..]| - n <= k < |s[i..]| ==> IsSpace(s[i..][k])
    ensures s[i..][..|s| - i - n] == s[i..|s| - n]
    ensures AllSpace(s[..i]) && AllSpace(s[|s| - n..])
  {
    var w := s[|s| - n..];
    forall k | 0 <= k < |w| ensures IsSpace(w[k]) {
      assert w[k] == s[i..][|s| - i - n + k];
    }
  }

  predicate AllSpace(s: string)
  {
    forall i :: 0 <= i < |s| ==> IsSpace(s[i])
  }

  /** Trimming white space `w1`, text `t` that starts and ends with something else,
      and white space `w2` gives `t`. */
  lemma TrimUnique(w1: string, t: string, w2: string)
    requires AllSpace(w1) && AllSpace(w2)
    requires |t| == 0 || (!IsSpace(t[0]) && !IsSpace(t[|t| - 1]))
    ensures Trim(w1 + t + w2) == t
  {
    var s := w1 + t + w2;
    var i := LeadingSpaces(s);
    if |t| == 0 {
      assert AllSpace(s) by {
        forall k | 0 <= k < |s| ensures IsSpace(s[k]) {
          if k < |w1| { assert s[k] == w1[k]; } else { assert s[k] == w2[k - |w1|]; }
        }
      }
      assert i == |s|;
    } else {
      assert s[|w1|] == t[0];
      forall k | 0 <= k < |w1| ensures IsSpace(s[k]) { assert s[k] == w1[k]; }
      assert i == |w1|;
      var u := s[i..];
      assert u == t + w2;
      assert u[|t| - 1] == t[|t| - 1];
      forall k | |t| <= k < |u| ensures IsSpace(u[k]) { assert u[k] == w2[k - |t|]; }
      assert TrailingSpaces(u) == |w2|;
      assert u[..|u| - |w2|] == t;
    }
  }

  /** `String::toLowerCase`. */
  function Lower(s: string): (r: string)
    ensures |r| == |s| && forall i :: 0 <= i < |s| ==> r[i] == LowerChar(s[i])
  {
    seq(|s|, i requires 0 <= i < |s| => LowerChar(s[i]))
  }

  /** `stricmp(a, b) == 0`. */
  predicate EqualsIgnoreCase(a: string, b: string)
  {
    Lower(a) == Lower(b)
  }

  /** `strnicmp(s, p, |p|) == 0`: the first |p| characters of `s` equal `p`
      ignoring case (a shorter `s` differs at its terminating NUL). */
  predicate StartsWithIgnoreCase(s: string, p: string)
  {
    |p| <= |s| && Lower(s[..|p|]) == Lower(p)
  }

  //--------------------------------------------------------------------------
  // Facts used by the round-trip proofs
  //--------------------------------------------------------------------------

  /** The first `c` at or after `from` is found after a stretch `m` free of `c`. */
  lemma {:induction false} IndexOfAfter(s: string, c: char, from: nat, m: string)
    requires from + |m| < |s| && s[from..from + |m|] == m && c !in m && s[from + |m|] == c
    ensures IndexOf(s, c, from) == from + |m|
    decreases |m|
  {
    if |m| > 0 {
      assert s[from] == m[0];
      assert s[from + 1..from + 1 + |m[1..]|] == m[1..];
      IndexOfAfter(s, c, from + 1, m[1..]);
    }
  }

  /** No `c` at or after `from` when the rest of `s` is free of `c`. */
  lemma {:induction false} IndexOfAbsent(s: string, c: char, from: nat)
    requires from <= |s| && c !in s[from..]
    ensures IndexOf(s, c, from) == -1
  {
    forall k | from <= k < |s| ensures s[k] != c {
      assert s[k] == s[from..][k - from];
    }
  }

  /** Where the two separators of `pre c mid c post` are found, and what the
      substrings between them are. */
  lemma {:induction false} ThreeFields(pre: string, mid: string, post: string, c: char)
    requires |pre| > 0 && c !in pre && c !in mid
    ensures var s := pre + [c] + mid + [c] + post;
            IndexOf(s, c, 0) == |pre| && IndexOf(s, c, |pre| + 1) == |pre| + 1 + |mid|
            && Substring(s, 0, |pre|) == pre && Substring(s, |pre| + 1, |pre| + 1 + |mid|) == mid
            && SubstringFrom(s, |pre| + |mid| + 2) == post
  {
    var s := pre + [c] + mid + [c] + post;
    var i, j := |pre|, |pre| + 1 + |mid|;
    assert s[..i] == pre;
    assert s[i + 1..j] == mid;
    assert s[j + 1..] == post;
    assert s[i] == c && s[j] == c;
    SeparatorsAt(s, c, i, j);
  }

  /** The separators at `i` and `j` of a string whose fields before them are free of
      the separator are the ones `indexOf` finds. */
  lemma SeparatorsAt(s: string, c: char, i: nat, j: nat)
    requires i < j < |s| && s[i] == c && s[j] == c && c !in s[..i] && c !in s[i + 1..j]
    ensures IndexOf(s, c, 0) == i && IndexOf(s, c, i + 1) == j
  {
    IndexOfAfter(s, c, 0, s[..i]);
    IndexOfAfter(s, c, i + 1, s[i + 1..j]);
  }

  /** The same for `pre c mid` with no second separator. */
  lemma TwoFields(pre: string, mid: string, c: char)
    requires |pre| > 0 && c !in pre && c !in mid
    ensures var s := pre + [c] + mid;
            IndexOf(s, c, 0) == |pre| && IndexOf(s, c, |pre| + 1) == -1
            && Substring(s, 0, |pre|) == pre && SubstringFrom(s, |pre| + 1) == mid
  {
    var s := pre + [c] + mid;
    assert s[0..|pre|] == pre;
    IndexOfAfter(s, c, 0, pre);
    assert s[|pre| + 1..] == mid;
    IndexOfAbsent(s, c, |pre| + 1);
  }

  lemma DigitsHaveNo(s: string, c: char)
    requires AllDigits(s) && !IsDigit(c)
    ensures c !in s
  {
  }
}
