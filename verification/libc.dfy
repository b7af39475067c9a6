/**
 The C library behaviour the port-discovery code relies on, stated on values:
 `strtol` with base 10 and its end pointer, the `(int)` conversion of a `long`,
 `snprintf("%d")`, `fgets` on a file's text, cutting a line at its first
 newline (`strchr` then `*q = '\0'`), and `strcasecmp` in the C locale.
 */
module LibC {

  datatype Option<T> = None | Some(value: T)

  /** A C `int`: 32-bit two's complement. */
  type int32 = x: int | -0x8000_0000 <= x < 0x8000_0000

  /** The range of a C `long` on an LP64 platform. */
  const LONG_MIN: int := -0x8000_0000_0000_0000
  const LONG_MAX: int := 0x7fff_ffff_ffff_ffff

  /** A positive `errno` value; the code returns its negation. */
  type Errno = e: int | e > 0 witness 1

  const EINVAL: int := 22
  const ENOMEM: int := 12
  const EHOSTUNREACH: int := 113

  /** isspace in the C locale: blank, \t, \n, \v, \f, \r. */
  predicate IsSpace(c: char)
  {
    c == ' ' || '\t' <= c <= '\r'
  }

  predicate IsDigit(c: char)
  {
    '0' <= c <= '9'
  }

  predicate AllDigits(s: string)
  {
    forall i :: 0 <= i < |s| ==> IsDigit(s[i])
  }

  function DigitValue(c: char): (d: nat)
    requires IsDigit(c)
    ensures d < 10
  {
    c as int - '0' as int
  }

  function Digit(d: nat): (c: char)
    requires d < 10
    ensures IsDigit(c) && DigitValue(c) == d
  {
    ('0' as int + d) as char
  }

  /** The value of a string of decimal digits, most significant first. */
  function DecimalValue(s: string): nat
    requires AllDigits(s)
    decreases |s|
  {
    if s == [] then 0 else DecimalValue(s[..|s| - 1]) * 10 + DigitValue(s[|s| - 1])
  }

  /** The index of the first non-space character at or after i. */
  function SkipSpace(s: string, i: nat): (j: nat)
    requires i <= |s|
    ensures i <= j <= |s|
    ensures j < |s| ==> !IsSpace(s[j])
    decreases |s| - i
  {
    if i < |s| && IsSpace(s[i]) then SkipSpace(s, i + 1) else i
  }

  /** The index just past the run of digits that starts at i. */
  function DigitRun(s: string, i: nat): (j: nat)
    requires i <= |s|
    ensures i <= j <= |s|
    ensures AllDigits(s[i..j])
    ensures j < |s| ==> !IsDigit(s[j])
    decreases |s| - i
  {
    if i < |s| && IsDigit(s[i]) then
      var j := DigitRun(s, i + 1);
      assert s[i..j] == [s[i]] + s[i + 1..j];
      j
    else i
  }

  /** What strtol returns for a value outside the range of `long` (it also sets ERANGE). */
  function ClampLong(v: int): (r: int)
    ensures LONG_MIN <= r <= LONG_MAX
    ensures LONG_MIN <= v <= LONG_MAX ==> r == v
  {
    if v > LONG_MAX then LONG_MAX else if v < LONG_MIN then LONG_MIN else v
  }

  /**
   strtol(s, &endp, 10) on the C string s: the value and the index of endp.
   Leading white space and one sign are skipped; when no digit follows,
   the value is 0 and endp is s itself (index 0).
   */
  function StrToL(s: string): (r: (int, nat))
    ensures r.1 <= |s|
    ensures LONG_MIN <= r.0 <= LONG_MAX
    ensures r.1 == 0 ==> r.0 == 0
    ensures r.1 > 0 ==> IsDigit(s[r.1 - 1]) && (r.1 < |s| ==> !IsDigit(s[r.1]))
    ensures var i := SkipSpace(s, 0);
      var d := if i < |s| && (s[i] == '-' || s[i] == '+') then i + 1 else i;
      (r.1 == 0 <==> DigitRun(s, d) == d)
      && (r.1 > 0 ==>
            (d < r.1 && AllDigits(s[d..r.1])
             && r.0 == ClampLong(if d > i && s[i] == '-' then -(DecimalValue(s[d..r.1]) as int) else DecimalValue(s[d..r.1]))))
  {
    var i := SkipSpace(s, 0);
    var signed := i < |s| && (s[i] == '-' || s[i] == '+');
    var j := if signed then i + 1 else i;
    var k := DigitRun(s, j);
    if k == j then (0, 0)
    else
      var m: int := DecimalValue(s[j..k]);
      (ClampLong(if signed && s[i] == '-' then -m else m), k)
  }

  /** The C conversion `(int)` of a `long`: reduction modulo 2^32 into the int range. */
  function ToCInt(v: int): (r: int32)
    ensures (v - r) % 0x1_0000_0000 == 0
    ensures -0x8000_0000 <= v < 0x8000_0000 ==> r == v
  {
    var w := v % 0x1_0000_0000;
    if w >= 0x8000_0000 then w - 0x1_0000_0000 else w
  }

  /** The decimal digits of n, without leading zeros. */
  function NatToDecimal(n: nat): (s: string)
    ensures |s| > 0 && AllDigits(s)
    decreases n
  {
    if n < 10 then [Digit(n)] else NatToDecimal(n / 10) + [Digit(n % 10)]
  }

  /** snprintf(buf, size, "%d", n) for a buffer large enough for any int. */
  function IntToDecimal(n: int): (s: string)
    ensures |s| > 0 && (IsDigit(s[0]) || s[0] == '-')
    ensures '\n' !in s
  {
    if n < 0 then "-" + NatToDecimal(-n) else NatToDecimal(n)
  }

  /** The index just past the line that starts at i: after its '\n', or the end of s. */
  function LineEnd(s: string, i: nat): (e: nat)
    requires i < |s|
    ensures i < e <= |s|
    ensures '\n' !in s[i..e - 1]
    ensures e < |s| ==> s[e - 1] == '\n'
    decreases |s| - i
  {
    if s[i] == '\n' || i + 1 == |s| then i + 1
    else
      var e := LineEnd(s, i + 1);
      assert s[i..e - 1] == [s[i]] + s[i + 1..e - 1];
      e
  }

  /**
   fgets on a stream positioned at pos of content: the line read (with its
   '\n' when there is one) and the new position; None at end of file.
   */
  function FGets(content: string, pos: nat): (r: Option<(string, nat)>)
    requires pos <= |content|
    ensures r.None? <==> pos == |content|
    ensures r.Some? ==> pos < r.value.1 <= |content| && r.value.0 == content[pos..r.value.1]
    ensures r.Some? ==> r.value.1 == LineEnd(content, pos)
  {
    if pos == |content| then None
    else
      var e := LineEnd(content, pos);
      Some((content[pos..e], e))
  }

  /** The C string left after `if ((q = strchr(buf, '\n')) != NULL) *q = '\0'`. */
  function CutAtNewline(s: string): (r: string)
    ensures '\n' !in r
    ensures |r| <= |s| && r == s[..|r|]
    ensures r == s || s[|r|] == '\n'
  {
    if s == [] || s[0] == '\n' then []
    else
      var r := CutAtNewline(s[1..]);
      assert s[1..][..|r|] == s[1..|r| + 1];
      [s[0]] + r
  }

  function ToLower(c: char): char
  {
    if 'A' <= c <= 'Z' then (c as int + 32) as char else c
  }

  /** A string with every upper-case ASCII letter replaced by its lower-case one. */
  function Lower(s: string): (r: string)
    ensures |r| == |s|
  {
    seq(|s|, i requires 0 <= i < |s| => ToLower(s[i]))
  }

  /**
   strcasecmp(a, b) == 0 in the C locale: the strings compare equal
   character by character once folded to lower case.
   */
  function StrCaseEq(a: string, b: string): (eq: bool)
    ensures eq <==> Lower(a) == Lower(b)
  {
    var eq := |a| == |b| && forall i :: 0 <= i < |a| ==> ToLower(a[i]) == ToLower(b[i]);
    assert eq ==> Lower(a) == Lower(b) by {
      if eq {
        assert forall i :: 0 <= i < |a| ==> Lower(a)[i] == Lower(b)[i];
      }
    }
    assert Lower(a) == Lower(b) ==> eq by {
      if Lower(a) == Lower(b) {
        assert |a| == |Lower(a)| == |Lower(b)| == |b|;
        forall i | 0 <= i < |a|
          ensures ToLower(a[i]) == ToLower(b[i])
        {
          assert Lower(a)[i] == Lower(b)[i];
        }
      }
    }
    eq
  }

  /** A number below 10^k is written with at most k digits. */
  lemma {:induction false} NatToDecimalLength(n: nat, k: nat, bound: nat)
    requires k > 0 && n < bound && bound == Pow10(k)
    ensures |NatToDecimal(n)| <= k
    decreases n
  {
    if n >= 10 {
      assert k > 1;
      NatToDecimalLength(n / 10, k - 1, Pow10(k - 1));
    }
  }

  function Pow10(k: nat): (p: nat)
    ensures p >= 1
  {
    if k == 0 then 1 else 10 * Pow10(k - 1)
  }

  /** "%d" of an int takes at most 11 characters, the sign included. */
  lemma IntToDecimalFits(n: int32)
    ensures |IntToDecimal(n)| <= 11
  {
    assert Pow10(10) == 10_000_000_000;
    NatToDecimalLength(if n < 0 then -(n as int) else n as int, 10, Pow10(10));
  }

  lemma {:induction false} NatToDecimalValue(n: nat)
    ensures DecimalValue(NatToDecimal(n)) == n
    decreases n
  {
    if n >= 10 {
      NatToDecimalValue(n / 10);
      var s := NatToDecimal(n);
      assert s[..|s| - 1] == NatToDecimal(n / 10);
    }
  }

  lemma {:induction false} DigitRunOver(s: string, i: nat, k: nat)
    requires i <= k <= |s|
    requires AllDigits(s[i..k])
    requires k == |s| || !IsDigit(s[k])
    ensures DigitRun(s, i) == k
    decreases k - i
  {
    if i < k {
      assert IsDigit(s[i..k][0]);
      assert s[i + 1..k] == s[i..k][1..];
      DigitRunOver(s, i + 1, k);
    }
  }

  /**
   A string that starts with neither white space, a sign nor a digit holds
   no number: strtol gives 0 and leaves endp at the start.
   */
  lemma NoNumberReadsNothing(s: string)
    requires s == [] || (!IsSpace(s[0]) && s[0] != '-' && s[0] != '+' && !IsDigit(s[0]))
    ensures StrToL(s) == (0, 0)
  {
  }

  /**
   strtol reads back what snprintf "%d" wrote: the whole rendering is
   consumed and its value is n, whatever non-digit follows it.
   */
  lemma IntToDecimalRoundTrip(n: int32, rest: string)
    requires rest == [] || !IsDigit(rest[0])
    ensures StrToL(IntToDecimal(n) + rest) == (n, |IntToDecimal(n)|)
  {
    var d := IntToDecimal(n);
    var s := d + rest;
    var m: nat := if n < 0 then -(n as int) else n as int;
    var j := if n < 0 then 1 else 0;
    assert s[0] == d[0];
    assert SkipSpace(s, 0) == 0;
    assert j == 1 <==> (s[0] == '-' || s[0] == '+');
    assert d[j..] == NatToDecimal(m);
    assert s[j..|d|] == d[j..];
    assert |d| < |s| ==> s[|d|] == rest[0];
    DigitRunOver(s, j, |d|);
    NatToDecimalValue(m);
    assert DecimalValue(s[j..|d|]) == m;
  }

  lemma {:induction false} CutAtNewlineOfLine(s: string)
    requires '\n' !in s
    ensures CutAtNewline(s + "\n") == s
    decreases |s|
  {
    if s != [] {
      assert (s + "\n")[1..] == s[1..] + "\n";
      CutAtNewlineOfLine(s[1..]);
    }
  }

  /** A line and its newline, followed by anything, is what fgets reads first. */
  lemma {:induction false} FGetsLine(line: string, rest: string, pre: string)
    requires '\n' !in line
    ensures FGets(pre + line + "\n" + rest, |pre|) == Some((line + "\n", |pre| + |line| + 1))
  {
    var c := pre + line + "\n" + rest;
    LineEndAt(c, |pre|, |pre| + |line|);
    assert c[|pre|..|pre| + |line| + 1] == line + "\n";
  }

  /**
   fgets stops just after the first '\n' it reads, or at the end of the
   file when no '\n' follows pos.
   */
  lemma FGetsStopsAtNewline(content: string, pos: nat)
    requires pos < |content|
    ensures var (line, e) := FGets(content, pos).value;
      '\n' !in line[..|line| - 1] && (e < |content| ==> line[|line| - 1] == '\n')
  {
    var (line, e) := FGets(content, pos).value;
    assert line[..|line| - 1] == content[pos..e - 1];
  }

  lemma {:induction false} LineEndAt(s: string, i: nat, k: nat)
    requires i <= k < |s| && s[k] == '\n'
    requires forall x :: i <= x < k ==> s[x] != '\n'
    ensures LineEnd(s, i) == k + 1
    decreases k - i
  {
    if i < k {
      LineEndAt(s, i + 1, k);
    }
  }
}
