/**
 * `article.date.getTime() + '.md'`: the time value (an integer number of
 * milliseconds, at most 8.64e15 in size for a valid date) written in decimal,
 * as JavaScript's Number-to-String gives it for integers below 1e21.
 */
module Decimal {

  function DigitChar(d: nat): char
    requires d < 10
  {
    "0123456789"[d]
  }

  predicate IsDigit(c: char) {
    '0' <= c <= '9'
  }

  /** The decimal digits of `n`, most significant first, without leading zeros. */
  function NatDigits(n: nat): (s: string)
    ensures |s| > 0 && (forall i :: 0 <= i < |s| ==> IsDigit(s[i]))
    ensures s[0] == '0' ==> n == 0
  {
    if n < 10 then [DigitChar(n)] else NatDigits(n / 10) + [DigitChar(n % 10)]
  }

  /** The JavaScript rendering of an integral Number: a `-` sign, then digits. */
  function Show(n: int): string {
    if n < 0 then "-" + NatDigits(-n) else NatDigits(n)
  }

  /** The value of a string of digits. */
  function DigitsValue(s: string): int {
    if s == [] then 0 else DigitsValue(s[..|s| - 1]) * 10 + (s[|s| - 1] as int - '0' as int)
  }

  /** Reads back an optionally negative decimal numeral. */
  function ParseInt(s: string): int {
    if |s| > 0 && s[0] == '-' then -DigitsValue(s[1..]) else DigitsValue(s)
  }

  lemma {:induction false} DigitsRoundTrip(n: nat)
    ensures DigitsValue(NatDigits(n)) == n
  {
    if n >= 10 {
      DigitsRoundTrip(n / 10);
      var s := NatDigits(n);
      assert s[..|s| - 1] == NatDigits(n / 10);
    }
  }

  lemma ParseSigned(digits: string)
    ensures ParseInt("-" + digits) == -DigitsValue(digits)
  {
    assert ("-" + digits)[1..] == digits;
  }

  lemma ParseUnsigned(digits: string)
    requires |digits| > 0 && IsDigit(digits[0])
    ensures ParseInt(digits) == DigitsValue(digits)
  {
  }

  /** Reading a rendered number gives the number back. */
  lemma ParseShow(n: int)
    ensures ParseInt(Show(n)) == n
  {
    var m: nat := if n < 0 then -n else n;
    var d := NatDigits(m);
    DigitsRoundTrip(m);
    if n < 0 {
      assert Show(n) == "-" + d;
      ParseSigned(d);
    } else {
      assert Show(n) == d;
      ParseUnsigned(d);
    }
  }

  /** `getTime() + '.md'`. */
  function FileName(millis: int): string {
    Show(millis) + ".md"
  }

  /** `pathOrg + filename`: where the article dated `millis` is written. */
  function FilePath(pathOrg: string, millis: int): string {
    pathOrg + FileName(millis)
  }

  /** The path is the directory, a name that reads back as the time value,
      and the `.md` extension. */
  lemma FilePathParts(pathOrg: string, millis: int)
    ensures var path := FilePath(pathOrg, millis);
      && |path| > |pathOrg| + 3 && path[..|pathOrg|] == pathOrg
      && path[|path| - 3..] == ".md"
      && ParseInt(path[|pathOrg|..|path| - 3]) == millis
  {
    ParseShow(millis);
    var digits := Show(millis);
    var path := FilePath(pathOrg, millis);
    assert path == pathOrg + digits + ".md";
    assert path[|pathOrg|..|path| - 3] == digits;
  }

  /** Two articles share an output file exactly when they share a time value. */
  lemma FilePathInjective(pathOrg: string, m: int, n: int)
    ensures FilePath(pathOrg, m) == FilePath(pathOrg, n) <==> m == n
  {
    if FilePath(pathOrg, m) == FilePath(pathOrg, n) {
      var p := FilePath(pathOrg, m);
      assert Show(m) == p[|pathOrg|..|p| - 3];
      assert Show(n) == p[|pathOrg|..|p| - 3];
      ParseShow(m);
      ParseShow(n);
    }
  }
}
