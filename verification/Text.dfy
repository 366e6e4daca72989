/** Searching and number reading as the standard library does them: `find`,
    `find_first_of`, `find_first_not_of`, `find_last_not_of`, `stoi` and `stol`. */
module Text {

  datatype Option<+T> = None | Some(value: T)

  const SPACES: set<char> := {' ', '\t'}

  /** The first index at or after `from` holding one of `cs`. */
  function FindAnyOf(s: string, cs: set<char>, from: nat): (r: Option<nat>)
    ensures r.Some? ==> from <= r.value < |s| && s[r.value] in cs
    ensures forall k :: from <= k < (if r.Some? then r.value else |s|) ==> s[k] !in cs
    decreases |s| - from
  {
    if from >= |s| then None
    else if s[from] in cs then Some(from)
    else FindAnyOf(s, cs, from + 1)
  }

  /** The first index at or after `from` holding none of `cs`. */
  function FindNoneOf(s: string, cs: set<char>, from: nat): (r: Option<nat>)
    ensures r.Some? ==> from <= r.value < |s| && s[r.value] !in cs
    ensures forall k :: from <= k < (if r.Some? then r.value else |s|) ==> s[k] in cs
    decreases |s| - from
  {
    if from >= |s| then None
    else if s[from] !in cs then Some(from)
    else FindNoneOf(s, cs, from + 1)
  }

  /** Being the first such index decides what the search returns. */
  lemma FoundAt(s: string, cs: set<char>, from: nat, i: nat)
    requires from <= i < |s| && s[i] in cs
    requires forall k :: from <= k < i ==> s[k] !in cs
    ensures FindAnyOf(s, cs, from) == Some(i)
    decreases i - from
  {
    if from < i {
      FoundAt(s, cs, from + 1, i);
    }
  }

  /** `s` without its trailing characters from `cs`. */
  function TrimRight(s: string, cs: set<char>): (r: string)
    ensures r <= s
    ensures r == [] || r[|r| - 1] !in cs
    ensures forall k :: |r| <= k < |s| ==> s[k] in cs
  {
    if s == [] || s[|s| - 1] !in cs then s else TrimRight(s[..|s| - 1], cs)
  }

  predicate CrlfAt(s: string, i: nat) {
    i + 1 < |s| && s[i] == '\r' && s[i + 1] == '\n'
  }

  /** The index of the first CR LF. */
  function FindCrlf(s: string): (r: Option<nat>)
    ensures r.Some? ==> CrlfAt(s, r.value)
    ensures forall k: nat :: k < (if r.Some? then r.value else |s|) ==> !CrlfAt(s, k)
  {
    FindCrlfFrom(s, 0)
  }

  function FindCrlfFrom(s: string, from: nat): (r: Option<nat>)
    ensures r.Some? ==> from <= r.value && CrlfAt(s, r.value)
    ensures forall k: nat :: from <= k < (if r.Some? then r.value else |s|) ==> !CrlfAt(s, k)
    decreases |s| - from
  {
    if from >= |s| then None
    else if CrlfAt(s, from) then Some(from)
    else FindCrlfFrom(s, from + 1)
  }

  /** A CR LF that is there already is still the first one when more octets follow. */
  lemma CrlfPrefix(d: string, t: string)
    requires d <= t
    ensures FindCrlf(d).Some? ==> FindCrlf(t) == FindCrlf(d)
    ensures FindCrlf(d).None? && FindCrlf(t).Some? ==> |d| < FindCrlf(t).value + 2
  {
    assert forall k: nat :: k + 1 < |d| ==> (CrlfAt(t, k) <==> CrlfAt(d, k));
  }

  /** A line without a CR, then CR LF: that is where the first CR LF is. */
  lemma CrlfAfterLine(line: string, rest: string)
    requires '\r' !in line
    ensures FindCrlf(line + "\r\n" + rest) == Some(|line|)
  {
    var s := line + "\r\n" + rest;
    assert CrlfAt(s, |line|);
    assert forall k: nat :: k < |line| ==> s[k] == line[k] && !CrlfAt(s, k);
  }

  function LowerChar(c: char): char {
    if 'A' <= c <= 'Z' then c - 'A' + 'a' else c
  }

  function Lower(s: string): (r: string)
    ensures |r| == |s| && forall k :: 0 <= k < |s| ==> r[k] == LowerChar(s[k])
  {
    seq(|s|, i requires 0 <= i < |s| => LowerChar(s[i]))
  }

  /** In ASCII only the letters A to Z change, by 32. */
  lemma LowerByCodes(c: char)
    ensures LowerChar(c) as int == if 65 <= c as int <= 90 then c as int + 32 else c as int
  {
  }

  /** The same letter, A to Z or a to z, in either case. */
  predicate CaseMates(a: char, b: char) {
    || (65 <= a as int <= 90 && b as int == a as int + 32)
    || (65 <= b as int <= 90 && a as int == b as int + 32)
  }

  predicate SameButCase(a: string, b: string) {
    |a| == |b| && forall i :: 0 <= i < |a| ==> a[i] == b[i] || CaseMates(a[i], b[i])
  }

  /** Lower case forgets the case of letters and nothing else. */
  lemma LowerIgnoresCase(a: string, b: string)
    ensures Lower(a) == Lower(b) <==> SameButCase(a, b)
  {
    if Lower(a) == Lower(b) {
      assert |a| == |Lower(a)| == |b|;
      forall i | 0 <= i < |a|
        ensures a[i] == b[i] || CaseMates(a[i], b[i])
      {
        assert Lower(a)[i] == Lower(b)[i];
        LowerByCodes(a[i]);
        LowerByCodes(b[i]);
      }
    }
  }

  predicate NoCapital(s: string) {
    forall i :: 0 <= i < |s| ==> !(65 <= s[i] as int <= 90)
  }

  lemma LowerHasNoCapital(s: string)
    ensures NoCapital(Lower(s))
    ensures Lower(s) == s <==> NoCapital(s)
  {
    if Lower(s) == s {
      assert forall i :: 0 <= i < |s| ==> s[i] == Lower(s)[i];
    }
  }

  predicate Contains(s: string, sub: string) {
    exists i: nat | i <= |s| :: sub <= s[i..]
  }

  lemma ContainsMeaning(s: string, sub: string)
    ensures Contains(s, sub) <==> exists a, b :: s == a + sub + b
  {
    if i: nat :| i <= |s| && sub <= s[i..] {
      assert s == s[..i] + sub + s[i + |sub|..];
    }
    if a, b :| s == a + sub + b {
      assert sub <= s[|a|..];
    }
  }

  /** Blank and tab. */
  lemma SpacesByCodes(c: char)
    ensures c in SPACES <==> c as int == 32 || c as int == 9
  {
  }

  // ---- stoi and stol -------------------------------------------------------

  const BLANKS: set<char> := {' ', '\t', '\n', '\r', '\U{0B}', '\U{0C}'}

  /** Blank, and tab to carriage return. */
  lemma BlanksByCodes(c: char)
    ensures c in BLANKS <==> c as int == 32 || 9 <= c as int <= 13
  {
  }

  function DigitValue(c: char): (v: int)
    ensures -1 <= v < 36
  {
    if '0' <= c <= '9' then c as int - '0' as int
    else if 'a' <= c <= 'z' then c as int - 'a' as int + 10
    else if 'A' <= c <= 'Z' then c as int - 'A' as int + 10
    else -1
  }

  predicate IsDigit(c: char, base: nat) {
    0 <= DigitValue(c) < base
  }

  /** 0 to 9, and letters from 10 on in either case. */
  lemma DigitByCodes(c: char)
    ensures DigitValue(c) == if 48 <= c as int <= 57 then c as int - 48
                             else if 97 <= c as int <= 122 then c as int - 87
                             else if 65 <= c as int <= 90 then c as int - 55
                             else -1
  {
  }

  /** How many leading characters of `s` are digits. */
  function DigitCount(s: string, base: nat): (n: nat)
    ensures n <= |s|
    ensures forall k :: 0 <= k < n ==> IsDigit(s[k], base)
    ensures n < |s| ==> !IsDigit(s[n], base)
  {
    if s == [] || !IsDigit(s[0], base) then 0 else 1 + DigitCount(s[1..], base)
  }

  function Horner(high: nat, base: nat, low: nat): nat {
    high * base + low
  }

  function DigitsValue(s: string, base: nat): nat
    requires forall k :: 0 <= k < |s| ==> IsDigit(s[k], base)
  {
    if s == [] then 0
    else
      assert IsDigit(s[|s| - 1], base);
      Horner(DigitsValue(s[..|s| - 1], base), base, DigitValue(s[|s| - 1]))
  }

  function SkipBlanks(s: string): string {
    var start := FindNoneOf(s, BLANKS, 0);
    if start.Some? then s[start.value..] else ""
  }

  function SkipSign(s: string): string {
    if s != "" && (s[0] == '-' || s[0] == '+') then s[1..] else s
  }

  function SkipPrefix(s: string, base: nat): string {
    if base == 16 && |s| >= 3 && s[0] == '0' && s[1] in {'x', 'X'} && IsDigit(s[2], 16) then s[2..] else s
  }

  /** What `strtol` reads: blanks, a sign, `0x` when the base is 16, digits;
      whatever follows is ignored and no digit at all is an error. */
  function StrToInt(s: string, base: nat): Option<int> {
    var s1 := SkipBlanks(s);
    var s3 := SkipPrefix(SkipSign(s1), base);
    var n := DigitCount(s3, base);
    if n == 0 then None
    else
      var magnitude: int := DigitsValue(s3[..n], base);
      Some(if s1 != "" && s1[0] == '-' then -magnitude else magnitude)
  }

  /** `std::stoi`: `None` stands for the exception it throws. */
  function StoI(s: string): Option<int> {
    match StrToInt(s, 10)
    case Some(v) => if -0x8000_0000 <= v <= 0x7FFF_FFFF then Some(v) else None
    case None => None
  }

  /** `std::stol(s, nullptr, 16)` with a 64-bit `long`. */
  function StoLHex(s: string): (r: Option<int>)
    ensures r.Some? ==> -0x8000_0000_0000_0000 <= r.value <= 0x7FFF_FFFF_FFFF_FFFF
  {
    match StrToInt(s, 16)
    case Some(v) => if -0x8000_0000_0000_0000 <= v <= 0x7FFF_FFFF_FFFF_FFFF then Some(v) else None
    case None => None
  }

  predicate IsPlainDigit(c: char) {
    '0' <= c <= '9' || 'a' <= c <= 'f'
  }

  function DigitChar(v: nat): (c: char)
    requires v < 16
    ensures DigitValue(c) == v && IsPlainDigit(c)
  {
    if v < 10 then '0' + v as char else 'a' + (v - 10) as char
  }

  /** `n` written in `base`, most significant digit first, no leading zeros. */
  function Digits(n: nat, base: nat): (s: string)
    requires base == 10 || base == 16
    ensures s != []
    ensures forall k :: 0 <= k < |s| ==> IsDigit(s[k], base) && IsPlainDigit(s[k])
    decreases n
  {
    if n < base then [DigitChar(n)]
    else if base == 10 then Digits(n / 10, 10) + [DigitChar(n % 10)]
    else Digits(n / 16, 16) + [DigitChar(n % 16)]
  }

  lemma {:induction false} DigitsHaveValue(n: nat, base: nat)
    requires base == 10 || base == 16
    ensures DigitsValue(Digits(n, base), base) == n
    decreases n
  {
    var s := Digits(n, base);
    if n < base {
      assert s[..|s| - 1] == [];
    } else if base == 10 {
      DigitsHaveValue(n / 10, 10);
      assert s[..|s| - 1] == Digits(n / 10, 10);
    } else {
      DigitsHaveValue(n / 16, 16);
      assert s[..|s| - 1] == Digits(n / 16, 16);
    }
  }

  lemma {:induction false} AllDigits(s: string, base: nat)
    requires forall k :: 0 <= k < |s| ==> IsDigit(s[k], base)
    ensures DigitCount(s, base) == |s|
  {
    if s != [] {
      AllDigits(s[1..], base);
    }
  }

  /** Digits in either case have one value. */
  lemma {:induction false} DigitsIgnoreCase(s: string, t: string, base: nat)
    requires SameButCase(s, t) && forall k :: 0 <= k < |s| ==> IsDigit(s[k], base)
    ensures forall k :: 0 <= k < |t| ==> IsDigit(t[k], base)
    ensures DigitsValue(t, base) == DigitsValue(s, base)
    decreases |s|
  {
    assert forall k :: 0 <= k < |s| ==> DigitValue(t[k]) == DigitValue(s[k]);
    if s != [] {
      DigitsIgnoreCase(s[..|s| - 1], t[..|t| - 1], base);
    }
  }

  /** Digits are counted up to the first character that is none. */
  lemma {:induction false} DigitsBefore(digits: string, rest: string, base: nat)
    requires forall k :: 0 <= k < |digits| ==> IsDigit(digits[k], base)
    requires rest == "" || !IsDigit(rest[0], base)
    ensures DigitCount(digits + rest, base) == |digits|
    decreases |digits|
  {
    hide IsDigit;
    var s := digits + rest;
    if digits != [] {
      assert s[1..] == digits[1..] + rest && s[0] == digits[0];
      DigitsBefore(digits[1..], rest, base);
    } else {
      assert s == rest;
    }
  }

  predicate Sign(s: string) {
    s == "" || s == "+" || s == "-"
  }

  lemma BlanksAreSkipped(blanks: string, s: string)
    requires (forall c <- blanks :: c in BLANKS) && s != "" && s[0] !in BLANKS
    ensures SkipBlanks(blanks + s) == s
  {
    hide FindNoneOf;
    var all := blanks + s;
    assert forall k :: 0 <= k < |blanks| ==> all[k] == blanks[k];
    assert all[|blanks|] == s[0];
    assert FindNoneOf(all, BLANKS, 0) == Some(|blanks|);
    assert all[|blanks|..] == s;
  }

  lemma SignIsSkipped(sign: string, s: string)
    requires Sign(sign) && s != "" && s[0] != '+' && s[0] != '-'
    ensures SkipSign(sign + s) == s
    ensures (sign + s)[0] == '-' <==> sign == "-"
  {
    if sign == "" {
      assert sign + s == s;
    } else {
      assert (sign + s)[1..] == s;
    }
  }

  /** `0x` in either case, in base 16. */
  predicate Prefix(s: string, base: nat) {
    s == "" || (base == 16 && (s == "0x" || s == "0X"))
  }

  /** What follows the digits would make a lone 0 the beginning of a prefix. */
  predicate Misread(digits: string, rest: string, base: nat) {
    base == 16 && digits == "0" && |rest| >= 2 && rest[0] in {'x', 'X'} && IsDigit(rest[1], 16)
  }

  lemma PrefixIsSkipped(prefix: string, digits: string, rest: string, base: nat)
    requires Prefix(prefix, base) && digits != "" && forall k :: 0 <= k < |digits| ==> IsDigit(digits[k], base)
    requires base <= 16 && (prefix == "" ==> !Misread(digits, rest, base))
    ensures SkipPrefix(prefix + (digits + rest), base) == digits + rest
  {
    var s := digits + rest;
    assert IsDigit(digits[0], base);
    if prefix == "" {
      assert prefix + s == s;
      if |digits| >= 2 {
        assert IsDigit(digits[1], base) && s[1] == digits[1];
      } else {
        assert s[0] == digits[0] && digits == [digits[0]];
        assert |rest| >= 1 ==> s[1] == rest[0];
        assert |rest| >= 2 ==> s[2] == rest[1];
      }
    } else {
      assert (prefix + s)[2] == digits[0] && (prefix + s)[2..] == s;
    }
  }

  function Signed(sign: string, n: nat): int {
    var v: int := n;
    if sign == "-" then -v else v
  }

  /** Blanks in front are skipped, a sign is honoured, a prefix dropped in base 16, the digits
      are read in either case, and whatever follows them is ignored: for every number. */
  lemma ReadNumber(blanks: string, sign: string, prefix: string, digits: string, rest: string, n: nat, base: nat)
    requires (base == 10 || base == 16) && (forall c <- blanks :: c in BLANKS) && Sign(sign) && Prefix(prefix, base)
    requires SameButCase(Digits(n, base), digits) && (rest == "" || !IsDigit(rest[0], base))
    requires prefix == "" ==> !Misread(digits, rest, base)
    ensures StrToInt(blanks + (sign + (prefix + (digits + rest))), base) == Some(Signed(sign, n))
  {
    hide SkipBlanks, SkipSign, SkipPrefix, Digits, DigitsValue, IsDigit, IsPlainDigit, DigitCount, Misread, SameButCase;
    DigitsIgnoreCase(Digits(n, base), digits, base);
    SameLength(Digits(n, base), digits);
    var s := prefix + (digits + rest);
    StartsPlainly(prefix, digits, rest, base);
    PrefixIsSkipped(prefix, digits, rest, base);
    SignIsSkipped(sign, s);
    BlanksAreSkipped(blanks, sign + s);
    DigitsBefore(digits, rest, base);
    assert (digits + rest)[..|digits|] == digits;
    DigitsHaveValue(n, base);
  }

  lemma SameLength(a: string, b: string)
    requires SameButCase(a, b)
    ensures |a| == |b|
  {
  }

  /** No blank and no sign. */
  lemma StartsPlainly(prefix: string, digits: string, rest: string, base: nat)
    requires Prefix(prefix, base) && digits != "" && IsDigit(digits[0], base)
    ensures var s := prefix + (digits + rest);
            && s != "" && s[0] != '+' && s[0] != '-' && s[0] !in BLANKS
            && forall sign :: Sign(sign) ==> (sign + s)[0] !in BLANKS
  {
    var s := prefix + (digits + rest);
    assert s[0] == if prefix == "" then digits[0] else '0';
    forall sign | Sign(sign)
      ensures (sign + s)[0] !in BLANKS
    {
      assert (sign + s)[0] == if sign == "" then s[0] else sign[0];
    }
  }

  lemma ItselfInAnyCase(s: string)
    ensures SameButCase(s, s)
  {
  }

  lemma ReadSignedDigits(blanks: string, sign: string, n: nat, base: nat)
    requires (base == 10 || base == 16) && Sign(sign) && forall c <- blanks :: c in BLANKS
    ensures StrToInt(blanks + (sign + Digits(n, base)), base) == Some(Signed(sign, n))
  {
    hide StrToInt, Digits;
    var digits := Digits(n, base);
    ItselfInAnyCase(digits);
    ReadNumber(blanks, sign, "", digits, "", n, base);
    assert "" + (digits + "") == digits;
  }

  /** Reading back what `Digits` wrote. */
  lemma ReadDigits(n: nat, base: nat)
    requires base == 10 || base == 16
    ensures StrToInt(Digits(n, base), base) == Some(n)
  {
    hide StrToInt, Digits;
    ReadSignedDigits("", "", n, base);
    assert "" + ("" + Digits(n, base)) == Digits(n, base);
  }

  /** Without a digit there is no number. */
  lemma NoNumber(blanks: string, sign: string, rest: string, base: nat)
    requires (base == 10 || base == 16) && (forall c <- blanks :: c in BLANKS) && Sign(sign)
    requires rest == "" || (!IsDigit(rest[0], base) && rest[0] !in BLANKS && rest[0] != '+' && rest[0] != '-')
    requires sign != "" || rest != ""
    ensures StrToInt(blanks + (sign + rest), base) == None
  {
    hide SkipBlanks;
    assert (sign + rest)[0] == if sign == "" then rest[0] else sign[0];
    BlanksAreSkipped(blanks, sign + rest);
    if sign != "" {
      assert (sign + rest)[1..] == rest;
    } else {
      assert sign + rest == rest;
    }
  }

  /** `stoi` takes what fits 32 bits with a sign, `stol` what fits 64. */
  lemma RangesExactly(s: string, v: int)
    ensures StoI(s) == Some(v) <==> StrToInt(s, 10) == Some(v) && -2147483648 <= v <= 2147483647
    ensures StoLHex(s) == Some(v) <==>
            StrToInt(s, 16) == Some(v) && -9223372036854775808 <= v <= 9223372036854775807
  {
  }
}
