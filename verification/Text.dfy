/** Decimal numbers as std::to_string prints them and std::stoi reads them, and the order of std::string. */
module Text {
  import opened IR

  predicate IsDigit(c: char) {
    '0' <= c <= '9'
  }

  function ToDigit(d: nat): char
    requires d < 10
  {
    ('0' as int + d) as char
  }

  function FromDigit(c: char): nat
    requires IsDigit(c)
  {
    c as int - '0' as int
  }

  function ToDigits(n: nat): string {
    if n < 10 then [ToDigit(n)] else ToDigits(n / 10) + [ToDigit(n % 10)]
  }

  function ToString(i: int): string {
    if i < 0 then "-" + ToDigits(-i) else ToDigits(i)
  }

  predicate AllDigits(s: string) {
    forall c | c in s :: IsDigit(c)
  }

  function FromDigits(s: string): nat
    requires AllDigits(s)
  {
    if s == "" then 0 else 10 * FromDigits(s[..|s| - 1]) + FromDigit(s[|s| - 1])
  }

  function LeadingDigits(s: string): (r: string)
    ensures AllDigits(r)
  {
    if s == "" || !IsDigit(s[0]) then "" else [s[0]] + LeadingDigits(s[1..])
  }

  predicate IsSpace(c: char) {
    c == ' ' || '\t' <= c <= '\r'
  }

  function SkipSpaces(s: string): string {
    if s != "" && IsSpace(s[0]) then SkipSpaces(s[1..]) else s
  }

  const INT_MIN := -0x8000_0000
  const INT_MAX := 0x7fff_ffff

  predicate IsInt32(i: int) {
    INT_MIN <= i <= INT_MAX
  }

  /** std::stoi: None where it throws, for want of digits or of room. */
  function Stoi(s: string): Option<int> {
    var t := SkipSpaces(s);
    var negative := t != "" && t[0] == '-';
    var digits := LeadingDigits(if t != "" && (t[0] == '-' || t[0] == '+') then t[1..] else t);
    if digits == "" then None
    else
      var i: int := if negative then 0 - FromDigits(digits) else FromDigits(digits);
      if IsInt32(i) then Some(i) else None
  }

  lemma {:induction false} DigitsRoundTrip(n: nat)
    ensures ToDigits(n) != "" && AllDigits(ToDigits(n)) && FromDigits(ToDigits(n)) == n
  {
    if n >= 10 {
      DigitsRoundTrip(n / 10);
      assert ToDigits(n)[..|ToDigits(n)| - 1] == ToDigits(n / 10);
    }
  }

  lemma {:induction false} LeadingDigitsOfDigits(s: string)
    requires AllDigits(s)
    ensures LeadingDigits(s) == s
  {
    if s != "" {
      LeadingDigitsOfDigits(s[1..]);
    }
  }

  lemma StoiRoundTrip(i: int)
    requires IsInt32(i)
    ensures Stoi(ToString(i)) == Some(i)
  {
    var n: nat := if i < 0 then -i else i;
    DigitsRoundTrip(n);
    LeadingDigitsOfDigits(ToDigits(n));
    assert IsDigit(ToDigits(n)[0]);
    if i < 0 {
      assert ToString(i)[1..] == ToDigits(n);
    }
  }

  lemma {:induction false} NoLeadingZero(n: nat)
    requires n > 0
    ensures ToDigits(n) != "" && ToDigits(n)[0] != '0'
  {
    if n >= 10 {
      NoLeadingZero(n / 10);
    }
  }

  /** How numbers are written: in base ten, the highest digit first. */
  lemma PrintedNumbers()
    ensures ToString(0) == "0" && ToString(1207) == "1207" && ToString(-45) == "-45"
  {
    assert ToDigits(1207) == ToDigits(120) + ['7'] && ToDigits(120) == ToDigits(12) + ['0'];
    assert ToDigits(12) == "12" && ToDigits(45) == "45";
  }

  lemma {:induction false} SkipsSpaces(spaces: string, t: string)
    requires (forall c | c in spaces :: IsSpace(c)) && (t == "" || !IsSpace(t[0]))
    ensures SkipSpaces(spaces + t) == t
  {
    if spaces == "" {
      assert spaces + t == t;
    } else {
      SkipsSpaces(spaces[1..], t);
      assert (spaces + t)[1..] == spaces[1..] + t;
    }
  }

  lemma {:induction false} ReadsDigits(digits: string, rest: string)
    requires AllDigits(digits) && (rest == "" || !IsDigit(rest[0]))
    ensures LeadingDigits(digits + rest) == digits
  {
    if digits == "" {
      assert digits + rest == rest;
    } else {
      ReadsDigits(digits[1..], rest);
      assert (digits + rest)[1..] == digits[1..] + rest;
    }
  }

  /** White space, a sign and digits, in this order, and then anything that is not a digit. */
  predicate Reads(s: string, spaces: string, sign: string, digits: string, rest: string) {
    && s == spaces + sign + digits + rest
    && (forall c | c in spaces :: c in " \t\n\U{0B}\U{0C}\r")
    && sign in ["", "+", "-"] && digits != "" && AllDigits(digits)
    && (rest == "" || !IsDigit(rest[0]))
  }

  /** std::stoi reads such a string as far as the digits go, if the number has room. */
  lemma StoiReads(s: string, spaces: string, sign: string, digits: string, rest: string)
    requires Reads(s, spaces, sign, digits, rest)
    ensures var i: int := if sign == "-" then 0 - FromDigits(digits) else FromDigits(digits);
            Stoi(s) == if IsInt32(i) then Some(i) else None
  {
    var t := sign + digits + rest;
    assert s == spaces + t && t[0] == if sign == "" then digits[0] else sign[0];
    assert IsDigit(digits[0]);
    SkipsSpaces(spaces, t);
    ReadsDigits(digits, rest);
    assert (if sign == "" then t else t[1..]) == digits + rest;
  }

  lemma {:induction false} SpacesOf(s: string) returns (spaces: string)
    ensures s == spaces + SkipSpaces(s) && forall c | c in spaces :: c in " \t\n\U{0B}\U{0C}\r"
  {
    if s != "" && IsSpace(s[0]) {
      var more := SpacesOf(s[1..]);
      spaces := [s[0]] + more;
      assert s == [s[0]] + s[1..];
      assert s[0] in " \t\n\U{0B}\U{0C}\r";
    } else {
      spaces := "";
    }
  }

  lemma {:induction false} DigitsOf(s: string) returns (rest: string)
    ensures s == LeadingDigits(s) + rest && (rest == "" || !IsDigit(rest[0]))
  {
    if s == "" || !IsDigit(s[0]) {
      rest := s;
    } else {
      rest := DigitsOf(s[1..]);
      assert s == [s[0]] + s[1..];
    }
  }

  lemma Regroup(a: string, b: string, c: string, d: string)
    ensures a + (b + (c + d)) == a + b + c + d
  {}

  /** And it reads nothing else. */
  lemma StoiReadsOnly(s: string) returns (spaces: string, sign: string, digits: string, rest: string)
    requires Stoi(s).Some?
    ensures Reads(s, spaces, sign, digits, rest)
  {
    spaces := SpacesOf(s);
    var t := SkipSpaces(s);
    sign := if t != "" && (t[0] == '-' || t[0] == '+') then [t[0]] else "";
    var u := if sign == "" then t else t[1..];
    digits := LeadingDigits(u);
    rest := DigitsOf(u);
    Regroup(spaces, sign, digits, rest);
  }

  lemma ToStringChars(i: int)
    ensures ToString(i) != "" && IsDigit(ToString(i)[|ToString(i)| - 1])
    ensures forall c | c in ToString(i) :: IsDigit(c) || c == '-'
  {
    DigitsRoundTrip(if i < 0 then -i else i);
  }

  lemma ToStringInjective(i: int, j: int)
    requires ToString(i) == ToString(j)
    ensures i == j
  {
    var a: nat := if i < 0 then -i else i;
    var b: nat := if j < 0 then -j else j;
    DigitsRoundTrip(a);
    DigitsRoundTrip(b);
    assert IsDigit(ToDigits(a)[0]) && IsDigit(ToDigits(b)[0]);
    if i < 0 {
      assert ToString(i)[1..] == ToDigits(a) && ToString(j)[1..] == ToDigits(b);
    }
  }

  /** std::string's operator<. */
  predicate LessString(a: string, b: string) {
    b != "" && (a == "" || a[0] < b[0] || (a[0] == b[0] && LessString(a[1..], b[1..])))
  }

  lemma {:induction false} LessStringOrder(a: string, b: string, c: string)
    ensures !LessString(a, a)
    ensures a != b ==> LessString(a, b) || LessString(b, a)
    ensures LessString(a, b) && LessString(b, c) ==> LessString(a, c)
  {
    if a != "" {
      LessStringOrder(a[1..], if b == "" then "" else b[1..], if c == "" then "" else c[1..]);
      if b != "" && a[0] == b[0] {
        assert a == [a[0]] + a[1..] && b == [b[0]] + b[1..];
      }
    }
  }

  /** Up to position k the strings agree, and there a has ended or has the smaller character. */
  predicate FirstDifference(a: string, b: string, k: nat) {
    && k <= |a| && k < |b| && a[..k] == b[..k]
    && (k == |a| || a[k] < b[k])
  }

  /** The order of std::string by the first difference of two strings. */
  ghost predicate Precedes(a: string, b: string) {
    exists k: nat :: FirstDifference(a, b, k)
  }

  lemma {:induction false} LessStringIsPrecedes(a: string, b: string)
    ensures LessString(a, b) <==> Precedes(a, b)
  {
    if a == "" || b == "" || a[0] != b[0] {
      assert FirstDifference(a, b, 0) <==> LessString(a, b);
      assert forall k: nat | k > 0 && k <= |a| && k < |b| :: a[..k][0] == a[0] && b[..k][0] == b[0];
    } else {
      LessStringIsPrecedes(a[1..], b[1..]);
      forall k: nat ensures FirstDifference(a, b, k + 1) <==> FirstDifference(a[1..], b[1..], k) {
        if k + 1 <= |a| && k + 1 < |b| {
          assert a[..k + 1] == [a[0]] + a[1..][..k] && b[..k + 1] == [b[0]] + b[1..][..k];
          assert a[..k + 1] == b[..k + 1] <==> a[1..][..k] == b[1..][..k];
        }
      }
      assert !FirstDifference(a, b, 0);
      if k: nat :| FirstDifference(a, b, k) {
        assert FirstDifference(a, b, k - 1 + 1) && FirstDifference(a[1..], b[1..], k - 1);
      }
      if k: nat :| FirstDifference(a[1..], b[1..], k) {
        assert FirstDifference(a, b, k + 1);
      }
    }
  }
}
