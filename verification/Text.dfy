/** The parts of std::string and of the C number parsers that the modelled code calls. */
module Text {

  datatype Option<+T> = None | Some(value: T)

  /** An octet on the wire; a C++ string is a text whose characters all fit in one. */
  type byte = b: int | 0 <= b < 256

  ghost predicate ByteText(s: string) {
    forall i :: 0 <= i < |s| ==> s[i] as int < 256
  }

  function ToBytes(s: string): (b: seq<byte>)
    ensures |b| == |s|
  {
    seq(|s|, i requires 0 <= i < |s| => s[i] as int % 256)
  }

  function FromBytes(b: seq<byte>): (s: string)
    ensures |s| == |b| && ByteText(s)
  {
    seq(|b|, i requires 0 <= i < |b| => b[i] as char)
  }

  /** Copying a string to bytes and back changes nothing. */
  lemma BytesRoundTrip(s: string)
    requires ByteText(s)
    ensures FromBytes(ToBytes(s)) == s
  {
    assert forall i :: 0 <= i < |s| ==> FromBytes(ToBytes(s))[i] == s[i];
  }

  predicate MatchAt(s: string, p: string, i: nat) {
    i + |p| <= |s| && s[i..i + |p|] == p
  }

  /** std::string::find, starting at `from`: the first occurrence of `p`. */
  function Find(s: string, p: string, from: nat := 0): (r: Option<nat>)
    requires from <= |s|
    ensures r.Some? ==> from <= r.value && MatchAt(s, p, r.value)
    ensures r.Some? ==> forall j :: from <= j < r.value ==> !MatchAt(s, p, j)
    ensures r.None? ==> forall j :: from <= j ==> !MatchAt(s, p, j)
    decreases |s| - from
  {
    if MatchAt(s, p, from) then Some(from)
    else if from == |s| then None
    else Find(s, p, from + 1)
  }

  /** A match in `pre + s` past `pre` is a match in `s`. */
  lemma MatchShift(pre: string, s: string, p: string, i: nat)
    ensures MatchAt(pre + s, p, |pre| + i) <==> MatchAt(s, p, i)
  {
    if i + |p| <= |s| {
      assert (pre + s)[|pre| + i..|pre| + i + |p|] == s[i..i + |p|];
    }
  }

  // ---- Decimal numbers -------------------------------------------------------

  predicate IsDigit(c: char) { '0' <= c <= '9' }

  ghost predicate AllDigits(s: string) {
    forall i :: 0 <= i < |s| ==> IsDigit(s[i])
  }

  function Digits(n: nat): (s: string)
    ensures |s| > 0 && AllDigits(s)
  {
    if n < 10 then ['0' + n as char] else Digits(n / 10) + ['0' + (n % 10) as char]
  }

  /** std::to_string and operator<< on integers. */
  function ToDecimal(n: int): (s: string)
    ensures |s| > 0 && (IsDigit(s[0]) || s[0] == '-')
    ensures forall i :: 0 <= i < |s| ==> IsDigit(s[i]) || s[i] == '-'
  {
    if n < 0 then "-" + Digits(-n) else Digits(n)
  }

  function DigitsValue(s: string): nat
    requires AllDigits(s)
  {
    if s == "" then 0
    else 10 * DigitsValue(s[..|s| - 1]) + (s[|s| - 1] as int - '0' as int)
  }

  lemma {:induction false} DigitsRoundTrip(n: nat)
    ensures DigitsValue(Digits(n)) == n
  {
    if n >= 10 {
      DigitsRoundTrip(n / 10);
      var s := Digits(n);
      assert s[..|s| - 1] == Digits(n / 10);
    } else {
      assert Digits(n)[..0] == "";
    }
  }

  function LeadingDigits(s: string): (n: nat)
    ensures n <= |s| && AllDigits(s[..n]) && (n < |s| ==> !IsDigit(s[n]))
  {
    if s == "" || !IsDigit(s[0]) then 0
    else
      var n := 1 + LeadingDigits(s[1..]);
      assert s[1..][..n - 1] == s[1..n];
      assert forall i :: 0 < i < n ==> s[i] == s[1..][i - 1];
      n
  }

  predicate IsSpace(c: char) {
    c == ' ' || '\t' <= c <= '\r'
  }

  function SkipSpace(s: string): string {
    if s != "" && IsSpace(s[0]) then SkipSpace(s[1..]) else s
  }

  /** What strtol and strtoul read: leading blanks, a sign, then the longest run of digits.
      None is std::invalid_argument. */
  function ReadNumber(s: string): Option<(bool, nat)> {
    var t := SkipSpace(s);
    var neg := t != "" && t[0] == '-';
    var u := if t != "" && (t[0] == '-' || t[0] == '+') then t[1..] else t;
    var n := LeadingDigits(u);
    if n == 0 then None else Some((neg, DigitsValue(u[..n])))
  }

  /** stoi and stoll: None stands for either exception. */
  function ParseSigned(s: string, lo: int, hi: int): Option<int> {
    match ReadNumber(s)
    case None => None
    case Some((neg, m)) =>
      var k: int := m;
      var v := if neg then -k else k;
      if lo <= v <= hi then Some(v) else None
  }

  const ULONG: int := 0x1_0000_0000_0000_0000

  /** stoul on a 64-bit unsigned long: a minus sign negates modulo 2^64. */
  function ParseUnsigned(s: string): Option<nat> {
    match ReadNumber(s)
    case None => None
    case Some((neg, m)) =>
      if m >= ULONG then None else Some(if neg then (ULONG - m) % ULONG else m)
  }

  /** stoi and stoll give the number as it stands, or throw beyond their range; stoul gives it modulo 2^64, and throws
      when its digits go beyond. Without a number all of them throw. */
  lemma NumbersParsed(s: string, lo: int, hi: int)
    ensures ReadNumber(s) == None ==> ParseSigned(s, lo, hi) == None && ParseUnsigned(s) == None
    ensures ReadNumber(s).Some? ==>
      var (neg, m) := ReadNumber(s).value;
      var v := if neg then 0 - m else m;
      var r := ParseUnsigned(s);
      && ParseSigned(s, lo, hi) == (if lo <= v <= hi then Some(v) else None)
      && (r.None? <==> m >= 0x1_0000_0000_0000_0000)
      && (r.Some? ==> r.value < 0x1_0000_0000_0000_0000 && (r.value - v) % 0x1_0000_0000_0000_0000 == 0)
  {
    hide ReadNumber;
  }

  lemma DigitsAreOneRun(s: string)
    requires AllDigits(s)
    ensures LeadingDigits(s) == |s|
  {}

  /** A printed integer is read back as its sign and magnitude. */
  lemma ReadPrinted(n: int)
    ensures ReadNumber(ToDecimal(n)) == Some((n < 0, if n < 0 then -n else n))
  {
    var m: nat := if n < 0 then -n else n;
    var t := ToDecimal(n);
    assert SkipSpace(t) == t;
    assert (if t[0] == '-' || t[0] == '+' then t[1..] else t) == Digits(m);
    DigitsAreOneRun(Digits(m));
    DigitsRoundTrip(m);
    assert Digits(m)[..|Digits(m)|] == Digits(m);
  }

  /** Decimal, most significant digit first. */
  lemma DecimalTexts()
    ensures ToDecimal(0) == "0" && ToDecimal(42) == "42" && ToDecimal(-7) == "-7" && ToDecimal(1905) == "1905"
  {
    assert Digits(4) == "4" && Digits(42) == Digits(4) + "2";
    assert Digits(1) == "1" && Digits(19) == Digits(1) + "9" && Digits(190) == Digits(19) + "0";
    assert Digits(1905) == Digits(190) + "5";
  }

  /** The blanks that the number parsers skip. */
  ghost predicate Blanks(s: string) {
    forall i :: 0 <= i < |s| ==> s[i] in {' ', '\t', '\n', 11 as char, 12 as char, '\r'}
  }

  /** How a number may be written: blanks, at most one sign, at least one digit, and then anything but a digit. */
  lemma {:induction false} NumberWritten(blanks: string, sign: string, digits: string, rest: string)
    requires Blanks(blanks) && sign in {"", "+", "-"} && digits != "" && AllDigits(digits)
    requires rest == "" || !IsDigit(rest[0])
    ensures ReadNumber(blanks + (sign + (digits + rest))) == Some((sign == "-", DigitsValue(digits)))
  {
    var t, u := sign + (digits + rest), digits + rest;
    SkipsBlanks(blanks, t);
    DigitsEnd(digits, rest);
    assert u[..|digits|] == digits;
    assert sign != "" ==> t[1..] == u;
    assert sign == "" ==> t == u;
  }

  lemma {:induction false} SkipsBlanks(blanks: string, t: string)
    requires Blanks(blanks) && t != "" && !IsSpace(t[0])
    ensures SkipSpace(blanks + t) == t
  {
    if blanks == "" {
      assert blanks + t == t;
    } else {
      assert (blanks + t)[1..] == blanks[1..] + t;
      SkipsBlanks(blanks[1..], t);
    }
  }

  lemma {:induction false} DigitsEnd(digits: string, rest: string)
    requires AllDigits(digits) && (rest == "" || !IsDigit(rest[0]))
    ensures LeadingDigits(digits + rest) == |digits|
  {
    if digits == "" {
      assert digits + rest == rest;
    } else {
      assert (digits + rest)[1..] == digits[1..] + rest;
      DigitsEnd(digits[1..], rest);
    }
  }

  /** Without a digit behind the blanks and the sign there is no number. */
  lemma NoDigits(s: string)
    requires s == "" || (!IsSpace(s[0]) && s[0] !in {'+', '-'} && !IsDigit(s[0]))
    ensures ReadNumber(s) == None
  {}
}
