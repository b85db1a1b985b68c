/** Strings as the source handles them: separators and decimal numbers. */
module Text {
  import opened Wrappers

  /** A string seen as its UTF-8 bytes has one octet per position. */
  type Octet = c: char | c as int < 256

  // ----- splitting and joining -----

  /** The parts between the separators; n separators give n + 1 parts. */
  function Split(s: string, c: char): (parts: seq<string>)
    ensures |parts| >= 1
  {
    if s == "" then [""]
    else
      var rest := Split(s[1..], c);
      if s[0] == c then [""] + rest else [[s[0]] + rest[0]] + rest[1..]
  }

  function Join(parts: seq<string>, c: char): string
    requires |parts| >= 1
  {
    if |parts| == 1 then parts[0] else parts[0] + [c] + Join(parts[1..], c)
  }

  lemma {:induction false} SplitPrefix(x: string, s: string, c: char)
    requires c !in x
    ensures Split(x + s, c) == [x + Split(s, c)[0]] + Split(s, c)[1..]
  {
    if x == "" {
      assert x + s == s && x + Split(s, c)[0] == Split(s, c)[0];
    } else {
      assert (x + s)[1..] == x[1..] + s;
      SplitPrefix(x[1..], s, c);
      assert [x[0]] + (x[1..] + Split(s, c)[0]) == x + Split(s, c)[0];
    }
  }

  lemma {:induction false} SplitWhole(x: string, c: char)
    requires c !in x
    ensures Split(x, c) == [x]
  {
    SplitPrefix(x, "", c);
    assert x + "" == x;
  }

  lemma {:induction false} SplitFirst(x: string, s: string, c: char)
    requires c !in x
    ensures Split(x + [c] + s, c) == [x] + Split(s, c)
  {
    assert x + [c] + s == x + ([c] + s);
    SplitPrefix(x, [c] + s, c);
    assert ([c] + s)[1..] == s;
    assert x + "" == x;
  }

  lemma {:induction false} SplitJoin(parts: seq<string>, c: char)
    requires |parts| >= 1 && forall i :: 0 <= i < |parts| ==> c !in parts[i]
    ensures Split(Join(parts, c), c) == parts
  {
    if |parts| == 1 {
      SplitWhole(parts[0], c);
    } else {
      SplitFirst(parts[0], Join(parts[1..], c), c);
      SplitJoin(parts[1..], c);
    }
  }

  /** `rfind`. */
  function LastIndexOf(s: string, c: char): (i: Option<nat>)
    ensures i.None? ==> c !in s
    ensures i.Some? ==> i.value < |s| && s[i.value] == c && c !in s[i.value + 1..]
  {
    if s == "" then None
    else
      var n := |s| - 1;
      if s[n] == c then Some(n) else LastIndexOf(s[..n], c)
  }

  lemma {:induction false} LastIndexOfTail(x: string, c: char, y: string)
    requires c !in y
    ensures LastIndexOf(x + [c] + y, c) == Some(|x|)
  {
    if y != "" {
      var n := |y| - 1;
      LastIndexOfTail(x, c, y[..n]);
      assert (x + [c] + y)[..|x| + 1 + n] == x + [c] + y[..n];
    }
  }

  // ----- decimal numbers -----

  predicate IsDigit(c: char) { '0' <= c <= '9' }

  predicate AllDigits(s: string) {
    forall i :: 0 <= i < |s| ==> IsDigit(s[i])
  }

  function Digit(d: nat): char
    requires d < 10
  {
    '0' + d as char
  }

  function PrintNat(n: nat): (s: string)
    ensures s != "" && AllDigits(s)
  {
    if n < 10 then [Digit(n)] else PrintNat(n / 10) + [Digit(n % 10)]
  }

  function Value(s: string): nat
    requires AllDigits(s)
  {
    if s == "" then 0
    else
      var n := |s| - 1;
      10 * Value(s[..n]) + (s[n] as int - '0' as int)
  }

  lemma {:induction false} ValueOfPrint(n: nat)
    ensures Value(PrintNat(n)) == n
  {
    if n >= 10 {
      ValueOfPrint(n / 10);
      var s := PrintNat(n);
      assert s[..|s| - 1] == PrintNat(n / 10);
    }
  }

  const I64_MIN := -0x8000_0000_0000_0000
  const I64_MAX := 0x7fff_ffff_ffff_ffff

  function PrintInt(n: int): string {
    if n < 0 then "-" + PrintNat(-n) else PrintNat(n)
  }

  /** An optional sign and at least one digit, within 64 bits. */
  function ParseI64(s: string): Option<int> {
    var digits := if s != "" && (s[0] == '-' || s[0] == '+') then s[1..] else s;
    if digits == "" || !AllDigits(digits) then None
    else
      var v: int := Value(digits);
      var n := if s[0] == '-' then -v else v;
      if I64_MIN <= n <= I64_MAX then Some(n) else None
  }

  lemma {:induction false} ParsePrint(n: int)
    requires I64_MIN <= n <= I64_MAX
    ensures ParseI64(PrintInt(n)) == Some(n)
  {
    var s := PrintInt(n);
    if n < 0 {
      ValueOfPrint(-n);
      assert s[1..] == PrintNat(-n);
    } else {
      ValueOfPrint(n);
      assert IsDigit(s[0]);
    }
  }

  /** `s` is an optional sign and these decimal digits, which say n. */
  ghost predicate Writes(s: string, digits: string, n: int) {
    && digits != "" && (forall i :: 0 <= i < |digits| ==> '0' <= digits[i] <= '9')
    && if n < 0 then s == "-" + digits && Value(digits) == -n
       else Value(digits) == n && (s == digits || s == "+" + digits || (n == 0 && s == "-" + digits))
  }

  /** What parses, and as what: decimal digits after an optional sign, within 64 bits. */
  lemma {:induction false} ParsesExactly(s: string, n: int)
    ensures ParseI64(s) == Some(n) <==>
      -9_223_372_036_854_775_808 <= n <= 9_223_372_036_854_775_807 && exists digits :: Writes(s, digits, n)
  {
    if ParseI64(s) == Some(n) {
      ParsedWrites(s, n);
    }
    if digits :| Writes(s, digits, n) {
      hide ParseI64, Value;
      SignedParses(s, digits);
    }
  }

  lemma {:induction false} ParsedWrites(s: string, n: int)
    requires ParseI64(s) == Some(n)
    ensures -9_223_372_036_854_775_808 <= n <= 9_223_372_036_854_775_807 && exists digits :: Writes(s, digits, n)
  {
    hide Value;
    var digits := if s[0] == '-' || s[0] == '+' then s[1..] else s;
    assert s == digits || s == "-" + digits || s == "+" + digits;
    assert Writes(s, digits, n);
  }

  lemma {:induction false} SignedParses(s: string, digits: string)
    requires digits != "" && AllDigits(digits)
    ensures
      var v: int := Value(digits);
      && (s == digits || s == "+" + digits ==> ParseI64(s) == if v <= I64_MAX then Some(v) else None)
      && (s == "-" + digits ==> ParseI64(s) == if -v >= I64_MIN then Some(-v) else None)
  {
    hide Value;
    assert ("-" + digits)[1..] == digits && ("+" + digits)[1..] == digits;
    assert IsDigit(digits[0]);
  }

  lemma {:induction false} PrintHasNo(n: int, c: char)
    requires !IsDigit(c) && c != '-'
    ensures c !in PrintInt(n)
  {
  }
}
