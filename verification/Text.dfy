/** Printed numbers and split strings, as fmt, strconv and strings do them. */
module Text {
  import opened Wrappers

  const MAX_INT64: int := 0x7fff_ffff_ffff_ffff

  predicate IsInt64(v: int) {
    -MAX_INT64 - 1 <= v <= MAX_INT64
  }

  // ---------------------------------------------------------------- numbers

  function DigitChar(d: nat): char
    requires d < 10
  {
    ['0', '1', '2', '3', '4', '5', '6', '7', '8', '9'][d]
  }

  function Digits(n: nat): (s: string)
    ensures |s| > 0 && forall i :: 0 <= i < |s| ==> '0' <= s[i] <= '9'
  {
    if n < 10 then [DigitChar(n)] else Digits(n / 10) + [DigitChar(n % 10)]
  }

  /** The verb %d. */
  function Itoa(v: int): string {
    if v < 0 then "-" + Digits(-v) else Digits(v)
  }

  function DigitValue(c: char): nat
    requires '0' <= c <= '9'
  {
    c as int - '0' as int
  }

  /** The value of a string of digits; None if it has another character. */
  function Value(s: string): Option<nat> {
    if s == "" then Some(0)
    else
      var c, high := s[|s| - 1], Value(s[..|s| - 1]);
      if high.None? || c < '0' || c > '9' then None else Some(10 * high.value + DigitValue(c))
  }

  /** What strconv.Atoi returns: a value, and whether there was no error. */
  datatype Parsed = Parsed(value: int, ok: bool)

  function Atoi(s: string): Parsed {
    var signed := |s| > 0 && (s[0] == '-' || s[0] == '+');
    var digits := if signed then s[1..] else s;
    var n := Value(digits);
    if digits == "" || n.None? then Parsed(0, false)
    else
      var magnitude: int := n.value;
      var v := if signed && s[0] == '-' then -magnitude else magnitude;
      if v > MAX_INT64 then Parsed(MAX_INT64, false)
      else if v < -MAX_INT64 - 1 then Parsed(-MAX_INT64 - 1, false)
      else Parsed(v, true)
  }

  lemma {:induction false} ValueOfDigits(n: nat)
    ensures Value(Digits(n)) == Some(n)
  {
    if n < 10 {
      assert [DigitChar(n)][..0] == "";
    } else {
      ValueOfDigits(n / 10);
      assert Digits(n)[..|Digits(n)| - 1] == Digits(n / 10);
    }
  }

  lemma {:induction false} AtoiItoa(v: int)
    requires -0x8000_0000_0000_0000 <= v <= 0x7fff_ffff_ffff_ffff
    ensures Atoi(Itoa(v)) == Parsed(v, true)
    ensures forall i :: 0 <= i < |Itoa(v)| ==> Itoa(v)[i] == '-' || '0' <= Itoa(v)[i] <= '9'
  {
    hide Digits, Value;
    if v < 0 {
      ValueOfDigits(-v);
      assert Itoa(v)[1..] == Digits(-v);
    } else {
      ValueOfDigits(v);
    }
  }

  /** Numbers are the strings of digits only, and leading zeros do not matter. */
  lemma {:induction false} ValueIsDecimal(s: string)
    ensures Value(s).Some? <==> forall i :: 0 <= i < |s| ==> '0' <= s[i] <= '9'
    ensures Value("0" + s) == Value(s)
  {
    if s == "" {
      assert ("0" + s)[..0] == "" && DigitValue('0') == 0;
    } else {
      var high := s[..|s| - 1];
      ValueIsDecimal(high);
      assert ("0" + s)[..|s|] == "0" + high && ("0" + s)[|s|] == s[|s| - 1];
      assert forall i :: 0 <= i < |high| ==> high[i] == s[i];
    }
  }

  /** A plus sign is read, nothing is read from a sign alone, and what is out of range stops at the bounds. */
  lemma {:induction false} AtoiBounds(n: nat)
    ensures !Atoi("").ok && !Atoi("+").ok && !Atoi("-").ok
    ensures Atoi("+" + Digits(n)) == Atoi(Digits(n))
    ensures Atoi(Digits(n))
         == if n <= 0x7fff_ffff_ffff_ffff then Parsed(n, true) else Parsed(0x7fff_ffff_ffff_ffff, false)
    ensures Atoi("-" + Digits(n))
         == if n <= 0x8000_0000_0000_0000 then Parsed(-(n as int), true) else Parsed(-0x8000_0000_0000_0000, false)
  {
    hide Digits, Value;
    ValueOfDigits(n);
    assert ("+" + Digits(n))[1..] == Digits(n) && ("-" + Digits(n))[1..] == Digits(n);
  }

  /** A string with another character, its sign aside, is refused with the value 0. */
  lemma {:induction false} AtoiRefuses(s: string)
    requires s != "" && exists i :: (if s[0] == '-' || s[0] == '+' then 1 else 0) <= i < |s| && !('0' <= s[i] <= '9')
    ensures Atoi(s) == Parsed(0, false)
  {
    hide Value;
    ValueIsDecimal(s);
    ValueIsDecimal(s[1..]);
    if s[0] == '-' || s[0] == '+' {
      var i :| 1 <= i < |s| && !('0' <= s[i] <= '9');
      assert s[1..][i - 1] == s[i];
    }
  }

  // ---------------------------------------------------------------- splitting

  /** The part before the first c, all of it if there is none. */
  function Before(s: string, c: char): (r: string)
    ensures c !in r && r <= s
  {
    if s == "" || s[0] == c then "" else [s[0]] + Before(s[1..], c)
  }

  /** strings.Split by one character. */
  function Split(s: string, c: char): (parts: seq<string>)
    ensures |parts| > 0
  {
    if s == "" then [""]
    else if s[0] == c then [""] + Split(s[1..], c)
    else
      var rest := Split(s[1..], c);
      [[s[0]] + rest[0]] + rest[1..]
  }

  lemma {:induction false} BeforeAll(s: string, c: char)
    ensures Before(s, c) == s <==> c !in s
  {
    if s != "" && s[0] != c {
      BeforeAll(s[1..], c);
    }
  }

  lemma {:induction false} BeforePrefix(a: string, b: string, c: char)
    requires c !in a
    ensures Before(a + b, c) == a + Before(b, c)
  {
    if a == "" {
      assert a + b == b;
    } else {
      assert (a + b)[1..] == a[1..] + b;
      BeforePrefix(a[1..], b, c);
    }
  }

  lemma {:induction false} SplitWhole(s: string, c: char)
    requires c !in s
    ensures Split(s, c) == [s]
  {
    if s != "" {
      SplitWhole(s[1..], c);
      assert [s[0]] + s[1..] == s;
    }
  }

  lemma {:induction false} SplitFirst(s: string, c: char)
    ensures Split(s, c)[0] == Before(s, c)
  {
    if s != "" && s[0] != c {
      SplitFirst(s[1..], c);
    }
  }

  lemma {:induction false} SplitAt(a: string, b: string, c: char)
    requires c !in a
    ensures Split(a + [c] + b, c) == [a] + Split(b, c)
  {
    var s := a + [c] + b;
    if a == "" {
      assert s == [c] + b && s[1..] == b;
    } else {
      assert s[1..] == a[1..] + [c] + b;
      SplitAt(a[1..], b, c);
      assert [a[0]] + a[1..] == a;
    }
  }
}
