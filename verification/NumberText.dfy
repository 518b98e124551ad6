/** Printing and parsing numbers in the HTTP answers of the FPGA Management Core: division digits, reversed in place. */
module NumberText {
  const OUT_BUFFER_SIZE: nat := 1024

  /** A digit up to base 36. */
  function Digit(d: nat): char
    requires d < 36
  {
    if d > 9 then (d - 10 + 'A' as int) as char else (d + '0' as int) as char
  }

  lemma Halved(n: nat, base: nat)
    requires base >= 2
    ensures n / base <= n / 2
  {
    var q := n / base;
    assert q * base <= n;
    assert q * 2 <= q * base;
  }

  function Quotient(n: nat, base: nat): (q: nat)
    requires 2 <= base <= 36
    ensures n > 0 ==> q < n
  {
    Halved(n, base);
    n / base
  }

  function Remainder(n: nat, base: nat): (r: nat)
    requires 2 <= base <= 36
    ensures r < base
  {
    n % base
  }

  /** The digits of `n`, most significant first; "0" for zero. */
  function Digits(n: nat, base: nat): (s: seq<char>)
    requires 2 <= base <= 36
    ensures |s| > 0 && '\0' !in s
  {
    if n < base then [Digit(n)] else Digits(Quotient(n, base), base) + [Digit(Remainder(n, base))]
  }

  function DigitValue(c: char): int {
    if 'A' <= c <= 'Z' then c as int - 'A' as int + 10 else c as int - '0' as int
  }

  /** What a digit string means. */
  function Value(s: seq<char>, base: nat): int {
    if s == [] then 0 else Value(s[..|s| - 1], base) * base + DigitValue(s[|s| - 1])
  }

  lemma DigitMeans(d: nat)
    requires d < 36
    ensures DigitValue(Digit(d)) == d
  {
  }

  /** The digits of `n` mean `n`. */
  lemma {:induction false} DigitsMean(n: nat, base: nat)
    requires 2 <= base <= 36
    ensures Value(Digits(n, base), base) == n
  {
    if n < base {
      DigitMeans(n);
      assert [Digit(n)][..0] == [];
    } else {
      hide *;
      DigitsMean(Quotient(n, base), base);
      DigitMeans(Remainder(n, base));
      LastDigit(n, base);
      ValueSnoc(Digits(Quotient(n, base), base), Digit(Remainder(n, base)), base);
      QuotientAndRest(n, base);
    }
  }

  /** Digits above nine are capital letters. */
  lemma HexExample()
    ensures Digits(0x1C9F, 16) == "1C9F"
  {
    assert Digits(0x1, 16) == "1" && Digits(0x1C, 16) == "1" + "C";
    assert Digits(0x1C9, 16) == Digits(0x1C, 16) + "9" && Digits(0x1C9F, 16) == Digits(0x1C9, 16) + "F";
  }

  lemma ValueSnoc(s: seq<char>, c: char, base: nat)
    ensures Value(s + [c], base) == Value(s, base) * base + DigitValue(c)
  {
    assert (s + [c])[..|s|] == s;
  }

  lemma LastDigit(n: nat, base: nat)
    requires 2 <= base <= 36 && n >= base
    ensures Digits(n, base) == Digits(Quotient(n, base), base) + [Digit(Remainder(n, base))]
  {
  }

  lemma QuotientAndRest(n: nat, base: nat)
    requires 2 <= base <= 36
    ensures Quotient(n, base) * base + Remainder(n, base) == n
  {
  }

  function Pow2(k: nat): nat {
    if k == 0 then 1 else 2 * Pow2(k - 1)
  }

  /** A number of `k` bits has at most `k` digits, so the 64 rounds of the digit loop are enough for 64 bits. */
  lemma {:induction false} DigitCount(n: nat, base: nat, k: nat)
    requires 2 <= base <= 36 && n < Pow2(k) && k > 0
    ensures |Digits(n, base)| <= k
  {
    assert Pow2(1) == 2;
    if n >= base {
      Halved(n, base);
      DigitCount(Quotient(n, base), base, k - 1);
    }
  }

  function Reversed(s: seq<char>): (r: seq<char>)
    ensures |r| == |s| && forall k | 0 <= k < |s| :: r[k] == s[|s| - 1 - k]
  {
    seq(|s|, k requires 0 <= k < |s| => s[|s| - 1 - k])
  }

  /** `strrev`, on a string of `n` characters before its terminator. */
  method StrRev(str: array<char>, ghost n: nat)
    requires n < str.Length && n < 256 && str[n] == '\0' && forall k | 0 <= k < n :: str[k] != '\0'
    modifies str
    ensures str[..] == Reversed(old(str[..n])) + old(str[n..])
  {
    if str[0] == '\0' {
      return;
    }
    var len, i := 0, 0;
    while str[len] != '\0'
      invariant 0 <= len <= n
      decreases n - len
    {
      len := len + 1;
    }
    len := len - 1;
    while i < len
      invariant 0 <= i && i + len == n - 1 && len < n && i <= n
      invariant forall k | 0 <= k < i || len < k < n :: str[k] == old(str[n - 1 - k])
      invariant forall k | i <= k <= len || n <= k < str.Length :: str[k] == old(str[k])
      decreases len - i
    {
      str[i], str[len] := str[len], str[i];
      i := i + 1;
      len := len - 1;
    }
  }

  class OutBuffer {
    const bufferOut: array<char>
    var bufferOutPtrWrite: nat

    ghost predicate Valid()
      reads this
    {
      bufferOut.Length == OUT_BUFFER_SIZE && bufferOutPtrWrite < OUT_BUFFER_SIZE
    }

    ghost function Contents(): seq<char>
      reads this, bufferOut
      requires Valid()
    {
      bufferOut[..bufferOutPtrWrite]
    }

    constructor ()
      ensures Valid() && fresh(bufferOut) && bufferOutPtrWrite == 0
    {
      bufferOut := new char[OUT_BUFFER_SIZE](_ => '\0');
      bufferOutPtrWrite := 0;
    }

    /** The digit loop: least significant digit first. */
    method FillDigits(n: nat, base: nat, arr: array<char>) returns (i: nat)
      requires 2 <= base <= 36 && n < Pow2(64) && arr.Length == 66
      modifies arr
      ensures i == |Digits(n, base)| <= 64 && Reversed(arr[..i]) == Digits(n, base)
    {
      DigitCount(n, base, 64);
      hide Digits, Pow2, Digit, Quotient, Remainder, Rest;
      i := 0;
      RestOf(n, base);
      RestOf(0, base);
      var num: nat := n;
      ghost var all := Digits(n, base);
      if num == 0 {
        arr[0] := '0';
        i := 1;
        ZeroDigits(base);
        assert Reversed(arr[..1]) == ['0'];
      }
      while num != 0 && i <= 64
        invariant i <= |all| <= 64
        invariant Rest(num, base) + Reversed(arr[..i]) == all
        decreases num
      {
        var rem := Remainder(num, base);
        ghost var done := arr[..i];
        OneMoreDigit(num, base, done, all);
        arr[i] := if rem > 9 then (rem - 10 + 'A' as int) as char else (rem + '0' as int) as char;
        DigitIs(rem);
        i := i + 1;
        assert arr[..i] == done + [Digit(rem)];
        num := Quotient(num, base);
      }
    }

    /** Copying the digits to the output. */
    method Append(arr: array<char>, len: nat)
      requires Valid() && arr != bufferOut && len <= arr.Length && bufferOutPtrWrite + len < OUT_BUFFER_SIZE
      modifies this`bufferOutPtrWrite, bufferOut
      ensures Valid() && Contents() == old(Contents()) + arr[..len] && bufferOutPtrWrite == old(bufferOutPtrWrite) + len
    {
      for p := 0 to len
        invariant bufferOutPtrWrite == old(bufferOutPtrWrite)
        invariant bufferOut[..bufferOutPtrWrite + p] == old(Contents()) + arr[..p]
      {
        bufferOut[bufferOutPtrWrite + p] := arr[p];
      }
      bufferOutPtrWrite := bufferOutPtrWrite + len;
    }

    /** `writeUnsignedLong` appends the digits of `n`. */
    method WriteUnsignedLong(n: nat, base: nat) returns (len: nat)
      requires Valid() && 2 <= base <= 36 && n < Pow2(64)
      requires bufferOutPtrWrite + |Digits(n, base)| < OUT_BUFFER_SIZE
      modifies this`bufferOutPtrWrite, bufferOut
      ensures Valid() && len == |Digits(n, base)| && Contents() == old(Contents()) + Digits(n, base)
      ensures bufferOutPtrWrite == old(bufferOutPtrWrite) + len
    {
      hide Digits, Pow2;
      var arr := new char[66];
      len := FillDigits(n, base, arr);
      arr[len] := '\0';
      ghost var text := arr[..len];
      assert Reversed(text) == Digits(n, base);
      NoTerminator(text);
      StrRev(arr, len);
      assert arr[..len] == Digits(n, base);
      Append(arr, len);
    }
  }

  /** The digits still to be produced. */
  function Rest(num: nat, base: nat): seq<char>
    requires 2 <= base <= 36
  {
    if num == 0 then [] else Digits(num, base)
  }

  lemma RestOf(num: nat, base: nat)
    requires 2 <= base <= 36
    ensures Rest(num, base) == if num == 0 then [] else Digits(num, base)
  {
  }

  lemma ZeroDigits(base: nat)
    requires 2 <= base <= 36
    ensures Digits(0, base) == ['0']
  {
  }

  lemma DigitIs(d: nat)
    requires d < 36
    ensures Digit(d) == if d > 9 then (d - 10 + 'A' as int) as char else (d + '0' as int) as char
  {
  }

  lemma OneMoreDigit(num: nat, base: nat, done: seq<char>, all: seq<char>)
    requires 2 <= base <= 36 && num != 0 && Rest(num, base) + Reversed(done) == all
    ensures |done| < |all| && Rest(Quotient(num, base), base) + Reversed(done + [Digit(Remainder(num, base))]) == all
  {
    hide Digit;
    var d := Digit(Remainder(num, base));
    assert Reversed(done + [d]) == [d] + Reversed(done);
    if num < base {
      SmallQuotient(num, base);
      assert [d] + Reversed(done) == all;
    } else {
      LastDigit(num, base);
      assert Quotient(num, base) > 0 by { QuotientAndRest(num, base); }
      hide Digits;
      var q := Digits(Quotient(num, base), base);
      assert (q + [d]) + Reversed(done) == q + ([d] + Reversed(done));
    }
  }

  lemma SmallQuotient(num: nat, base: nat)
    requires 2 <= base <= 36 && num < base
    ensures Quotient(num, base) == 0 && Remainder(num, base) == num
  {
    hide *;
    QuotientAndRest(num, base);
    ZeroFactor(Quotient(num, base), base);
  }

  lemma ZeroFactor(q: nat, base: nat)
    requires q * base < base
    ensures q == 0
  {
    assert q > 0 ==> q * base >= 1 * base;
  }

  lemma NoTerminator(s: seq<char>)
    requires '\0' !in Reversed(s)
    ensures forall k | 0 <= k < |s| :: s[k] != '\0'
  {
    forall k | 0 <= k < |s|
      ensures s[k] != '\0'
    {
      assert Reversed(s)[|s| - 1 - k] == s[k];
    }
  }

  predicate FitsInt(x: int) {
    -0x8000_0000 <= x < 0x8000_0000
  }

  /** The decimal reading of any string. */
  function Parsed(s: seq<char>): int {
    if s == [] then 0 else Parsed(s[..|s| - 1]) * 10 + (s[|s| - 1] as int - '0' as int)
  }

  /** `my_atoi`; C leaves the result open when an intermediate value leaves the range of `int`. */
  method MyAtoi(str: seq<char>) returns (res: int)
    requires forall k | 0 <= k <= |str| :: FitsInt(Parsed(str[..k]))
    ensures res == Parsed(str) && FitsInt(res)
  {
    res := 0;
    for i := 0 to |str|
      invariant res == Parsed(str[..i])
    {
      assert str[..i + 1][..i] == str[..i];
      res := res * 10 + (str[i] as int - '0' as int);
    }
    assert str[..|str|] == str;
  }

  /** Parsing the decimal digits of `n` gives back `n`, and for `n` below 2^31 no intermediate value overflows. */
  lemma {:induction false} ParsedDigits(n: nat)
    ensures Parsed(Digits(n, 10)) == n
    ensures forall k | 0 <= k <= |Digits(n, 10)| :: 0 <= Parsed(Digits(n, 10)[..k]) <= n
  {
    var s := Digits(n, 10);
    var m := |s| - 1;
    assert s[..|s|] == s;
    if n < 10 {
      assert s[..0] == [];
    } else {
      ParsedDigits(n / 10);
      var t := Digits(n / 10, 10);
      assert s[..m] == t;
      forall k | 0 <= k <= m
        ensures s[..k] == t[..k]
      {
      }
    }
  }

  /** What was written is read back. */
  method WriteThenParse(out: OutBuffer, n: nat) returns (res: int)
    requires out.Valid() && n < 0x8000_0000 && out.bufferOutPtrWrite + |Digits(n, 10)| < OUT_BUFFER_SIZE
    modifies out, out.bufferOut
    ensures res == n
  {
    var start := out.bufferOutPtrWrite;
    ghost var before := out.Contents();
    SixtyFourBits(n);
    var len := out.WriteUnsignedLong(n, 10);
    ParsedDigits(n);
    assert out.Contents()[start..] == Digits(n, 10);
    assert out.bufferOut[start..start + len] == out.Contents()[start..];
    res := MyAtoi(out.bufferOut[start..start + len]);
  }

  lemma SixtyFourBits(n: nat)
    requires n < 0x1_0000_0000_0000_0000
    ensures n < Pow2(64)
  {
    assert Pow2(8) == 256;
    Pow2Sum(8, 8);
    Pow2Sum(16, 16);
    Pow2Sum(32, 32);
  }

  lemma {:induction false} Pow2Sum(a: nat, b: nat)
    ensures Pow2(a + b) == Pow2(a) * Pow2(b)
  {
    if a > 0 {
      Pow2Sum(a - 1, b);
    }
  }
}
