/** itoa and atoi of the C library: int32 and uint32 are mixed, so that a negative number
    is written as the unsigned number with the same bits. */
module Numerals {
  import opened Bytes

  const INT_MIN: int := -0x8000_0000
  const INT_LIMIT: int := 0x8000_0000
  const MAX_BASE: nat := 36

  predicate Int32(n: int) { INT_MIN <= n < INT_LIMIT }

  /** An int32 where a uint32 is asked for. */
  function AsUnsigned(n: int): (u: nat)
    requires Int32(n)
    ensures u < WORD && u % WORD == n % WORD
  {
    if n < 0 then n + WORD else n
  }

  /** A uint32 where an int32 is asked for. */
  function AsSigned(u: nat): (n: int)
    requires u < WORD
    ensures Int32(n) && AsUnsigned(n) == u
  {
    if u >= INT_LIMIT then u - WORD else u
  }

  /** The table of itoa: digits for negative remainders to the left of its middle, for others from there on. */
  function Table(): (s: string)
    ensures |s| == 71
  {
    "zyxwvutsrqponmlkjihgfedcba9876543210123456789abcdefghijklmnopqrstuvwxyz"
  }

  function Digit(d: nat): char
    requires d < MAX_BASE
  {
    if d < 10 then (48 + d) as char else (87 + d) as char
  }

  lemma Table0(d: nat)
    requires 0 <= d < 6
    ensures Table()[35 + d] == Digit(d)
  {
    var s := Table();
    assert s[35] == '0' && s[36] == '1' && s[37] == '2';
    assert s[38] == '3' && s[39] == '4' && s[40] == '5';
  }

  lemma Table1(d: nat)
    requires 6 <= d < 12
    ensures Table()[35 + d] == Digit(d)
  {
    var s := Table();
    assert s[41] == '6' && s[42] == '7' && s[43] == '8';
    assert s[44] == '9' && s[45] == 'a' && s[46] == 'b';
  }

  lemma Table2(d: nat)
    requires 12 <= d < 18
    ensures Table()[35 + d] == Digit(d)
  {
    var s := Table();
    assert s[47] == 'c' && s[48] == 'd' && s[49] == 'e';
    assert s[50] == 'f' && s[51] == 'g' && s[52] == 'h';
  }

  lemma Table3(d: nat)
    requires 18 <= d < 24
    ensures Table()[35 + d] == Digit(d)
  {
    var s := Table();
    assert s[53] == 'i' && s[54] == 'j' && s[55] == 'k';
    assert s[56] == 'l' && s[57] == 'm' && s[58] == 'n';
  }

  lemma Table4(d: nat)
    requires 24 <= d < 30
    ensures Table()[35 + d] == Digit(d)
  {
    var s := Table();
    assert s[59] == 'o' && s[60] == 'p' && s[61] == 'q';
    assert s[62] == 'r' && s[63] == 's' && s[64] == 't';
  }

  lemma Table5(d: nat)
    requires 30 <= d < 36
    ensures Table()[35 + d] == Digit(d)
  {
    var s := Table();
    assert s[65] == 'u' && s[66] == 'v' && s[67] == 'w';
    assert s[68] == 'x' && s[69] == 'y' && s[70] == 'z';
  }

  lemma TableIs(d: nat)
    requires d < MAX_BASE
    ensures Table()[35 + d] == Digit(d)
  {
    hide Table;
    if d < 6 { Table0(d); } else if d < 12 { Table1(d); } else if d < 18 { Table2(d); }
    else if d < 24 { Table3(d); } else if d < 30 { Table4(d); } else { Table5(d); }
  }

  predicate Base(b: nat) { 2 <= b <= MAX_BASE }

  /** The numeral of u, with no more digits than it needs. */
  function Numeral(u: nat, b: nat): (s: string)
    requires Base(b)
    ensures s != []
  {
    if u < b then [Digit(u)] else Numeral(u / b, b) + [Digit(u % b)]
  }

  function Reversed(s: string): (r: string)
    ensures |r| == |s| && forall i :: 0 <= i < |s| ==> r[i] == s[|s| - 1 - i]
  {
    if s == [] then [] else Reversed(s[1..]) + [s[0]]
  }

  // ---------- itoa ----------

  /** The string in str is s, and what is behind its NUL is as it was. */
  ghost predicate Holds(str: array<char>, s: string, was: seq<char>)
    reads str
  {
    |s| < str.Length == |was| && str[..|s|] == s && str[|s|] == '\0' && str[|s| + 1..] == was[|s| + 1..]
  }

  method Itoa(str: array<char>, num: int, base: nat)
    requires Int32(num) && base < WORD && str.Length > 0
    requires Base(base) ==> |Numeral(AsUnsigned(num), base)| < str.Length
    modifies str
    ensures Base(base) ==> Holds(str, Numeral(AsUnsigned(num), base), old(str[..]))
    ensures !Base(base) ==> Holds(str, "", old(str[..]))
  {
    if base < 2 || base > 36 {
      str[0] := '\0';
      return;
    }
    hide Numeral, Reversed, AsUnsigned;
    var ptr, tmp := WriteDigits(str, num, base);
    if tmp < 0 {
      // a minus sign would be written here
      assert false;
    }
    str[ptr] := '\0';
    ReverseInPlace(str, ptr);
  }

  /** The digits from the last one on; tmp is what was left for the first one. */
  method WriteDigits(str: array<char>, num: int, base: nat) returns (ptr: nat, tmp: int)
    requires Int32(num) && Base(base) && |Numeral(AsUnsigned(num), base)| < str.Length
    modifies str
    ensures ptr < str.Length && Reversed(str[..ptr]) == Numeral(AsUnsigned(num), base) && str[ptr..] == old(str[ptr..])
    ensures tmp >= 0
  {
    hide Numeral, Reversed, Unwritten, Digit, AsUnsigned, AsSigned;
    ghost var was := str[..];
    ghost var all := Numeral(AsUnsigned(num), base);
    var n, more := num, true;
    ptr, tmp := 0, num;
    NothingWritten(num, base, str[..0]);
    while more
      invariant Int32(n) && ptr <= |all| && str[ptr..] == was[ptr..]
      invariant more ==> Unwritten(n, base, str[..ptr], all)
      invariant !more ==> Reversed(str[..ptr]) == all && 0 <= tmp
      decreases more, AsUnsigned(n)
    {
      tmp := n;
      NextDigit(n, base, str[..ptr], all);
      ghost var before := str[..ptr];
      n := PutDigit(str, ptr, tmp, base);
      ptr := ptr + 1;
      assert str[..ptr] == before + [Digit(AsUnsigned(tmp) % base)];
      more := n != 0;
    }
  }

  lemma NothingWritten(n: int, base: nat, written: string)
    requires Int32(n) && Base(base) && written == []
    ensures Unwritten(n, base, written, Numeral(AsUnsigned(n), base))
  {
  }

  lemma SmallIsPositive(n: int, base: nat)
    requires Int32(n) && Base(base)
    ensures AsUnsigned(n) < base ==> n >= 0
  {
  }

  /** What is left to be written of the numeral, in front of the digits that are written backwards. */
  ghost predicate Unwritten(n: int, base: nat, written: string, all: string)
    requires Int32(n) && Base(base)
  {
    Numeral(AsUnsigned(n), base) + Reversed(written) == all
  }

  lemma NextDigit(n: int, base: nat, written: string, all: string)
    requires Int32(n) && Base(base) && Unwritten(n, base, written, all)
    ensures var u := AsUnsigned(n);
      && u % base < base && u / base < WORD && |written| < |all|
      && (u < base ==> Reversed(written + [Digit(u % base)]) == all && n >= 0 && u / base == 0)
      && (u >= base ==> u / base < u && u / base != 0)
      && (u >= base ==> Unwritten(AsSigned(u / base), base, written + [Digit(u % base)], all))
  {
    hide Digit, AsUnsigned, AsSigned, Numeral, Reversed;
    SmallIsPositive(n, base);
    LastDigit(AsUnsigned(n), base);
    NextDigitOf(AsUnsigned(n), AsUnsigned(n) / base, AsUnsigned(n) % base, base, written, all);
  }

  lemma NextDigitOf(u: nat, q: nat, d: nat, base: nat, written: string, all: string)
    requires Base(base) && q == u / base && d == u % base && Numeral(u, base) + Reversed(written) == all
    ensures |written| < |all|
    ensures u < base ==> Reversed(written + [Digit(d)]) == all
    ensures u >= base ==> Numeral(q, base) + Reversed(written + [Digit(d)]) == all
  {
    hide Digit, Numeral, Reversed;
    NumeralStep(u, base);
    ReversedSnoc(written, Digit(d));
    if u >= base {
      assert Numeral(q, base) + [Digit(d)] + Reversed(written) == Numeral(q, base) + ([Digit(d)] + Reversed(written));
    }
  }

  lemma NumeralStep(u: nat, b: nat)
    requires Base(b)
    ensures u < b ==> u % b == u && Numeral(u, b) == [Digit(u % b)]
    ensures u >= b ==> Numeral(u, b) == Numeral(u / b, b) + [Digit(u % b)]
  {
  }

  lemma Remainder(u: nat, q: nat, b: nat)
    requires Base(b) && u < WORD && q == u / b
    ensures (u - q * b % WORD) % WORD == u % b
  {
    assert u == q * b + u % b;
    assert 0 <= q * b <= u;
  }

  /** One division: the remainder is written, the quotient is what is left. */
  method PutDigit(str: array<char>, ptr: nat, tmp: int, base: nat) returns (n: int)
    requires Int32(tmp) && Base(base) && ptr < str.Length
    requires AsUnsigned(tmp) % base < base && AsUnsigned(tmp) / base < WORD
    modifies str
    ensures n == AsSigned(AsUnsigned(tmp) / base)
    ensures str[..] == old(str[..])[ptr := Digit(AsUnsigned(tmp) % base)]
  {
    hide Table, AsUnsigned, AsSigned;
    LastDigit(AsUnsigned(tmp), base);
    n := AsSigned(AsUnsigned(tmp) / base);
    Remainder(AsUnsigned(tmp), AsUnsigned(n), base);
    var d := (AsUnsigned(tmp) - AsUnsigned(n) * base % WORD) % WORD;
    TableIs(d);
    str[ptr] := Table()[35 + d];
  }

  lemma LastDigit(u: nat, b: nat)
    requires Base(b)
    ensures 0 <= u / b <= u && u / b * b <= u && u - u / b * b == u % b < b
    ensures (u / b == 0 <==> u < b) && (u > 0 ==> u / b < u)
  {
    assert u == u / b * b + u % b;
    DivisionFacts(u, u / b, u % b, b);
  }

  lemma DivisionFacts(u: int, q: int, r: int, b: int)
    requires b >= 2 && u == q * b + r && 0 <= r < b && u >= 0
    ensures 0 <= q <= u && q * b <= u && (q == 0 <==> u < b) && (u > 0 ==> q < u)
  {
    if q <= -1 {
      AtLeastOnce(-q, b);
      assert false;
    }
    if q >= 1 {
      AtLeastOnce(q, b);
      AtLeastTwice(q, b);
    }
  }

  lemma AtLeastOnce(k: int, b: int)
    requires k >= 1 && b >= 0
    ensures k * b >= b
  {
  }

  lemma AtLeastTwice(k: int, b: int)
    requires k >= 0 && b >= 2
    ensures k * b >= k * 2
  {
  }

  lemma ReversedSnoc(s: string, c: char)
    ensures Reversed(s + [c]) == [c] + Reversed(s)
  {
    assert forall i :: 0 <= i < |s| + 1 ==> Reversed(s + [c])[i] == ([c] + Reversed(s))[i];
  }

  /** The first n characters change places, from the outside in. */
  method ReverseInPlace(str: array<char>, n: nat)
    requires n <= str.Length
    modifies str
    ensures str[..n] == Reversed(old(str[..n])) && str[n..] == old(str[n..])
  {
    var lo, hi := 0, n - 1;
    while lo < hi
      invariant 0 <= lo <= n && hi == n - 1 - lo && (lo <= hi + 1 || n == 0)
      invariant forall k :: 0 <= k < lo || hi < k < n ==> str[k] == old(str[n - 1 - k])
      invariant forall k :: lo <= k <= hi ==> str[k] == old(str[k])
      invariant forall k :: n <= k < str.Length ==> str[k] == old(str[k])
    {
      str[hi], str[lo] := str[lo], str[hi];
      lo, hi := lo + 1, hi - 1;
    }
  }

  // ---------- what a numeral means ----------

  /** The value of a digit. */
  function ValueOf(c: char): int {
    if '0' <= c <= '9' then c as int - 48 else if 'a' <= c <= 'z' then c as int - 87 else -1
  }

  predicate IsNumeral(s: string, b: nat) {
    Base(b) && s != [] && (forall i :: 0 <= i < |s| ==> 0 <= ValueOf(s[i]) < b) && (|s| > 1 ==> s[0] != '0')
  }

  /** What a numeral says, read from the left. */
  function Value(s: string, b: nat): int {
    if s == [] then 0 else Value(s[..|s| - 1], b) * b + ValueOf(s[|s| - 1])
  }

  lemma DigitValue(d: nat)
    requires d < MAX_BASE
    ensures ValueOf(Digit(d)) == d && (Digit(d) == '0' <==> d == 0)
  {
  }

  /** itoa writes a numeral without leading zeros, and it says the number. */
  lemma {:induction false} NumeralMeans(u: nat, b: nat)
    requires Base(b)
    ensures IsNumeral(Numeral(u, b), b) && Value(Numeral(u, b), b) == u
    ensures u > 0 ==> Numeral(u, b)[0] != '0'
  {
    if u < b {
      DigitValue(u);
      assert [Digit(u)][..0] == [];
    } else {
      LastDigit(u, b);
      NumeralMeans(u / b, b);
      DigitValue(u % b);
      var front, s := Numeral(u / b, b), Numeral(u, b);
      assert s[..|s| - 1] == front && s[0] == front[0];
      assert u / b > 0;
    }
  }

  /** There is no other numeral without leading zeros for that number. */
  lemma {:induction false} NumeralUnique(s: string, b: nat)
    requires IsNumeral(s, b)
    ensures Value(s, b) >= 0 && Numeral(Value(s, b), b) == s
    ensures s[0] != '0' ==> Value(s, b) > 0
    decreases |s|
  {
    var front, c := s[..|s| - 1], s[|s| - 1];
    var d := ValueOf(c);
    DigitOfValue(c);
    assert Value(s, b) == Value(front, b) * b + d;
    if front == [] {
      assert s == [c] && Value(front, b) == 0;
      assert Numeral(d, b) == [Digit(d)];
    } else {
      assert front[0] == s[0];
      NumeralUnique(front, b);
      hide Numeral, Value, ValueOf, Digit;
      Quotient(Value(front, b), d, b);
      NumeralStep(Value(front, b) * b + d, b);
      assert s == front + [c];
    }
  }

  lemma DigitOfValue(c: char)
    requires 0 <= ValueOf(c) < MAX_BASE
    ensures Digit(ValueOf(c)) == c && (c != '0' ==> ValueOf(c) > 0)
  {
  }

  lemma Quotient(q: int, d: int, b: nat)
    requires b >= 2 && q > 0 && 0 <= d < b
    ensures q * b + d >= b && (q * b + d) / b == q && (q * b + d) % b == d
  {
    var u := q * b + d;
    AtLeastOnce(q, b);
    assert u == u / b * b + u % b;
    var k := q - u / b;
    assert k * b == q * b - u / b * b;
    if k >= 1 {
      AtLeastOnce(k, b);
      assert false;
    } else if k <= -1 {
      AtLeastOnce(-k, b);
      assert false;
    }
  }

  // ---------- atoi ----------

  predicate IsDigit(c: char) { 48 <= c as int <= 57 }

  /** The digits at the front of a string. */
  function DigitsOf(s: string): string {
    if s == [] || !IsDigit(s[0]) then [] else [s[0]] + DigitsOf(s[1..])
  }

  lemma {:induction false} DigitsAre(s: string, k: nat)
    requires k < |s| && !IsDigit(s[k]) && forall i :: 0 <= i < k ==> IsDigit(s[i])
    ensures DigitsOf(s) == s[..k]
  {
    if k > 0 {
      DigitsAre(s[1..], k - 1);
      assert s[..k] == [s[0]] + s[1..][..k - 1];
    }
  }

  /** What atoi makes of a NUL-terminated string: an optional minus sign, and the digits behind it. */
  function Parsed(s: string): int {
    if s != [] && s[0] == '-' then -Value(DigitsOf(s[1..]), 10) else Value(DigitsOf(s), 10)
  }

  method Atoi(str: string) returns (result: nat)
    requires '\0' in str
    ensures result == Parsed(str) % WORD
  {
    hide Value, DigitsOf, Parsed;
    var sign, i, n := 1, 0, 0;
    if str[0] == '-' {
      sign := WORD - 1;
      i := 1;
    }
    ghost var start := i;
    StartsOk(str, start);
    while 48 <= str[i] as int <= 57
      invariant start <= i < |str| && '\0' in str[i..]
      invariant forall k :: start <= k < i ==> IsDigit(str[k])
      invariant n == Value(str[start..i], 10) % WORD
      decreases |str| - i
    {
      ReadDigit(str, start, i);
      n := (n * 10 + (str[i] as int - 48)) % WORD;
      i := i + 1;
    }
    AllRead(str, start, i);
    Negated(Value(str[start..i], 10));
    result := sign * n % WORD;
  }

  lemma StartsOk(str: string, start: nat)
    requires '\0' in str && start == if str[0] == '-' then 1 else 0
    ensures start < |str| && Value(str[start..start], 10) == 0 && '\0' in str[start..]
  {
    var z :| 0 <= z < |str| && str[z] == '\0';
    assert str[start..][z - start] == '\0';
  }

  lemma AllRead(str: string, start: nat, i: nat)
    requires start <= i < |str| && !IsDigit(str[i]) && forall k :: start <= k < i ==> IsDigit(str[k])
    requires start == if str[0] == '-' then 1 else 0
    ensures Parsed(str) == if start == 1 then -Value(str[start..i], 10) else Value(str[start..i], 10)
  {
    DigitsAre(str[start..], i - start);
    assert str[start..][..i - start] == str[start..i] && str[0..] == str;
  }

  lemma ReadDigit(str: string, start: nat, i: nat)
    requires start <= i < |str| && '\0' in str[i..] && IsDigit(str[i])
    ensures i + 1 < |str| && '\0' in str[i + 1..]
    ensures var v := Value(str[start..i], 10);
      Value(str[start..i + 1], 10) % WORD == (v % WORD * 10 + (str[i] as int - 48)) % WORD
  {
    var z :| 0 <= z < |str[i..]| && str[i..][z] == '\0';
    assert z > 0 && str[i + 1..][z - 1] == '\0';
    var s := str[start..i + 1];
    assert s[..|s| - 1] == str[start..i] && s[|s| - 1] == str[i];
    ModuloStep(Value(str[start..i], 10), str[i] as int - 48);
  }

  lemma ModuloStep(v: int, d: int)
    ensures (v * 10 + d) % WORD == (v % WORD * 10 + d) % WORD
  {
  }

  lemma Negated(v: int)
    ensures (WORD - 1) * (v % WORD) % WORD == -v % WORD
  {
  }

  /** atoi reads an optional minus sign and the digits behind it, and stops at the first character that is no digit:
      neither space nor plus sign is skipped. */
  lemma ParsedIs(minus: bool, digits: string, rest: string)
    requires forall i :: 0 <= i < |digits| ==> '0' <= digits[i] <= '9'
    requires rest != [] ==> !('0' <= rest[0] <= '9') && (digits == [] && !minus ==> rest[0] != '-')
    ensures if minus then Parsed(['-'] + (digits + rest)) == -Value(digits, 10)
      else Parsed(digits + rest) == Value(digits, 10)
  {
    hide Value, DigitsOf;
    var t := digits + rest;
    DigitsFirst(digits, rest);
    assert (['-'] + t)[0] == '-' && (['-'] + t)[1..] == t;
    assert !minus && t != [] ==> t[0] != '-';
  }

  lemma {:induction false} DigitsFirst(digits: string, rest: string)
    requires (forall i :: 0 <= i < |digits| ==> IsDigit(digits[i])) && (rest != [] ==> !IsDigit(rest[0]))
    ensures DigitsOf(digits + rest) == digits
  {
    if digits == [] {
      assert digits + rest == rest;
    } else {
      assert (digits + rest)[1..] == digits[1..] + rest;
      DigitsFirst(digits[1..], rest);
    }
  }

  /** Writing a number and reading it back gives the same 32 bits, also for a negative number, which is
      written without a sign. */
  lemma RoundTrip(n: int, rest: string)
    requires Int32(n)
    ensures Parsed(Numeral(AsUnsigned(n), 10) + ['\0'] + rest) == AsUnsigned(n) == n % WORD
    ensures Parsed(Numeral(AsUnsigned(n), 10) + ['\0'] + rest) == n <==> n >= 0
  {
    var s := Numeral(AsUnsigned(n), 10);
    var t := s + ['\0'] + rest;
    NumeralMeans(AsUnsigned(n), 10);
    forall i | 0 <= i < |s| ensures IsDigit(t[i]) {
      assert t[i] == s[i] && 0 <= ValueOf(s[i]) < 10;
    }
    DigitsAre(t, |s|);
    assert t[..|s|] == s;
  }

  /** itoa_dec into a buffer, and atoi of it. */
  method WriteAndRead(str: array<char>, n: int) returns (result: nat)
    requires Int32(n) && |Numeral(AsUnsigned(n), 10)| < str.Length
    modifies str
    ensures result == AsUnsigned(n)
  {
    Itoa(str, n, 10);
    ghost var s := Numeral(AsUnsigned(n), 10);
    assert str[..] == s + ['\0'] + str[|s| + 1..];
    assert str[..][|s|] == '\0';
    RoundTrip(n, str[|s| + 1..]);
    result := Atoi(str[..]);
  }
}
