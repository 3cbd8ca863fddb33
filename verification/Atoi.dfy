/** common/libc/stdlib/atoi.c: reading a decimal number. */
module Atoi {

  import opened Words
  import opened Numerals

  type Int = x: int | -0x8000_0000 <= x < 0x8000_0000

  /** A 32-bit word read as a signed number. */
  function ToInt(x: UInt): Int { if x < 0x8000_0000 then x else x - W32 }

  predicate Blank(c: char) { c == ' ' || c == '\t' }

  function SkipBlanks(s: string): string
  {
    if s != [] && Blank(s[0]) then SkipBlanks(s[1..]) else s
  }

  /** How many digits a string starts with. */
  function DigitRun(s: string): nat
  {
    if s != [] && IsDigit(s[0]) then 1 + DigitRun(s[1..]) else 0
  }

  lemma DigitRunBound(s: string)
    ensures DigitRun(s) <= |s|
  {
    if s != [] && IsDigit(s[0]) {
      DigitRunBound(s[1..]);
    }
  }

  /** What the text stands for: blanks, an optional sign, then as many digits as follow. */
  function Denotes(s: string): int
  {
    var t := SkipBlanks(s);
    var u := if t != [] && (t[0] == '-' || t[0] == '+') then t[1..] else t;
    DigitRunBound(u);
    var v := Value(u[..DigitRun(u)], 10);
    if t != [] && t[0] == '-' then 0 - v else v
  }

  /** A string of digits ended by a non-digit, or by its end, is just its own run. */
  lemma {:induction false} DigitRunOf(d: string, rest: string)
    requires AllDigits(d) && (rest == [] || !IsDigit(rest[0]))
    ensures DigitRun(d + rest) == |d|
  {
    if d == [] {
      assert d + rest == rest;
    } else {
      assert (d + rest)[1..] == d[1..] + rest;
      DigitRunOf(d[1..], rest);
    }
  }

  lemma {:induction false} SkipBlanksOf(b: string, rest: string)
    requires (forall i :: 0 <= i < |b| ==> Blank(b[i])) && (rest == [] || !Blank(rest[0]))
    ensures SkipBlanks(b + rest) == rest
  {
    if b == [] {
      assert b + rest == rest;
    } else {
      assert (b + rest)[1..] == b[1..] + rest;
      SkipBlanksOf(b[1..], rest);
    }
  }

  /** Spaces and tabs, at most one sign, decimal digits, and a rest that belongs to none of them. */
  predicate HasForm(blanks: string, sign: string, d: string, rest: string)
  {
    && (forall i :: 0 <= i < |blanks| ==> blanks[i] == ' ' || blanks[i] == '\t')
    && (sign == "" || sign == "-" || sign == "+")
    && (forall i :: 0 <= i < |d| ==> '0' <= d[i] <= '9')
    && (rest != [] ==> !('0' <= rest[0] <= '9'))
    && (sign == "" && d == [] && rest != [] ==> rest[0] !in " \t-+")
  }

  /** A text of that form denotes its digits read in base ten, negated after a minus; no digits denote 0. */
  lemma DenotesForm(blanks: string, sign: string, d: string, rest: string)
    requires HasForm(blanks, sign, d, rest)
    ensures Denotes(blanks + sign + d + rest) == if sign == "-" then 0 - Value(d, 10) else Value(d, 10)
  {
    hide Value;
    var body := sign + d + rest;
    assert blanks + sign + d + rest == blanks + body;
    assert body != [] ==> body[0] == if sign != "" then sign[0] else if d != [] then d[0] else rest[0];
    var stops := " \t-+";
    assert stops[0] == ' ' && stops[1] == '\t' && stops[2] == '-' && stops[3] == '+';
    SkipBlanksOf(blanks, body);
    DigitRunOf(d, rest);
    assert sign != "" ==> body[1..] == d + rest;
    assert sign == "" ==> body == d + rest;
    assert (d + rest)[..|d|] == d;
  }

  lemma {:induction false} TakeBlanks(s: string) returns (blanks: string, rest: string)
    ensures s == blanks + rest && (rest != [] ==> rest[0] != ' ' && rest[0] != '\t')
    ensures forall i :: 0 <= i < |blanks| ==> blanks[i] == ' ' || blanks[i] == '\t'
  {
    if s != [] && (s[0] == ' ' || s[0] == '\t') {
      blanks, rest := TakeBlanks(s[1..]);
      blanks := [s[0]] + blanks;
    } else {
      blanks, rest := "", s;
    }
  }

  lemma {:induction false} TakeDigits(s: string) returns (d: string, rest: string)
    ensures s == d + rest && (rest != [] ==> !('0' <= rest[0] <= '9'))
    ensures forall i :: 0 <= i < |d| ==> '0' <= d[i] <= '9'
  {
    if s != [] && '0' <= s[0] <= '9' {
      d, rest := TakeDigits(s[1..]);
      d := [s[0]] + d;
    } else {
      d, rest := "", s;
    }
  }

  lemma TakeSign(t: string) returns (sign: string, u: string)
    ensures t == sign + u && (sign == "" || sign == "-" || sign == "+")
    ensures sign == "" ==> u == t && (t != [] ==> t[0] != '-' && t[0] != '+')
  {
    if t != [] && (t[0] == '-' || t[0] == '+') {
      sign, u := [t[0]], t[1..];
    } else {
      sign, u := "", t;
    }
  }

  lemma Joined(blanks: string, sign: string, d: string, rest: string)
    ensures blanks + (sign + (d + rest)) == blanks + sign + d + rest
  {
  }

  /** Every text whatever has the form, so what atoi returns is settled for all of them. */
  lemma EveryTextHasAForm(s: string) returns (blanks: string, sign: string, d: string, rest: string)
    ensures s == blanks + sign + d + rest && HasForm(blanks, sign, d, rest)
  {
    var t, u;
    blanks, t := TakeBlanks(s);
    sign, u := TakeSign(t);
    d, rest := TakeDigits(u);
    Joined(blanks, sign, d, rest);
    assert sign == "" && d == [] ==> rest == t;
  }

  lemma ModAdd(x: int, k: int)
    ensures (k * W32 + x) % W32 == x % W32
  {
    var q, r := x / W32, x % W32;
    assert k * W32 + x == (k + q) * W32 + r;
  }

  /** One more digit, with the wrap-around of an unsigned word, keeps the sum right modulo 2^32. */
  lemma WrapStep(v: nat, d: nat)
    ensures Wrap32(Wrap32(v) * 10 + d) == Wrap32(v * 10 + d)
  {
    var q := v / W32;
    assert v == q * W32 + Wrap32(v);
    assert v * 10 + d == (q * 10) * W32 + (Wrap32(v) * 10 + d);
    ModAdd(Wrap32(v) * 10 + d, q * 10);
  }

  lemma NegStep(v: nat, w: int)
    requires w == Wrap32(v)
    ensures Wrap32(0 - w) == Wrap32(0 - v)
  {
    var q := v / W32;
    assert 0 - v == (0 - q) * W32 + (0 - w);
    ModAdd(0 - w, 0 - q);
  }

  lemma WrapSmall(x: int)
    requires 0 <= x < W32
    ensures Wrap32(x) == x
  {
  }

  /** The digit loop, over whatever follows position i. */
  method ReadDigits(s: string, start: nat) returns (val: UInt)
    requires start <= |s|
    ensures var u := s[start..]; DigitRun(u) <= |u| && val == Wrap32(Value(u[..DigitRun(u)], 10))
  {
    hide Wrap32;
    ghost var u := s[start..];
    val := 0;
    var i := start;
    assert Wrap32(0) == 0 by { WrapSmall(0); }
    while i < |s| && IsDigit(s[i])
      invariant start <= i <= |s| && DigitRun(u) == (i - start) + DigitRun(s[i..])
      invariant val == Wrap32(Value(u[..i - start], 10))
    {
      var digit := DigitValue(s[i]);
      ghost var k := i - start;
      WrapStep(Value(u[..k], 10), digit);
      assert u[..k + 1][..k] == u[..k] && u[..k + 1][k] == s[i];
      assert s[i..][1..] == s[i + 1..];
      val := Wrap32(val * 10 + digit);
      i := i + 1;
    }
    DigitRunBound(u);
  }

  /** Whatever the string, the result is what its leading text denotes, reduced to an int. */
  method Atoi(s: string) returns (r: Int)
    ensures r == ToInt(Wrap32(Denotes(s)))
  {
    hide Wrap32, Value, DigitRun;
    var i := 0;
    while i < |s| && Blank(s[i])
      invariant i <= |s| && SkipBlanks(s[i..]) == SkipBlanks(s)
    {
      assert s[i..][1..] == s[i + 1..];
      i := i + 1;
    }
    ghost var t := s[i..];
    assert SkipBlanks(s) == t;
    var neg := false;
    if i < |s| && s[i] == '-' {
      neg := true;
      i := i + 1;
    } else if i < |s| && s[i] == '+' {
      i := i + 1;
    }
    ghost var u := if t != [] && (t[0] == '-' || t[0] == '+') then t[1..] else t;
    assert s[i..] == u;
    var val := ReadDigits(s, i);
    ghost var v := Value(u[..DigitRun(u)], 10);
    if neg {
      var n: int := val;
      NegStep(v, n);
      return ToInt(Wrap32(0 - n));
    }
    return ToInt(val);
  }

  /** A text that denotes an int is read back as that int. */
  lemma IntsAreExact(n: Int)
    ensures ToInt(Wrap32(n)) == n
  {
  }
}
