/** common/libc/printf/__printf.c and snprintf.c: the code that produces the text and stores it. */
module Printf {

  import opened Collections
  import opened Words
  import opened Numerals
  import opened PrintfText

  const NUMBER_BUF_SIZE := 23      // 64 / 3 + 2

  /** The SNP structure and its send function. */
  class Snp {
    const buf: array<char>
    const buflen: nat
    var bufpos: nat
    ghost var sent: string
    ghost const orig: seq<char>

    constructor (b: array<char>, n: nat)
      requires n <= b.Length
      ensures Valid() && buf == b && buflen == n && sent == "" && orig == b[..]
    {
      buf, buflen, bufpos := b, n, 0;
      sent, orig := "", b[..];
    }

    /** The buffer has as much of what was sent as fits, and beyond that what it had to begin with. */
    ghost predicate Valid()
      reads this, buf
    {
      && buflen <= buf.Length == |orig|
      && bufpos == (if |sent| < buflen then |sent| else buflen)
      && (forall k :: 0 <= k < bufpos ==> buf[k] == sent[k])
      && (forall k :: bufpos <= k < buf.Length ==> buf[k] == orig[k])
    }

    method Send(data: string)
      requires Valid()
      modifies this, buf
      ensures Valid() && sent == old(sent) + data
    {
      var i := 0;
      while i < |data|
        invariant i <= |data| && Valid() && sent == old(sent) + data[..i]
      {
        if bufpos < buflen {
          buf[bufpos] := data[i];
          bufpos := bufpos + 1;
        }
        sent := sent + [data[i]];
        assert data[..i + 1] == data[..i] + [data[i]];
        i := i + 1;
      }
      assert data[..i] == data;
    }
  }

  lemma EmptyFill(c: char)
    ensures Fill(c, 0) == ""
  {
  }

  lemma Arranged(f: Field, prefix: string, prefix2: string, stuff: string, pad: string, left: string, mid: string,
      right: string)
    requires pad == Fill(f.fillchar, Padding(f, |prefix| + |prefix2| + |stuff|))
    requires left == (if !f.rightspc && f.fillchar != '0' then pad else "")
    requires mid == (if !f.rightspc && f.fillchar == '0' then pad else "")
    requires right == if f.rightspc then pad else ""
    ensures Stuff(f, prefix, prefix2, stuff) == left + prefix + prefix2 + mid + stuff + right
  {
    hide Fill;
    var none: string := "";
    assert none + prefix == prefix;
    assert prefix + prefix2 + none == prefix + prefix2;
    if !f.rightspc {
      assert left + prefix + prefix2 + mid + stuff + none == left + prefix + prefix2 + mid + stuff;
      if f.fillchar != '0' {
        assert pad + prefix + prefix2 + none == pad + prefix + prefix2;
      }
    }
  }

  lemma Grouped(o: string, a: string, b: string, c: string, d: string, e: string, f: string)
    ensures o + a + b + c + d + e + f == o + (a + b + c + d + e + f)
  {
  }

  lemma Grouped3(a: string, b: string, c: string)
    ensures a + b + c == a + (b + c)
  {
  }

  /** One turn of the digit loop peels the last digit off. */
  lemma DigitStep(n: nat, b: nat, tail: string)
    requires 2 <= b <= 16
    ensures n > 0 ==> DropDigit(n, b) < n
    ensures |DigitString(n, b)| > 0
    ensures DigitString(n, b) + tail ==
            if DropDigit(n, b) > 0 then DigitString(DropDigit(n, b), b) + ([LastDigit(n, b)] + tail)
            else [LastDigit(n, b)] + tail
  {
    hide DigitString, LastDigit, DropDigit;
    if n < b {
      OneDigit(n, b);
    } else {
      ManyDigits(n, b);
      Grouped3(DigitString(DropDigit(n, b), b), [LastDigit(n, b)], tail);
    }
  }

  lemma OutputStep(sc: Scan, fmt: string, i: nat, args: nat -> Arg, sent: string)
    requires i < |fmt|
    ensures sent + Output(sc, fmt[i..], args) ==
            sent + Emit(sc, fmt[i], args) + Output(Next(sc, fmt[i]), fmt[i + 1..], args)
  {
    hide Emit, Next;
    assert fmt[i..][0] == fmt[i] && fmt[i..][1..] == fmt[i + 1..];
  }

  lemma OutputEnd(sc: Scan, fmt: string, args: nat -> Arg, sent: string)
    ensures sent + Output(sc, fmt[|fmt|..], args) == sent
  {
  }

  /** The PF structure. */
  class Pf {
    const sink: Snp
    const args: nat -> Arg
    var used: nat
    var charcount: nat
    var inPct: bool
    var size: Size
    var num: ULong
    var sign: bool
    var spacing: nat
    var rightspc: bool
    var fillchar: char
    var base: nat
    var baseprefix: bool
    var altformat: bool

    constructor (s: Snp, a: nat -> Arg)
      requires s.Valid() && s.sent == ""
      ensures sink == s && args == a && Ready() && Where() == START && s.sent == "" && s.Valid()
    {
      sink, args, used, charcount := s, a, 0, 0;
      inPct, size, num, sign := false, INTSZ, 0, false;
      spacing, rightspc, fillchar := 0, false, ' ';
      base, baseprefix, altformat := 0, false, false;
    }

    ghost function InField(): Field
      reads this
    { Field(size, spacing, rightspc, fillchar, altformat) }

    ghost function Where(): Scan
      reads this
    { Scan(inPct, InField(), used) }

    ghost predicate Valid()
      reads this, sink, sink.buf
    { sink.Valid() && charcount == |sink.sent| }

    /** Between characters of the format the two conversion flags are down. */
    ghost predicate Ready()
      reads this, sink, sink.buf
    { Valid() && !sign && !baseprefix }

    method Print(txt: string)
      requires Valid()
      modifies this`charcount, sink, sink.buf
      ensures Valid() && sink.sent == old(sink.sent) + txt
    {
      sink.Send(txt);
      charcount := charcount + |txt|;
    }

    method EndField()
      requires Valid()
      modifies this
      ensures Ready() && Where() == Scan(false, PLAIN, old(used)) && sink.sent == old(sink.sent)
    {
      inPct, size, num, sign := false, INTSZ, 0, false;
      spacing, rightspc, fillchar := 0, false, ' ';
      base, baseprefix, altformat := 0, false, false;
    }

    method ApplyModifier(ch: char)
      requires ch in MODIFIERS
      modifies this
      ensures InField() == Modifier(old(InField()), ch)
      ensures inPct == old(inPct) && used == old(used) && sign == old(sign) && baseprefix == old(baseprefix)
      ensures charcount == old(charcount)
    {
      match ch
      case '#' => altformat := true;
      case '-' => rightspc := true;
      case 'l' => size := if size.LONGSZ? then LLONGSZ else LONGSZ;
      case 'z' => size := SIZETSZ;
      case '0' => if spacing > 0 { spacing := spacing * 10; } else { fillchar := '0'; }
      case _ => spacing := spacing * 10 + DigitValue(ch);
    }

    method FillOut(spc: nat)
      requires Valid()
      modifies this`charcount, sink, sink.buf
      ensures Valid() && sink.sent == old(sink.sent) + Fill(fillchar, spc)
    {
      var f := fillchar;
      var i := 0;
      while i < spc
        invariant i <= spc && Valid() && sink.sent == old(sink.sent) + Fill(f, i)
      {
        Print([f]);
        assert Fill(f, i + 1) == Fill(f, i) + [f];
        i := i + 1;
      }
    }

    /** Pads and prints, in the order the field asks for. */
    method PrintStuff(prefix: string, prefix2: string, stuff: string)
      requires Valid()
      modifies this`charcount, sink, sink.buf
      ensures Valid() && sink.sent == old(sink.sent) + Stuff(InField(), prefix, prefix2, stuff)
    {
      hide Fill;
      var len := |prefix| + |prefix2| + |stuff|;
      var spc := spacing;
      if spc > len {
        spc := spc - len;
      } else {
        spc := 0;
      }
      ghost var o, pad := sink.sent, Fill(fillchar, spc);
      assert spc == 0 ==> pad == "" by { EmptyFill(fillchar); }
      ghost var left := if spc > 0 && !rightspc && fillchar != '0' then pad else "";
      ghost var mid := if spc > 0 && !rightspc && fillchar == '0' then pad else "";
      ghost var right := if spc > 0 && rightspc then pad else "";
      assert Stuff(InField(), prefix, prefix2, stuff) == left + prefix + prefix2 + mid + stuff + right by {
        Arranged(InField(), prefix, prefix2, stuff, pad, left, mid, right);
      }
      if spc > 0 && !rightspc && fillchar != '0' {
        FillOut(spc);
      }
      assert sink.sent == o + left;
      Print(prefix);
      Print(prefix2);
      if spc > 0 && !rightspc && fillchar == '0' {
        FillOut(spc);
      }
      assert sink.sent == o + left + prefix + prefix2 + mid;
      Print(stuff);
      if spc > 0 && rightspc {
        FillOut(spc);
      }
      hide Stuff;
      Grouped(o, left, prefix, prefix2, mid, stuff, right);
    }

    /** The digit loop, right to left; for a 64-bit number in base 8 or more it never leaves the buffer. */
    method Digits(buf: array<char>) returns (x: nat)
      requires 8 <= base <= 16 && buf.Length == NUMBER_BUF_SIZE
      modifies buf
      ensures x < NUMBER_BUF_SIZE - 1 && buf[NUMBER_BUF_SIZE - 1] == '\0'
      ensures buf[x..NUMBER_BUF_SIZE - 1] == DigitString(num, base)
    {
      hide DigitString, Pow, LastDigit, DropDigit;
      SixtyFourBits();
      DigitCount(num, base, 22);
      ghost var all := DigitString(num, base);
      var p := NUMBER_BUF_SIZE - 1;
      buf[p] := '\0';
      p := p - 1;
      var xnum: nat := num;
      DigitStep(xnum, base, "");
      buf[p] := LastDigit(xnum, base);
      assert buf[p..22] == [LastDigit(num, base)] + "";
      p := p - 1;
      xnum := DropDigit(xnum, base);
      assert all + "" == all;
      while xnum > 0
        invariant -1 <= p < 21 && buf[22] == '\0' && |all| <= 22
        invariant if xnum > 0 then all == DigitString(xnum, base) + buf[p + 1..22] else all == buf[p + 1..22]
        decreases xnum
      {
        ghost var tail := buf[p + 1..22];
        DigitStep(xnum, base, tail);
        assert |all| == |DigitString(xnum, base)| + |tail| && |tail| == 21 - p;
        buf[p] := LastDigit(xnum, base);
        assert buf[p..22] == [LastDigit(xnum, base)] + tail;
        p := p - 1;
        xnum := DropDigit(xnum, base);
      }
      x := p + 1;
    }

    method PrintNum()
      requires Valid() && 8 <= base <= 16
      modifies this`charcount, sink, sink.buf
      ensures Valid()
      ensures
        var minus := if sign then "-" else "";
        sink.sent == old(sink.sent) + Stuff(InField(), minus, BasePrefix(base, baseprefix), DigitString(num, base))
    {
      var buf := new char[NUMBER_BUF_SIZE];
      var x := Digits(buf);
      var bprefix := BasePrefix(base, baseprefix);
      var sprefix := if sign then "-" else "";
      PrintStuff(sprefix, bprefix, buf[x..NUMBER_BUF_SIZE - 1]);
    }

    /** Fetch the next argument and set up the conversion. */
    method SetUp(ch: char)
      requires Ready() && ch in INTEGERS
      modifies this`num, this`sign, this`used, this`base, this`baseprefix
      ensures Valid() && used == old(used) + 1 && base == Base(ch) && 8 <= base <= 16
      ensures (num, sign) == GetNum(size, ch, args(old(used)).i) && baseprefix == (altformat || ch == 'p')
    {
      hide GetNum;
      var (n, neg) := GetNum(size, ch, args(used).i);
      num := n;
      sign := neg;
      used := used + 1;
      base := Base(ch);
      if altformat || ch == 'p' {
        baseprefix := true;
      }
    }

    /** Fetch the next argument, print it in its base, and reset. */
    method IntegerDirective(ch: char)
      requires Ready() && ch in INTEGERS
      modifies this, sink, sink.buf
      ensures Ready() && Where() == Scan(false, PLAIN, old(used) + 1)
      ensures sink.sent == old(sink.sent) + NumText(old(InField()), ch, args(old(used)).i)
    {
      hide GetNum, Stuff, BasePrefix, DigitString, Base;
      SetUp(ch);
      PrintNum();
      EndField();
    }

    /** One character of the format. */
    method SendChar(ch: char)
      requires Ready() && ch != '\0'
      modifies this, sink, sink.buf
      ensures Ready() && Where() == Next(old(Where()), ch)
      ensures sink.sent == old(sink.sent) + Emit(old(Where()), ch, args)
    {
      if !inPct && ch != '%' {
        Print([ch]);
      } else if !inPct {
        inPct := true;
        assert sink.sent == old(sink.sent) + "";
      } else if ch in MODIFIERS {
        ApplyModifier(ch);
        assert sink.sent == old(sink.sent) + "";
      } else if ch in INTEGERS {
        IntegerDirective(ch);
      } else if ch == 's' {
        var a := args(used);
        used := used + 1;
        PrintStuff("", "", if a.s.None? then "(null)" else a.s.value);
        EndField();
      } else {
        var c := ch;
        if ch == 'c' {
          c := CharArg(args(used).i);
          used := used + 1;
        }
        PrintStuff("", "", CharText(c));
        EndField();
      }
    }

    /** The whole format: the text sent is what the format calls for, and its length is returned. */
    method Vprintf(fmt: string) returns (count: nat)
      requires Ready() && Where() == START && sink.sent == "" && '\0' !in fmt
      modifies this, sink, sink.buf
      ensures Valid() && sink.sent == Output(START, fmt, args) && count == |sink.sent|
    {
      hide Output, Emit, Next;
      ghost var whole := Output(START, fmt, args);
      var i := 0;
      assert fmt[0..] == fmt && "" + whole == whole;
      while i < |fmt|
        invariant i <= |fmt| && Ready() && sink.sent + Output(Where(), fmt[i..], args) == whole
      {
        OutputStep(Where(), fmt, i, args, sink.sent);
        SendChar(fmt[i]);
        i := i + 1;
      }
      OutputEnd(Where(), fmt, args, sink.sent);
      count := charcount;
    }
  }

  lemma Stored(b: seq<char>, orig: seq<char>, text: string, k: nat)
    requires |b| == |orig| && k < |b| && k <= |text| && b[k] == '\0'
    requires forall i :: 0 <= i < k ==> b[i] == text[i]
    requires forall i :: k < i < |b| ==> b[i] == orig[i]
    ensures b == text[..k] + ['\0'] + orig[k + 1..]
  {
    var s := text[..k] + ['\0'] + orig[k + 1..];
    forall i | 0 <= i < |b| ensures b[i] == s[i] {
      assert i > k ==> s[i] == orig[i];
    }
  }

  /** vsnprintf: the longest prefix that fits, a terminator, nothing past it, and the full length. */
  method Vsnprintf(buf: array<char>, len: nat, fmt: string, args: nat -> Arg) returns (chars: nat)
    requires len <= buf.Length && '\0' !in fmt
    modifies buf
    ensures chars == |Output(START, fmt, args)|
    ensures len == 0 ==> buf[..] == old(buf[..])
    ensures len > 0 ==>
      var text := Output(START, fmt, args);
      var k := if |text| < len then |text| else len - 1;
      buf[..] == text[..k] + ['\0'] + old(buf[..])[k + 1..]
  {
    hide Output;
    var snp := new Snp(buf, if len == 0 then 0 else len - 1);
    var pf := new Pf(snp, args);
    chars := pf.Vprintf(fmt);
    if len > 0 {
      buf[snp.bufpos] := '\0';
      Stored(buf[..], old(buf[..]), Output(START, fmt, args), snp.bufpos);
    } else {
      assert buf[..] == old(buf[..]);
    }
  }
}
