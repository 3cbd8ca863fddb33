/** Big-endian numbers in base B = 2^16, the representation the divider works on. */
module Digits {
  import opened Words

  /** The number written by the digits of `s`, most significant first. */
  ghost function Val(s: seq<Digit>): nat
  {
    if |s| == 0 then 0 else Val(s[..|s| - 1]) * B + s[|s| - 1]
  }

  lemma {:induction false} ValConcat(a: seq<Digit>, b: seq<Digit>)
    ensures Val(a + b) == Val(a) * BPow(|b|) + Val(b)
  {
    if b == [] {
      assert a + b == a;
    } else {
      var b' := b[..|b| - 1];
      assert (a + b)[..|a + b| - 1] == a + b';
      ValConcat(a, b');
      var x, p := Val(a), BPow(|b'|);
      assert (x * p + Val(b')) * B == x * (B * p) + Val(b') * B;
    }
  }

  lemma ValSnoc(a: seq<Digit>, d: Digit)
    ensures Val(a + [d]) == Val(a) * B + d
  {
    assert (a + [d])[..|a|] == a;
  }

  lemma ValCons(d: Digit, b: seq<Digit>)
    ensures Val([d] + b) == d * BPow(|b|) + Val(b)
  {
    ValConcat([d], b);
    assert [d][..0] == [];
    assert Val([d]) == d;
  }

  lemma {:induction false} ValBound(s: seq<Digit>)
    ensures Val(s) < BPow(|s|)
  {
    if s != [] {
      ValBound(s[..|s| - 1]);
    }
  }

  /** Splitting a segment of a digit array in two. */
  lemma ValSplit(s: seq<Digit>, lo: nat, mid: nat, hi: nat)
    requires lo <= mid <= hi <= |s|
    ensures Val(s[lo..hi]) == Val(s[lo..mid]) * BPow(hi - mid) + Val(s[mid..hi])
  {
    assert s[lo..hi] == s[lo..mid] + s[mid..hi];
    ValConcat(s[lo..mid], s[mid..hi]);
  }

  lemma {:induction false} ValZeros(s: seq<Digit>)
    requires forall i :: 0 <= i < |s| ==> s[i] == 0
    ensures Val(s) == 0
  {
    if s != [] {
      ValZeros(s[..|s| - 1]);
    }
  }

  lemma BPowSplit(a: nat, b: nat)
    ensures BPow(a + b) == BPow(a) * BPow(b)
  {
    if a != 0 {
      BPowSplit(a - 1, b);
      assert BPow(a) * BPow(b) == B * (BPow(a - 1) * BPow(b));
    }
  }

  lemma BPowSmall()
    ensures BPow(0) == 1 && BPow(1) == B && BPow(2) == W32 && BPow(3) == W32 * B && BPow(4) == W64
  {
  }

  lemma TwoDigits(s: seq<Digit>)
    requires |s| == 2
    ensures Val(s) == s[0] * B + s[1]
  {
    assert s == [s[0]] + s[1..];
    ValCons(s[0], s[1..]);
    assert s[1..] == [s[1]] + [];
    ValCons(s[1], []);
    BPowSmall();
  }

  /** Taking a double word apart into its four digits keeps its value. */
  lemma FourDigits(s: seq<Digit>)
    requires |s| == 4
    ensures Val(s) == (s[0] * B + s[1]) * W32 + (s[2] * B + s[3])
    ensures Val(s[..2]) == s[0] * B + s[1]
    ensures Val(s[2..]) == s[2] * B + s[3]
  {
    ValSplit(s, 0, 2, 4);
    assert s[0..2] == s[..2] && s[2..4] == s[2..] && s[0..4] == s;
    TwoDigits(s[..2]);
    TwoDigits(s[2..]);
    BPowSmall();
  }
}
