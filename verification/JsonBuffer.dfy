/** The growable print buffer of cJSON.c: `ensure` sizes it with `pow2gt`, keeping what is there. */
module JsonBuffer {
  import opened Powers

  // ---------------------------------------------------------------- pow2gt

  /** Bitwise or of two non-negative integers. */
  function Or(a: nat, b: nat): nat {
    if a == 0 then b
    else 2 * Or(a / 2, b / 2) + (if a % 2 == 1 || b % 2 == 1 then 1 else 0)
  }

  /** pow2gt: the bits below the top one are filled in by five shifts, then one is added. */
  function Pow2Gt(x: int): int
    requires x > 0
  {
    var x0 := x - 1;
    var x1 := Or(x0, x0 / 2);
    var x2 := Or(x1, x1 / 4);
    var x3 := Or(x2, x2 / 16);
    var x4 := Or(x3, x3 / 256);
    Or(x4, x4 / 65536) + 1
  }

  lemma {:induction false} OrBounds(a: nat, b: nat, l: nat)
    requires a < Pow2(l) && b < Pow2(l)
    ensures a <= Or(a, b) < Pow2(l) && b <= Or(a, b)
  {
    if a != 0 && l > 0 {
      OrBounds(a / 2, b / 2, l - 1);
    }
  }

  /** The bits above the lowest `m` are not touched by a value that fits below them. */
  lemma {:induction false} OrHigh(hi: nat, r: nat, b: nat, m: nat)
    requires r < Pow2(m) && b < Pow2(m)
    ensures Or(hi * Pow2(m) + r, b) == hi * Pow2(m) + Or(r, b)
  {
    var p := Pow2(m);
    if m == 0 {
      assert hi * p == hi;
      OrZero(hi);
    } else {
      var q := Pow2(m - 1);
      assert p == 2 * q && hi * p == 2 * (hi * q);
      OrHigh(hi, r / 2, b / 2, m - 1);
      assert (hi * p + r) / 2 == hi * q + r / 2 && (hi * p + r) % 2 == r % 2;
      if hi * p + r == 0 {
        assert hi * p == 0 && r == 0;
      } else if r == 0 {
        assert Or(0, b / 2) == b / 2;
      }
    }
  }

  lemma {:induction false} OrZero(a: nat)
    ensures Or(a, 0) == a
  {
    if a > 0 {
      OrZero(a / 2);
    }
  }

  /** `x` has `l` bits and its top `k` of them are ones. */
  predicate TopOnes(x: nat, l: nat, k: nat) {
    Pow2(l) - Pow2(if k < l then l - k else 0) <= x < Pow2(l)
  }

  lemma MulSub(p: int, a: int, b: int)
    ensures p * (a - b) == p * a - p * b
  {
  }

  lemma MulLe(p: nat, a: int, b: int)
    requires a <= b
    ensures p * a <= p * b
  {
  }

  lemma PredTimes(p: int, m: int)
    ensures (p - 1) * m == p * m - m
  {
  }

  lemma DivBetween(x: nat, p: nat, lo: int, hi: nat)
    requires p > 0 && p * lo <= x < p * hi
    ensures lo <= x / p < hi
  {
    var q := x / p;
    assert x == p * q + x % p;
    if q < lo {
      MulLe(p, q + 1, lo);
      assert false;
    }
    if q >= hi {
      MulLe(p, hi, q);
      assert false;
    }
  }

  /** The shifted copy fits below the run of ones and starts with as many ones as fit. */
  lemma ShiftBound(x: nat, l: nat, k: nat)
    requires 0 < k < l && TopOnes(x, l, k)
    ensures Pow2(l - k) - Pow2(if 2 * k < l then l - 2 * k else 0) <= x / Pow2(k) < Pow2(l - k)
  {
    var p, m, t := Pow2(k), Pow2(l - k), Pow2(if 2 * k < l then l - 2 * k else 0);
    assert Pow2(0) == 1;
    hide Pow2;
    Pow2Add(k, l - k);
    if 2 * k < l {
      Pow2Add(k, l - 2 * k);
    } else {
      Pow2Add(l - k, 2 * k - l);
      MulLe(m, 1, Pow2(2 * k - l));
    }
    MulSub(p, m, t);
    DivBetween(x, p, m - t, m);
  }

  lemma HighPart(l: nat, e: nat)
    requires e <= l
    ensures Pow2(l) - Pow2(e) == (Pow2(l - e) - 1) * Pow2(e)
  {
    hide Pow2;
    Pow2Add(l - e, e);
    PredTimes(Pow2(l - e), Pow2(e));
  }

  lemma OrAbove(hi: nat, r: nat, s: nat, e: nat, h: nat)
    requires h == hi * Pow2(e) && r < Pow2(e) && s < Pow2(e)
    ensures Or(h + r, s) == h + Or(r, s)
  {
    OrHigh(hi, r, s, e);
  }

  lemma OrTop(x: nat, s: nat, l: nat, e: nat)
    requires e <= l && Pow2(l) - Pow2(e) <= x < Pow2(l) && s < Pow2(e)
    ensures Or(x, s) >= Pow2(l) - Pow2(e) + s
  {
    hide Pow2, Or;
    var h := Pow2(l) - Pow2(e);
    var r := x - h;
    HighPart(l, e);
    assert x == h + r && r < Pow2(e);
    OrAbove(Pow2(l - e) - 1, r, s, e, h);
    OrBounds(r, s, e);
  }

  /** Or-ing in a copy shifted by `k` doubles the run of ones at the top. */
  lemma Doubles(x: nat, l: nat, k: nat)
    requires k > 0 && TopOnes(x, l, k)
    ensures TopOnes(Or(x, x / Pow2(k)), l, 2 * k)
  {
    var p, s := Pow2(k), x / Pow2(k);
    MulLe(x + 1, 1, p);
    DivBetween(x, p, 0, x + 1);
    OrBounds(x, s, l);
    assert Pow2(0) == 1;
    hide Pow2, Or;
    if k < l {
      ShiftBound(x, l, k);
      OrTop(x, s, l, l - k);
    }
  }

  lemma {:induction false} BitLength(x: nat, n: nat) returns (l: nat)
    requires x < Pow2(n)
    ensures l <= n && TopOnes(x, l, 1)
    ensures x < 2 * x + 1 && (x > 0 ==> Pow2(l) <= 2 * x)
  {
    if x == 0 {
      l := 0;
    } else if x >= Pow2(n - 1) {
      l := n;
    } else {
      l := BitLength(x, n - 1);
    }
  }

  /** pow2gt gives the least power of two that is not below its argument, for every argument whose
      answer is a C int. */
  lemma Pow2GtIsPower(x: int)
    requires 0 < x <= 0x4000_0000
    ensures exists l: nat :: l <= 30 && Pow2Gt(x) == Pow2(l)
    ensures x <= Pow2Gt(x) && (x > 1 ==> Pow2Gt(x) < 2 * x)
  {
    assert Pow2(1) == 2 && Pow2(2) == 4 && Pow2(4) == 16;
    Pow2Add(4, 4);
    Pow2Add(8, 8);
    Pow2Add(16, 14);
    assert Pow2(14) == Pow2(4) * Pow2(10) / 1 by { Pow2Add(4, 10); }
    Pow2Add(8, 2);
    var l := BitLength(x - 1, 30);
    var x0 := x - 1;
    var x1 := Or(x0, x0 / 2);
    var x2 := Or(x1, x1 / 4);
    var x3 := Or(x2, x2 / 16);
    var x4 := Or(x3, x3 / 256);
    Doubles(x0, l, 1);
    Doubles(x1, l, 2);
    Doubles(x2, l, 4);
    Doubles(x3, l, 8);
    Doubles(x4, l, 16);
    assert Pow2Gt(x) == Pow2(l);
  }

  // ---------------------------------------------------------------- ensure and update

  /** `s` stands at `at` in the array, terminated. */
  ghost predicate TextAt(a: array<char>, at: nat, s: string)
    reads a
  {
    at + |s| < a.Length && a[at..at + |s|] == s && a[at + |s|] == '\0' && '\0' !in s
  }

  /** strlen. */
  method StrLen(a: array<char>, at: nat, ghost s: string) returns (n: nat)
    requires TextAt(a, at, s)
    ensures n == |s|
  {
    n := 0;
    assert forall i :: 0 <= i < |s| ==> s[i] == a[at + i];
    while a[at + n] != '\0'
      invariant n <= |s|
      decreases |s| - n
    {
      n := n + 1;
    }
  }

  /** memcpy of `n` characters from the start of `src`. */
  method MemCpy(dst: array<char>, at: nat, src: array<char>, n: nat)
    requires at + n <= dst.Length && n <= src.Length && dst != src
    modifies dst
    ensures dst[at..at + n] == src[..n]
    ensures forall i :: 0 <= i < at || at + n <= i < dst.Length ==> dst[i] == old(dst[i])
  {
    for i := 0 to n
      invariant forall k :: 0 <= k < i ==> dst[at + k] == src[k]
      invariant forall k :: 0 <= k < at || at + i <= k < dst.Length ==> dst[k] == old(dst[k])
    {
      dst[at + i] := src[i];
    }
  }

  /** strcpy, from a string value. */
  method StrCpy(dst: array<char>, at: nat, s: string)
    requires at + |s| < dst.Length && '\0' !in s
    modifies dst
    ensures TextAt(dst, at, s)
    ensures forall i :: 0 <= i < at || at + |s| < i < dst.Length ==> dst[i] == old(dst[i])
  {
    for i := 0 to |s|
      invariant forall k :: 0 <= k < i ==> dst[at + k] == s[k]
      invariant forall k :: 0 <= k < at || at + i <= k < dst.Length ==> dst[k] == old(dst[k])
    {
      dst[at + i] := s[i];
    }
    dst[at + |s|] := '\0';
    assert dst[at..at + |s|] == s;
  }

  /** The printbuffer struct; `length` is the array's own. */
  class PrintBuffer {
    var buffer: array<char>
    var offset: nat

    constructor (prebuffer: nat)
      ensures offset == 0 && fresh(buffer) && buffer.Length == prebuffer
    {
      buffer := new char[prebuffer];
      offset := 0;
    }

    ghost predicate Valid()
      reads this
    {
      offset <= buffer.Length
    }

    /** Room for `needed` characters from the offset on, returned as the position to write at;
        nothing already in the buffer is lost when it grows. */
    method Ensure(needed: nat) returns (ptr: nat)
      requires Valid() && offset + needed <= 0x4000_0000
      modifies this`buffer
      ensures Valid() && ptr == offset && offset + needed <= buffer.Length
      ensures buffer == old(buffer) || fresh(buffer)
      ensures buffer.Length >= old(buffer.Length)
      ensures buffer[..old(buffer.Length)] == old(buffer[..])
      ensures buffer == old(buffer) <==> offset + needed <= old(buffer.Length)
      ensures buffer != old(buffer) ==> exists l: nat :: buffer.Length == Pow2(l)
      ensures buffer != old(buffer) && offset + needed > 1 ==> buffer.Length < 2 * (offset + needed)
    {
      var total := needed + offset;
      if total <= buffer.Length {
        return offset;
      }
      var newsize := Pow2Gt(total);
      Pow2GtIsPower(total);
      var newbuffer := new char[newsize];
      MemCpy(newbuffer, 0, buffer, buffer.Length);
      assert newbuffer[..buffer.Length] == newbuffer[0..0 + buffer.Length] == buffer[..];
      buffer := newbuffer;
      return offset;
    }

    /** The offset after the text that starts at the offset. */
    method Update(ghost s: string) returns (end: nat)
      requires TextAt(buffer, offset, s)
      ensures end == offset + |s|
    {
      var n := StrLen(buffer, offset, s);
      end := offset + n;
    }
  }
}
