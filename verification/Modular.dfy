/** Slot arithmetic: remainders, and masking by a power of two. */
module Modular {
  lemma AtLeast(d: int, n: int)
    requires d >= 1 && n > 0
    ensures d * n >= n
  {
  }

  lemma SameDivMod(n: int, q: int, r: int, p: int, s: int)
    requires n > 0 && 0 <= r < n && 0 <= s < n
    requires q * n + r == p * n + s
    ensures q == p && r == s
  {
    assert (q - p) * n == q * n - p * n == s - r;
    assert (p - q) * n == p * n - q * n == r - s;
    if q > p {
      AtLeast(q - p, n);
      assert false;
    }
    if q < p {
      AtLeast(p - q, n);
      assert false;
    }
  }

  lemma DivModUnique(x: int, n: int, q: int, r: int)
    requires n > 0 && x == q * n + r && 0 <= r < n
    ensures x / n == q && x % n == r
  {
    SameDivMod(n, q, r, x / n, x % n);
  }

  lemma ModAdd(x: int, n: int)
    requires n > 0
    ensures (x + n) % n == x % n
  {
    assert x + n == (x / n + 1) * n + x % n;
    DivModUnique(x + n, n, x / n + 1, x % n);
  }

  /** Positions less than n apart have different remainders. */
  lemma ModApart(x: int, y: int, n: int)
    requires n > 0 && x < y < x + n
    ensures x % n != y % n
  {
    var p, r := x / n, x % n + (y - x);
    if r < n {
      DivModUnique(y, n, p, r);
    } else {
      assert (p + 1) * n == p * n + n;
      DivModUnique(y, n, p + 1, r - n);
    }
  }

  /** A single bit set: std::has_single_bit. */
  predicate HasSingleBit(n: nat) {
    n == 1 || (n > 1 && n % 2 == 0 && HasSingleBit(n / 2))
  }

  function TwoTo(k: nat): (p: nat)
    ensures p > 0
  {
    if k == 0 then 1 else 2 * TwoTo(k - 1)
  }

  /** A number with a single bit set is a power of two, and the other way round. */
  lemma {:induction false} SingleBitIsPower(n: nat)
    ensures HasSingleBit(n) <==> exists k: nat :: n == TwoTo(k)
    decreases n
  {
    if n > 1 && n % 2 == 0 {
      SingleBitIsPower(n / 2);
      if HasSingleBit(n) {
        var k: nat :| n / 2 == TwoTo(k);
        assert n == TwoTo(k + 1);
      }
      if k: nat :| n == TwoTo(k) {
        assert k > 0;
        var j: nat := k - 1;
        assert n / 2 == TwoTo(j);
      }
    } else if n == 1 {
      assert n == TwoTo(0);
    } else if k: nat :| n == TwoTo(k) {
      assert false;
    }
  }

  /** Bitwise and. */
  function And(a: nat, b: nat): nat
    decreases a
  {
    if a == 0 then 0 else (if a % 2 == 1 && b % 2 == 1 then 1 else 0) + 2 * And(a / 2, b / 2)
  }

  /** Bit k of a number. */
  predicate Bit(a: nat, k: nat)
    decreases k
  {
    if k == 0 then a % 2 == 1 else Bit(a / 2, k - 1)
  }

  lemma {:induction false} AndBits(a: nat, b: nat, k: nat)
    ensures Bit(And(a, b), k) <==> Bit(a, k) && Bit(b, k)
    decreases k
  {
    var h := And(a / 2, b / 2);
    if a == 0 {
      ZeroBit(k);
    } else if k > 0 {
      assert And(a, b) / 2 == h;
      AndBits(a / 2, b / 2, k - 1);
    }
  }

  lemma {:induction false} ZeroBit(k: nat)
    ensures !Bit(0, k)
  {
    if k == 0 {
    } else {
      ZeroBit(k - 1);
    }
  }

  lemma HalfRemainder(x: nat, m: nat)
    requires m > 0
    ensures x % (2 * m) == 2 * (x / 2 % m) + x % 2
  {
    var h := x / 2;
    var q, r := h / m, h % m;
    assert h == q * m + r;
    assert x == q * (2 * m) + (2 * r + x % 2) by {
      assert q * (2 * m) == 2 * (q * m);
    }
    DivModUnique(x, 2 * m, q, 2 * r + x % 2);
  }

  lemma MaskStep(x: nat, n: nat)
    requires n > 0
    ensures And(x, 2 * n - 1) == x % 2 + 2 * And(x / 2, n - 1)
  {
    if x > 0 {
      assert (2 * n - 1) / 2 == n - 1 && (2 * n - 1) % 2 == 1;
    }
  }

  /** Masking with capacity - 1 is taking the remainder, because capacity is a power of two. */
  lemma {:induction false} MaskIsRemainder(x: nat, n: nat)
    requires HasSingleBit(n)
    ensures And(x, n - 1) == x % n
    decreases x, n
  {
    if n == 1 {
      AndZero(x);
    } else {
      var m := n / 2;
      assert n == 2 * m;
      MaskIsRemainder(x / 2, m);
      MaskStep(x, m);
      HalfRemainder(x, m);
    }
  }

  lemma {:induction false} AndZero(x: nat)
    ensures And(x, 0) == 0
  {
    if x == 0 {
    } else {
      AndZero(x / 2);
    }
  }
}
