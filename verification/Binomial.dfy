// Binomial coefficients by Pascal's rule.
module Binomial {
  // With their factorial form and the Vandermonde convolution.

  function Choose(n: nat, k: nat): nat {
    if k == 0 then 1 else if n == 0 then 0 else Choose(n - 1, k - 1) + Choose(n - 1, k)
  }

  function Factorial(n: nat): nat {
    if n == 0 then 1 else n * Factorial(n - 1)
  }

  lemma {:induction false} ChooseBeyond(n: nat, k: nat)
    requires n < k
    ensures Choose(n, k) == 0
  {
    if n > 0 {
      ChooseBeyond(n - 1, k - 1);
      ChooseBeyond(n - 1, k);
    }
  }

  lemma {:induction false} ChoosePositive(n: nat, k: nat)
    requires k <= n
    ensures Choose(n, k) > 0
  {
    if k > 0 { ChoosePositive(n - 1, k - 1); }
  }

  lemma {:induction false} ChooseAll(n: nat)
    ensures Choose(n, n) == 1
  {
    if n > 0 {
      ChooseAll(n - 1);
      ChooseBeyond(n - 1, n);
    }
  }

  lemma {:induction false} PascalStep(n: int, k: int, a: int, b: int, f: int, g: int)
    requires a * (f * ((n - k) * g)) == b * (k * f * g)
    ensures (a + b) * (k * f * ((n - k) * g)) == n * (a * (f * ((n - k) * g)))
  {
    var x := a * (f * ((n - k) * g));
    calc {
      (a + b) * (k * f * ((n - k) * g));
      k * (a * (f * ((n - k) * g))) + (n - k) * (b * (k * f * g));
      k * x + (n - k) * x;
      n * x;
    }
  }

  // n! / (k! (n - k)!), without division: what the log-gamma terms add up to.
  lemma {:induction false} ChooseFactorial(n: nat, k: nat)
    requires k <= n
    ensures Choose(n, k) * (Factorial(k) * Factorial(n - k)) == Factorial(n)
  {
    if k == 0 {
    } else if k == n {
      ChooseAll(n);
    } else {
      ChooseFactorial(n - 1, k - 1);
      ChooseFactorial(n - 1, k);
      var a, b := Choose(n - 1, k - 1), Choose(n - 1, k);
      var f, g := Factorial(k - 1), Factorial(n - k - 1);
      assert Factorial(k) == k * f && Factorial(n - k) == (n - k) * g;
      PascalStep(n, k, a, b, f, g);
    }
  }

  // The partial convolution: choose a of the first block for a < h, the rest elsewhere.
  function Convolution(c: nat, m: nat, r: nat, h: nat): nat
    requires h <= r + 1
  {
    if h == 0 then 0 else Convolution(c, m, r, h - 1) + Choose(c, h - 1) * Choose(m, r - (h - 1))
  }

  // The convolution in which one member of the first block is already chosen.
  function Shifted(c: nat, m: nat, r: nat, h: nat): nat
    requires 1 <= h <= r + 1
  {
    if r == 0 then 0 else Convolution(c, m, r - 1, h - 1)
  }

  lemma {:induction false} ShiftedStep(c: nat, m: nat, r: nat, h: nat)
    requires 2 <= h <= r + 1
    ensures Shifted(c, m, r, h) == Shifted(c, m, r, h - 1) + Choose(c, h - 2) * Choose(m, r - (h - 1))
  {
    assert r - 1 - (h - 2) == r - (h - 1);
  }

  lemma {:induction false} PascalTimes(c: nat, k: nat, rest: nat)
    requires k > 0
    ensures Choose(c + 1, k) * rest == Choose(c, k - 1) * rest + Choose(c, k) * rest
  {
    var x, y := Choose(c, k - 1), Choose(c, k);
    assert Choose(c + 1, k) == x + y;
    assert (x + y) * rest == x * rest + y * rest;
  }

  lemma {:induction false} ConvolutionPascal(c: nat, m: nat, r: nat, h: nat)
    requires 1 <= h <= r + 1
    ensures Convolution(c + 1, m, r, h) == Convolution(c, m, r, h) + Shifted(c, m, r, h)
  {
    if h == 1 {
      assert Convolution(c + 1, m, r, 0) == Convolution(c, m, r, 0) == 0;
    } else {
      ConvolutionPascal(c, m, r, h - 1);
      PascalTimes(c, h - 1, Choose(m, r - (h - 1)));
      ShiftedStep(c, m, r, h);
    }
  }

  lemma {:induction false} ConvolutionOfNone(m: nat, r: nat, h: nat)
    requires 1 <= h <= r + 1
    ensures Convolution(0, m, r, h) == Choose(m, r)
  {
    if h > 1 {
      ConvolutionOfNone(m, r, h - 1);
      ChooseBeyond(0, h - 1);
    } else {
      assert Convolution(0, m, r, 1) == Convolution(0, m, r, 0) + Choose(0, 0) * Choose(m, r);
    }
  }

  lemma {:induction false} Vandermonde(c: nat, m: nat, r: nat)
    ensures Convolution(c, m, r, r + 1) == Choose(c + m, r)
  {
    if c == 0 {
      ConvolutionOfNone(m, r, r + 1);
    } else {
      ConvolutionPascal(c - 1, m, r, r + 1);
      Vandermonde(c - 1, m, r);
      if r > 0 { Vandermonde(c - 1, m, r - 1); }
    }
  }
}
