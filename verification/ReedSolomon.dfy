/** Reed-Solomon error correction over GF(256) (web/src/lib/qr.ts): polynomials
    are coefficient lists, highest power first. */
module ReedSolomon {
  import opened Bits
  import opened Gf256

  // ---- polynomials ----

  function Add(a: Byte, b: Byte): Byte
  {
    XorByte(a, b);
    Xor(a, b)
  }

  lemma AddZero(a: Byte)
    ensures Add(a, 0) == a && Add(0, a) == a && Add(a, a) == 0
  {
    XorZero(a);
    XorSelf(a);
  }

  lemma AddCommutes(a: Byte, b: Byte)
    ensures Add(a, b) == Add(b, a)
  {
    XorCommutes(a, b);
  }

  lemma AddAssociates(a: Byte, b: Byte, c: Byte)
    ensures Add(Add(a, b), c) == Add(a, Add(b, c))
  {
    XorAssociates(a, b, c);
  }

  lemma AddSwap(a: Byte, b: Byte, c: Byte, d: Byte)
    ensures Add(Add(a, b), Add(c, d)) == Add(Add(a, c), Add(b, d))
  {
    XorSwap(a, b, c, d);
  }

  lemma Distribute(a: Byte, b: Byte, y: Byte)
    ensures Mul(Add(a, b), y) == Add(Mul(a, y), Mul(b, y))
    ensures Mul(y, Add(a, b)) == Add(Mul(y, a), Mul(y, b))
  {
    MulDistributes(a, b, y);
  }

  function Plus(p: seq<Byte>, q: seq<Byte>): (r: seq<Byte>)
    requires |p| == |q|
    ensures |r| == |p|
  {
    seq(|p|, i requires 0 <= i < |p| => Add(p[i], q[i]))
  }

  function Scale(p: seq<Byte>, c: Byte): (r: seq<Byte>)
    ensures |r| == |p|
  {
    seq(|p|, i requires 0 <= i < |p| => Mul(p[i], c))
  }

  function Zeros(n: nat): (z: seq<Byte>)
    ensures |z| == n
  {
    seq(n, _ => 0)
  }

  /** The value of `p` at `x`. */
  function Eval(p: seq<Byte>, x: Byte): Byte
  {
    if p == [] then 0 else Add(Mul(Eval(p[..|p| - 1], x), x), p[|p| - 1])
  }

  function Power(x: Byte, n: nat): Byte
  {
    if n == 0 then 1 else Mul(Power(x, n - 1), x)
  }

  // ---- specification ----

  /** `p` times `(X + r)`. */
  function TimesLinear(p: seq<Byte>, r: Byte): (q: seq<Byte>)
    ensures |q| == |p| + 1
  {
    Plus(p + [0], [0] + Scale(p, r))
  }

  /** `(X + 2^0)(X + 2^1)...(X + 2^(n-1))`, leading coefficient included. */
  function Generator(n: nat): (g: seq<Byte>)
    ensures |g| == n + 1
  {
    if n == 0 then [1] else TimesLinear(Generator(n - 1), Power(2, n - 1))
  }

  /** The coefficient of `X^e`. */
  function Coef(p: seq<Byte>, e: nat): Byte
  {
    if e < |p| then p[|p| - 1 - e] else 0
  }

  function Feed(rem: seq<Byte>, b: Byte, divisor: seq<Byte>): (r: seq<Byte>)
    requires |rem| == |divisor| >= 1
    ensures |r| == |divisor|
  {
    Plus(rem[1..] + [0], Scale(divisor, Add(b, rem[0])))
  }

  function Remainder(data: seq<Byte>, divisor: seq<Byte>): (r: seq<Byte>)
    requires |divisor| >= 1
    ensures |r| == |divisor|
  {
    if data == [] then Zeros(|divisor|)
    else Feed(Remainder(data[..|data| - 1], divisor), data[|data| - 1], divisor)
  }

  /** The leading terms the division subtracts, one for each data byte. */
  ghost function Factors(data: seq<Byte>, divisor: seq<Byte>): (f: seq<Byte>)
    requires |divisor| >= 1
    ensures |f| == |data|
  {
    if data == [] then []
    else
      var init := data[..|data| - 1];
      Factors(init, divisor) + [Add(data[|data| - 1], Remainder(init, divisor)[0])]
  }

  // ---- the two loops ----

  lemma TimesLinearCoef(p: seq<Byte>, r: Byte, e: nat)
    requires |p| >= 1
    ensures Coef(TimesLinear(p, r), e) == Add(if e > 0 then Coef(p, e - 1) else 0, Mul(Coef(p, e), r))
  {
    hide Mul, Add;
    MulUnits(r);
    AddZero(0);
  }

  /** `reedSolomonComputeDivisor`: the generator without its leading 1, by
      repeated in-place multiplication with `(X + root)`. */
  method ReedSolomonComputeDivisor(degree: nat) returns (result: array<Byte>)
    requires degree >= 1
    ensures fresh(result) && result[..] == Generator(degree)[1..]
  {
    hide Mul, Add, TimesLinear;
    result := new Byte[degree](_ => 0);
    result[degree - 1] := 1;
    var root: Byte := 1;
    var i := 0;
    while i < degree
      invariant 0 <= i <= degree
      invariant root == Power(2, i)
      invariant forall k :: 0 <= k < degree ==> result[k] == Coef(Generator(i), degree - 1 - k)
    {
      ghost var was := result[..];
      var j := 0;
      while j < result.Length
        invariant 0 <= j <= degree
        invariant forall k :: 0 <= k < j ==> result[k] == Coef(Generator(i + 1), degree - 1 - k)
        invariant forall k :: j <= k < degree ==> result[k] == was[k]
      {
        TimesLinearCoef(Generator(i), root, degree - 1 - j);
        var product := ReedSolomonMultiply(result[j], root);
        AddZero(product);
        result[j] := product;
        if j + 1 < result.Length {
          AddCommutes(product, result[j + 1]);
          result[j] := Add(result[j], result[j + 1]);
        }
        j := j + 1;
      }
      root := ReedSolomonMultiply(root, 0x02);
      i := i + 1;
    }
  }

  /** `reedSolomonComputeRemainder`: long division, one data byte at a time. */
  method ReedSolomonComputeRemainder(data: seq<Byte>, divisor: seq<Byte>) returns (result: seq<Byte>)
    requires |divisor| >= 1
    ensures result == Remainder(data, divisor)
  {
    hide Mul, Add;
    result := Zeros(|divisor|);
    var n := 0;
    while n < |data|
      invariant 0 <= n <= |data|
      invariant result == Remainder(data[..n], divisor)
    {
      assert data[..n + 1][..n] == data[..n];
      var rem := result;
      var factor := Add(data[n], result[0]);
      result := result[1..] + [0];
      var shifted := result;
      var i := 0;
      while i < |divisor|
        invariant 0 <= i <= |divisor| == |result|
        invariant forall k :: 0 <= k < i ==> result[k] == Add(shifted[k], Mul(divisor[k], factor))
        invariant forall k :: i <= k < |result| ==> result[k] == shifted[k]
      {
        var term := ReedSolomonMultiply(divisor[i], factor);
        result := result[i := Add(result[i], term)];
        i := i + 1;
      }
      assert result == Feed(rem, data[n], divisor);
      n := n + 1;
    }
    assert data[..n] == data;
  }

  // ---- evaluation ----

  lemma EvalSnoc(p: seq<Byte>, c: Byte, x: Byte)
    ensures Eval(p + [c], x) == Add(Mul(Eval(p, x), x), c)
  {
    assert (p + [c])[..|p|] == p;
  }

  lemma {:induction false} EvalPlus(p: seq<Byte>, q: seq<Byte>, x: Byte)
    requires |p| == |q|
    ensures Eval(Plus(p, q), x) == Add(Eval(p, x), Eval(q, x))
  {
    hide Add, Mul;
    if p == [] {
      AddZero(0);
    } else {
      var n := |p| - 1;
      EvalPlus(p[..n], q[..n], x);
      assert Plus(p, q)[..n] == Plus(p[..n], q[..n]);
      Distribute(Eval(p[..n], x), Eval(q[..n], x), x);
      AddSwap(Mul(Eval(p[..n], x), x), Mul(Eval(q[..n], x), x), p[n], q[n]);
    }
  }

  lemma {:induction false} EvalScale(p: seq<Byte>, c: Byte, x: Byte)
    ensures Eval(Scale(p, c), x) == Mul(Eval(p, x), c)
  {
    hide Add, Mul;
    if p == [] {
      MulUnits(c);
    } else {
      var n := |p| - 1;
      EvalScale(p[..n], c, x);
      assert Scale(p, c)[..n] == Scale(p[..n], c);
      var e := Eval(p[..n], x);
      MulAssociates(e, c, x);
      MulCommutes(c, x);
      MulAssociates(e, x, c);
      Distribute(Mul(e, x), p[n], c);
    }
  }

  lemma {:induction false} EvalConcat(p: seq<Byte>, q: seq<Byte>, x: Byte)
    ensures Eval(p + q, x) == Add(Mul(Eval(p, x), Power(x, |q|)), Eval(q, x))
  {
    hide Add, Mul;
    if q == [] {
      assert p + q == p;
      MulUnits(Eval(p, x));
      AddZero(Eval(p, x));
    } else {
      var n := |q| - 1;
      var e, w, f := Eval(p, x), Power(x, n), Eval(q[..n], x);
      EvalConcat(p, q[..n], x);
      assert (p + q)[..|p| + n] == p + q[..n];
      Distribute(Mul(e, w), f, x);
      MulAssociates(e, w, x);
      AddAssociates(Mul(e, Power(x, |q|)), Mul(f, x), q[n]);
    }
  }

  lemma EvalLeadingZero(p: seq<Byte>, x: Byte)
    ensures Eval([0] + p, x) == Eval(p, x)
  {
    hide Add, Mul;
    EvalConcat([0], p, x);
    MulUnits(x);
    AddZero(0);
    MulUnits(Power(x, |p|));
    AddZero(Eval(p, x));
  }

  lemma EvalTimesLinear(p: seq<Byte>, r: Byte, x: Byte)
    ensures Eval(TimesLinear(p, r), x) == Mul(Eval(p, x), Add(x, r))
  {
    hide Add, Mul;
    var e := Eval(p, x);
    EvalPlus(p + [0], [0] + Scale(p, r), x);
    EvalSnoc(p, 0, x);
    AddZero(Mul(e, x));
    EvalLeadingZero(Scale(p, r), x);
    EvalScale(p, r, x);
    Distribute(x, r, e);
  }

  // ---- the generator ----

  /** `(x + 2^0)...(x + 2^(n-1))` as a product of values. */
  function RootProduct(n: nat, x: Byte): Byte
  {
    if n == 0 then 1 else Mul(RootProduct(n - 1, x), Add(x, Power(2, n - 1)))
  }

  lemma {:induction false} GeneratorIsProduct(n: nat, x: Byte)
    ensures Eval(Generator(n), x) == RootProduct(n, x)
    ensures Generator(n)[0] == 1
  {
    hide Add, Mul;
    if n == 0 {
      EvalSnoc([], 1, x);
      MulUnits(x);
      AddZero(1);
    } else {
      GeneratorIsProduct(n - 1, x);
      EvalTimesLinear(Generator(n - 1), Power(2, n - 1), x);
      AddZero(1);
    }
  }

  lemma {:induction false} GeneratorVanishes(n: nat, i: nat)
    requires i < n
    ensures RootProduct(n, Power(2, i)) == 0
  {
    hide Add, Mul;
    var x := Power(2, i);
    if i == n - 1 {
      AddZero(x);
    } else {
      GeneratorVanishes(n - 1, i);
    }
    MulUnits(RootProduct(n - 1, x));
    MulUnits(Add(x, Power(2, n - 1)));
  }

  // ---- division ----

  /** Division with remainder, as an identity of values: shifting the data by
      the divisor's degree gives factors times divisor plus remainder. */
  lemma {:induction false} Division(data: seq<Byte>, divisor: seq<Byte>, x: Byte)
    requires |divisor| >= 1
    ensures Mul(Eval(data, x), Power(x, |divisor|))
         == Add(Mul(Eval(Factors(data, divisor), x), Eval([1] + divisor, x)), Eval(Remainder(data, divisor), x))
  {
    hide Add, Mul;
    if data == [] {
      EvalZeros(|divisor|, x);
      MulUnits(Power(x, |divisor|));
      MulUnits(Eval([1] + divisor, x));
      AddZero(0);
    } else {
      var init, b := data[..|data| - 1], data[|data| - 1];
      Division(init, divisor, x);
      DivisionStep(Eval(init, x), Eval(Factors(init, divisor), x), Remainder(init, divisor), b, divisor, x);
      EvalSnoc(Factors(init, divisor), Add(b, Remainder(init, divisor)[0]), x);
    }
  }

  lemma {:induction false} EvalZeros(n: nat, x: Byte)
    ensures Eval(Zeros(n), x) == 0
  {
    hide Add, Mul;
    if n != 0 {
      EvalZeros(n - 1, x);
      assert Zeros(n)[..n - 1] == Zeros(n - 1);
      MulUnits(x);
      AddZero(0);
    }
  }

  lemma DivisionStep(d: Byte, f: Byte, rem: seq<Byte>, b: Byte, divisor: seq<Byte>, x: Byte)
    requires |rem| == |divisor| >= 1
    requires Mul(d, Power(x, |divisor|)) == Add(Mul(f, Eval([1] + divisor, x)), Eval(rem, x))
    ensures Mul(Add(Mul(d, x), b), Power(x, |divisor|))
         == Add(Mul(Add(Mul(f, x), Add(b, rem[0])), Eval([1] + divisor, x)), Eval(Feed(rem, b, divisor), x))
  {
    hide Add, Mul;
    var w, g, c := Power(x, |divisor|), Eval([1] + divisor, x), Add(b, rem[0]);
    var fg, tail := Mul(Mul(f, x), g), Eval(rem[1..] + [0], x);
    // left: (dx + b) w = x(fg + rem) + bw = fgx + rem[0] w + tail + bw
    MonicValue(divisor, x);
    ShiftedValue(rem, x);
    Distribute(Mul(d, x), b, w);
    Rotate(d, x, w);
    Distribute(Mul(f, g), Eval(rem, x), x);
    Rotate(f, x, g);
    AddAssociates(fg, Add(Mul(rem[0], w), tail), Mul(b, w));
    // right: (fx + c) g + tail + c div = fxg + cw + tail
    Distribute(Mul(f, x), c, g);
    EvalPlus(rem[1..] + [0], Scale(divisor, c), x);
    EvalScale(divisor, c, x);
    MulCommutes(Eval(divisor, x), c);
    Distribute(w, Eval(divisor, x), c);
    AddAssociates(fg, Mul(c, g), Add(tail, Mul(c, Eval(divisor, x))));
    Distribute(b, rem[0], w);
    Collect(Mul(b, w), Mul(rem[0], w), Mul(c, Eval(divisor, x)), tail);
  }

  lemma Rotate(a: Byte, b: Byte, c: Byte)
    ensures Mul(Mul(a, b), c) == Mul(Mul(a, c), b)
  {
    hide Mul;
    MulAssociates(a, b, c);
    MulCommutes(b, c);
    MulAssociates(a, c, b);
  }

  lemma Collect(p: Byte, q: Byte, v: Byte, t: Byte)
    ensures Add(Add(q, t), p) == Add(Add(Add(p, q), v), Add(t, v))
  {
    hide Add;
    AddSwap(Add(p, q), v, t, v);
    AddZero(v);
    AddZero(Add(Add(p, q), t));
    AddAssociates(p, q, t);
    AddCommutes(p, Add(q, t));
  }

  /** A monic polynomial is its leading power plus the rest. */
  lemma MonicValue(divisor: seq<Byte>, x: Byte)
    ensures Eval([1] + divisor, x) == Add(Power(x, |divisor|), Eval(divisor, x))
  {
    hide Add, Mul;
    EvalConcat([1], divisor, x);
    EvalSnoc([], 1, x);
    assert [] + [1] == [1];
    MulUnits(x);
    AddZero(1);
    MulUnits(Power(x, |divisor|));
  }

  lemma ShiftedValue(rem: seq<Byte>, x: Byte)
    requires |rem| >= 1
    ensures Mul(Eval(rem, x), x) == Add(Mul(rem[0], Power(x, |rem|)), Eval(rem[1..] + [0], x))
  {
    hide Add, Mul;
    EvalSnoc(rem, 0, x);
    AddZero(Mul(Eval(rem, x), x));
    assert rem + [0] == [rem[0]] + (rem[1..] + [0]);
    EvalConcat([rem[0]], rem[1..] + [0], x);
    EvalSnoc([], rem[0], x);
    assert [] + [rem[0]] == [rem[0]];
    MulUnits(x);
    AddZero(rem[0]);
  }

  // ---- codewords ----

  /** Data followed by its remainder vanishes wherever the monic divisor does. */
  lemma CodewordVanishes(data: seq<Byte>, divisor: seq<Byte>, x: Byte)
    requires |divisor| >= 1 && Eval([1] + divisor, x) == 0
    ensures Eval(data + Remainder(data, divisor), x) == 0
  {
    hide Add, Mul;
    Division(data, divisor, x);
    EvalConcat(data, Remainder(data, divisor), x);
    MulUnits(Eval(Factors(data, divisor), x));
    AddZero(Eval(Remainder(data, divisor), x));
  }

  /** Every block the encoder emits is a multiple of the generator: zero at
      2^0, ..., 2^(n-1). */
  lemma CodewordHasRoots(data: seq<Byte>, n: nat, i: nat)
    requires i < n
    ensures Eval(data + Remainder(data, Generator(n)[1..]), Power(2, i)) == 0
  {
    hide Add, Mul;
    var g := Generator(n);
    GeneratorIsProduct(n, Power(2, i));
    GeneratorVanishes(n, i);
    assert [1] + g[1..] == g;
    CodewordVanishes(data, g[1..], Power(2, i));
  }
}
