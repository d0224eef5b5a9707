/** The two functional forms fitted to the transfer factor, `exponential` and
    `exponential2`. The exponential itself is a parameter `exp`; what is
    modelled is the vectorised evaluation and the clamp of negative outputs. */
module ModelFunctions {

  /** a * exp(-b x) + c, before clamping. */
  function Decay(exp: real -> real, x: real, a: real, b: real, c: real): real {
    a * exp(-b * x) + c
  }

  /** a * exp(-b x - c x^2) + d, before clamping. */
  function QuadraticDecay(exp: real -> real, x: real, a: real, b: real, c: real, d: real): real {
    a * exp(-b * x - c * x * x) + d
  }

  /** The masked clamp applied to the evaluated form: every negative entry
      becomes zero, every other entry is kept. */
  method ClampNegatives(ret: array<real>)
    modifies ret
    ensures forall i :: 0 <= i < ret.Length ==>
      ret[i] == (if old(ret[i]) < 0.0 then 0.0 else old(ret[i]))
  {
    for i := 0 to ret.Length
      invariant forall k :: 0 <= k < i ==> ret[k] == (if old(ret[k]) < 0.0 then 0.0 else old(ret[k]))
      invariant forall k :: i <= k < ret.Length ==> ret[k] == old(ret[k])
    {
      if ret[i] < 0.0 {
        ret[i] := 0.0;
      }
    }
  }

  /** `exponential(x, a, b, c)`: never negative; equal to the raw formula
      wherever that is non-negative and zero elsewhere. */
  method Exponential(exp: real -> real, x: seq<real>, a: real, b: real, c: real)
    returns (r: seq<real>)
    ensures |r| == |x|
    ensures forall i :: 0 <= i < |x| ==> r[i] >= 0.0
    ensures forall i :: 0 <= i < |x| && Decay(exp, x[i], a, b, c) >= 0.0 ==>
      r[i] == Decay(exp, x[i], a, b, c)
    ensures forall i :: 0 <= i < |x| && Decay(exp, x[i], a, b, c) < 0.0 ==> r[i] == 0.0
  {
    var ret := new real[|x|](i requires 0 <= i < |x| => Decay(exp, x[i], a, b, c));
    ClampNegatives(ret);
    r := ret[..];
  }

  /** `exponential2(x, a, b, c, d)`: the same clamp around the form with the
      quadratic term in the exponent. */
  method Exponential2(exp: real -> real, x: seq<real>, a: real, b: real, c: real, d: real)
    returns (r: seq<real>)
    ensures |r| == |x|
    ensures forall i :: 0 <= i < |x| ==> r[i] >= 0.0
    ensures forall i :: 0 <= i < |x| && QuadraticDecay(exp, x[i], a, b, c, d) >= 0.0 ==>
      r[i] == QuadraticDecay(exp, x[i], a, b, c, d)
    ensures forall i :: 0 <= i < |x| && QuadraticDecay(exp, x[i], a, b, c, d) < 0.0 ==> r[i] == 0.0
  {
    var ret := new real[|x|](i requires 0 <= i < |x| => QuadraticDecay(exp, x[i], a, b, c, d));
    ClampNegatives(ret);
    r := ret[..];
  }
}
