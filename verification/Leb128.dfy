/** The two LEB128 integer codecs of the WebAssembly binary format
    (section 5.2.2 of the WebAssembly Core Specification). */
module Leb128 {
  import opened Common

  // ----- unsigned -----

  function Uleb(n: nat): (s: Bytes)
    ensures |s| > 0
  {
    if n < 128 then [n] else [n % 128 + 128] + Uleb(n / 128)
  }

  function DecodeUleb(s: Bytes): (r: Option<(nat, Bytes)>)
    ensures r.Some? ==> |r.value.1| < |s|
  {
    if s == [] then None
    else if s[0] < 128 then Some((s[0], s[1..]))
    else
      match DecodeUleb(s[1..])
      case None => None
      case Some((high, rest)) => Some((s[0] - 128 + 128 * high, rest))
  }

  lemma {:induction false} UlebRoundTrip(n: nat, rest: Bytes)
    ensures DecodeUleb(Uleb(n) + rest) == Some((n, rest))
  {
    if n >= 128 {
      UlebRoundTrip(n / 128, rest);
      assert (Uleb(n) + rest)[1..] == Uleb(n / 128) + rest;
    }
  }

  /** The loop of `uleb`: the low seven bits first, a continuation bit on all but the last octet. */
  method EncodeUleb(n: int) returns (r: Result<Bytes, string>)
    ensures r.Err? <==> n < 0
    ensures r.Ok? ==> n >= 0 && r.value == Uleb(n)
  {
    if n < 0 {
      return Err("uleb of negative");
    }
    var out: Bytes := [];
    var m := n;
    while true
      invariant 0 <= m
      invariant out + Uleb(m) == Uleb(n)
      decreases m
    {
      var b := m % 128;
      var high := m / 128;
      if high != 0 {
        assert Uleb(m) == [b + 128] + Uleb(high);
        assert out + Uleb(m) == (out + [b + 128]) + Uleb(high);
        out := out + [b + 128];
        m := high;
      } else {
        return Ok(out + [b]);
      }
    }
  }

  // ----- signed -----

  /** Distance of `n` from the fixed points 0 and -1 of the arithmetic shift. */
  function SlebMeasure(n: int): nat {
    if n >= 0 then n else -n - 1
  }

  lemma ShiftDecreases(n: int)
    requires !(n / 128 == 0 && n % 128 < 64)
    requires !(n / 128 == -1 && n % 128 >= 64)
    ensures SlebMeasure(n / 128) < SlebMeasure(n)
  {
    assert n == 128 * (n / 128) + n % 128;
  }

  /** `n % 128` and `n / 128` are the mask and the arithmetic shift, for negative `n` too. */
  function Sleb(n: int): (s: Bytes)
    ensures |s| > 0
    decreases SlebMeasure(n)
  {
    var b := n % 128;
    var high := n / 128;
    if (high == 0 && b < 64) || (high == -1 && b >= 64) then [b]
    else
      ShiftDecreases(n);
      [b + 128] + Sleb(high)
  }

  function DecodeSleb(s: Bytes): (r: Option<(int, Bytes)>)
    ensures r.Some? ==> |r.value.1| < |s|
  {
    if s == [] then None
    else if s[0] < 64 then Some((s[0], s[1..]))
    else if s[0] < 128 then
      var negative := s[0] as int - 128;
      Some((negative, s[1..]))
    else
      match DecodeSleb(s[1..])
      case None => None
      case Some((high, rest)) => Some((s[0] - 128 + 128 * high, rest))
  }

  predicate SlebEnds(n: int) {
    (n / 128 == 0 && n % 128 < 64) || (n / 128 == -1 && n % 128 >= 64)
  }

  lemma SlebLast(n: int, rest: Bytes)
    requires SlebEnds(n)
    ensures DecodeSleb(Sleb(n) + rest) == Some((n, rest))
  {
    var b := n % 128;
    assert n == 128 * (n / 128) + b;
    assert Sleb(n) == [b];
    assert ([b] + rest)[1..] == rest;
  }

  lemma SlebNext(n: int)
    requires !SlebEnds(n)
    ensures SlebMeasure(n / 128) < SlebMeasure(n)
    ensures Sleb(n) == [n % 128 + 128] + Sleb(n / 128)
    ensures n == n % 128 + 128 * (n / 128)
  {
    ShiftDecreases(n);
  }

  lemma {:induction false} SlebRoundTrip(n: int, rest: Bytes)
    ensures DecodeSleb(Sleb(n) + rest) == Some((n, rest))
    decreases SlebMeasure(n)
  {
    if SlebEnds(n) {
      SlebLast(n, rest);
    } else {
      var b := n % 128;
      SlebNext(n);
      SlebRoundTrip(n / 128, rest);
      assert Sleb(n) + rest == [b + 128] + (Sleb(n / 128) + rest);
      assert ([b + 128] + (Sleb(n / 128) + rest))[1..] == Sleb(n / 128) + rest;
    }
  }

  lemma SlebCarries(out: Bytes, m: int)
    requires !SlebEnds(m)
    ensures SlebMeasure(m / 128) < SlebMeasure(m)
    ensures out + [m % 128 + 128] + Sleb(m / 128) == out + Sleb(m)
  {
    SlebNext(m);
  }

  /** The loop of `sleb`, which stops once the rest is pure sign extension of the last octet. */
  method EncodeSleb(n: int) returns (out: Bytes)
    ensures out == Sleb(n)
  {
    out := [];
    var m := n;
    while true
      invariant out + Sleb(m) == Sleb(n)
      decreases SlebMeasure(m)
    {
      var b := m % 128;
      var high := m / 128;
      if (high == 0 && b < 64) || (high == -1 && b >= 64) {
        return out + [b];
      }
      SlebCarries(out, m);
      out := out + [b + 128];
      m := high;
    }
  }
}
