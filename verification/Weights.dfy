/** Scaling and compaction of the weights of DNS SRV records (sd/dnssrv/subscriber.go).

    `Normalize`, `Gcd` and `Compact` follow the loops of the source; the functions
    `Normalized`, `GcdOf` and `Compacted` say what they compute, and the lemmas say
    what that is worth: bounds on the total, exact ratios, coprimality, idempotence. */
module Weights {
  import opened Arith

  /** Go's `uint16`. */
  type Uint16 = x: int | 0 <= x < 0x1_0000

  /** Go's conversion `uint16(x)` of a non-negative integer: the low sixteen bits. */
  function ToUint16(x: nat): Uint16 {
    x % 0x1_0000
  }

  // ---------------------------------------------------------------- sums

  function Sum(ws: seq<nat>): nat {
    if ws == [] then 0 else ws[0] + Sum(ws[1..])
  }

  lemma SumAppend(ws: seq<nat>, w: nat)
    ensures Sum(ws + [w]) == Sum(ws) + w
  {
    if ws == [] {
      assert ws + [w] == [w];
    } else {
      SumAppend(ws[1..], w);
      assert (ws + [w])[1..] == ws[1..] + [w];
    }
  }

  lemma SumTake(ws: seq<nat>, i: nat)
    requires i < |ws|
    ensures Sum(ws[..i + 1]) == Sum(ws[..i]) + ws[i]
  {
    SumAppend(ws[..i], ws[i]);
    assert ws[..i + 1] == ws[..i] + [ws[i]];
  }

  lemma ElementAtMostSum(ws: seq<nat>, i: nat)
    requires i < |ws|
    ensures ws[i] <= Sum(ws)
  {
    if i > 0 {
      ElementAtMostSum(ws[1..], i - 1);
    }
  }

  lemma SumZero(ws: seq<nat>)
    ensures Sum(ws) == 0 <==> forall i :: 0 <= i < |ws| ==> ws[i] == 0
  {
    if forall i :: 0 <= i < |ws| ==> ws[i] == 0 {
      SumOfZeros(ws);
    } else {
      var i :| 0 <= i < |ws| && ws[i] != 0;
      ElementAtMostSum(ws, i);
    }
  }

  lemma SumOfZeros(ws: seq<nat>)
    requires forall i :: 0 <= i < |ws| ==> ws[i] == 0
    ensures Sum(ws) == 0
  {
  }

  lemma SumMonotone(us: seq<nat>, ws: seq<nat>)
    requires |us| == |ws| && forall i :: 0 <= i < |us| ==> us[i] <= ws[i]
    ensures Sum(us) <= Sum(ws)
  {
  }

  // ---------------------------------------------------------------- normalize

  /** The larger of 100 and the number of weights. */
  function Scale(n: nat): nat {
    if n > 100 then n else 100
  }

  function ScaledWeight(w: nat, scale: nat, sum: nat): nat
    requires sum > 0
  {
    assert w * scale >= 0;
    assert w * scale / sum >= 0 by { DivAtMost(w * scale, sum); }
    w * scale / sum
  }

  function Normalized(ws: seq<Uint16>): (res: seq<Uint16>)
    ensures |res| == |ws|
  {
    var scale, sum := Scale(|ws|), Sum(ws);
    if sum <= scale then ws
    else seq(|ws|, i requires 0 <= i < |ws| => ToUint16(ScaledWeight(ws[i], scale, sum)))
  }

  method Normalize(ws: array<Uint16>) returns (res: array<Uint16>)
    ensures res[..] == Normalized(ws[..])
    ensures if Sum(ws[..]) <= 100 || Sum(ws[..]) <= ws.Length then res == ws else fresh(res)
  {
    var scale: nat := 100;
    if ws.Length > scale {
      scale := ws.Length;
    }
    var sum: nat := 0;
    for i := 0 to ws.Length
      invariant sum == Sum(ws[..i])
    {
      SumTake(ws[..], i);
      assert ws[..][..i] == ws[..i] && ws[..][..i + 1] == ws[..i + 1];
      sum := sum + ws[i];
    }
    assert ws[..ws.Length] == ws[..];
    if sum <= scale {
      return ws;
    }
    res := new Uint16[ws.Length];
    for i := 0 to ws.Length
      invariant forall j :: 0 <= j < i ==> res[j] == ToUint16(ScaledWeight(ws[j], scale, sum))
    {
      res[i] := ToUint16(ScaledWeight(ws[i], scale, sum));
    }
  }

  /** One scaled weight is the floor of its exact share, and never above the weight itself. */
  lemma ShareBounds(w: nat, scale: nat, sum: nat)
    requires scale < sum
    ensures ScaledWeight(w, scale, sum) * sum <= w * scale < ScaledWeight(w, scale, sum) * sum + sum
    ensures ScaledWeight(w, scale, sum) <= w
  {
    var q := ScaledWeight(w, scale, sum);
    DivBounds(w * scale, sum);
    MulMonotone(scale, sum, w);
    MulCancels(q, w, sum);
  }

  lemma ShareMonotone(u: nat, w: nat, scale: nat, sum: nat)
    requires u <= w && scale < sum
    ensures ScaledWeight(u, scale, sum) <= ScaledWeight(w, scale, sum)
  {
    ShareBounds(u, scale, sum);
    ShareBounds(w, scale, sum);
    MulMonotone(u, w, scale);
    var p, q := ScaledWeight(u, scale, sum), ScaledWeight(w, scale, sum);
    MulDistributes(q, 1, sum);
    MulCancels(p, q + 1, sum);
  }

  /** The conversion to uint16 never cuts anything off: a scaled weight is at most the weight. */
  lemma NormalizeNeverTruncates(ws: seq<Uint16>, i: nat)
    requires i < |ws| && Sum(ws) > Scale(|ws|)
    ensures Normalized(ws)[i] == ScaledWeight(ws[i], Scale(|ws|), Sum(ws)) <= ws[i]
  {
    ShareBounds(ws[i], Scale(|ws|), Sum(ws));
    FitsUint16(ScaledWeight(ws[i], Scale(|ws|), Sum(ws)));
  }

  lemma FitsUint16(x: nat)
    ensures x <= 0xFFFF ==> ToUint16(x) == x
  {
  }

  lemma NormalizeKeepsOrder(ws: seq<Uint16>, i: nat, j: nat)
    requires i < |ws| && j < |ws| && ws[i] <= ws[j]
    ensures Normalized(ws)[i] <= Normalized(ws)[j]
  {
    if Sum(ws) > Scale(|ws|) {
      NormalizeNeverTruncates(ws, i);
      NormalizeNeverTruncates(ws, j);
      ShareMonotone(ws[i], ws[j], Scale(|ws|), Sum(ws));
    }
  }

  /** The total of a slice of floors, multiplied out: each floor loses less than one `sum`. */
  lemma {:induction false} SumOfShares(ws: seq<nat>, us: seq<nat>, scale: nat, sum: nat)
    requires scale < sum && |us| == |ws|
    requires forall i :: 0 <= i < |ws| ==> us[i] == ScaledWeight(ws[i], scale, sum)
    ensures Sum(us) * sum <= Sum(ws) * scale
    ensures |ws| > 0 ==> Sum(ws) * scale < (Sum(us) + |ws|) * sum
  {
    if ws == [] {
      assert 0 * sum == 0 == 0 * scale;
    } else {
      var w, u, n := ws[0], us[0], |ws[1..]|;
      var restW, restU := Sum(ws[1..]), Sum(us[1..]);
      SumOfShares(ws[1..], us[1..], scale, sum);
      ShareBounds(w, scale, sum);
      MulDistributes(u, restU, sum);
      MulDistributes(w, restW, scale);
      MulDistributes(u + 1, restU + n, sum);
      MulDistributes(u, 1, sum);
      assert Sum(us) + |ws| == (u + 1) + (restU + n);
      if n == 0 {
        assert ws[1..] == [] && us[1..] == [];
      }
    }
  }

  /** A slice that totals at most 100, or at most its length, stays; any other is scaled, up to 100 weights to
      a total of at most 100, and more to at most their number, and loses less than one per weight. */
  lemma NormalizedTotal(ws: seq<Uint16>)
    ensures Sum(ws) <= 100 || Sum(ws) <= |ws| ==> Normalized(ws) == ws
    ensures |ws| <= 100 < Sum(ws) ==> 100 - |ws| < Sum(Normalized(ws)) <= 100
    ensures 100 < |ws| < Sum(ws) ==> 0 < Sum(Normalized(ws)) <= |ws|
  {
    if Sum(ws) > Scale(|ws|) {
      ScaledTotal(ws);
    }
  }

  /** Every scaled weight is the floor of its exact share of 100, or of the number of weights above that. */
  lemma NormalizedShare(ws: seq<Uint16>, i: nat)
    requires i < |ws|
    ensures var q, sum := Normalized(ws)[i], Sum(ws);
      && (|ws| <= 100 < sum ==> Times(q, sum) <= 100 * ws[i] < Times(q, sum) + sum)
      && (100 < |ws| < sum ==> Times(q, sum) <= Times(ws[i], |ws|) < Times(q, sum) + sum)
  {
    if Sum(ws) > Scale(|ws|) {
      NormalizeNeverTruncates(ws, i);
      ShareBounds(ws[i], Scale(|ws|), Sum(ws));
    }
  }

  lemma ScaledTotal(ws: seq<Uint16>)
    requires Sum(ws) > Scale(|ws|)
    ensures Scale(|ws|) - |ws| < Sum(Normalized(ws)) <= Scale(|ws|)
  {
    var scale, sum := Scale(|ws|), Sum(ws);
    forall i | 0 <= i < |ws|
      ensures Normalized(ws)[i] == ScaledWeight(ws[i], scale, sum)
    {
      NormalizeNeverTruncates(ws, i);
    }
    SumOfShares(ws, Normalized(ws), scale, sum);
    MulCancels(scale, Sum(Normalized(ws)) + |ws|, sum);
    MulCancels(Sum(Normalized(ws)), scale, sum);
  }

  /** The source computes in int64: below 2^47 weights no product and no sum overflows it. */
  lemma {:induction false} NormalizeFitsInt64(ws: seq<Uint16>)
    requires |ws| < 0x8000_0000_0000
    ensures Sum(ws) < 0x8000_0000_0000_0000
    ensures forall i :: 0 <= i < |ws| ==>
      Times(ws[i], 100) < 0x8000_0000_0000_0000 && Times(ws[i], |ws|) < 0x8000_0000_0000_0000
  {
    SumAtMost(ws);
    forall i | 0 <= i < |ws|
      ensures Times(ws[i], 100) < 0x8000_0000_0000_0000 && Times(ws[i], |ws|) < 0x8000_0000_0000_0000
    {
      MulMonotone(ws[i], 0xFFFF, |ws|);
    }
  }

  lemma SumAtMost(ws: seq<Uint16>)
    ensures Sum(ws) <= 0xFFFF * |ws|
  {
  }

  // ---------------------------------------------------------------- gcd

  ghost predicate Divides(d: int, n: int) {
    exists k: int :: Times(d, k) == n
  }

  function Times(d: int, k: int): int {
    d * k
  }

  lemma DividesIntro(d: int, k: int, n: int)
    requires n == d * k
    ensures Divides(d, n)
  {
    assert Times(d, k) == n;
  }

  lemma DividesSum(d: int, a: int, b: int)
    requires Divides(d, a) && Divides(d, b)
    ensures Divides(d, a + b) && Divides(d, a - b)
  {
    var j: int :| Times(d, j) == a;
    var k: int :| Times(d, k) == b;
    DividesIntro(d, j + k, a + b);
    DividesIntro(d, j - k, a - b);
  }

  lemma DividesProduct(d: int, a: int, q: int)
    requires Divides(d, a)
    ensures Divides(d, a * q)
  {
    var j: int :| Times(d, j) == a;
    DividesIntro(d, j * q, a * q);
  }

  lemma DividesSelfAndZero(d: int)
    ensures Divides(d, d) && Divides(d, 0) && Divides(1, d)
  {
    DividesIntro(d, 1, d);
    DividesIntro(d, 0, 0);
    DividesIntro(1, d, d);
  }

  lemma DividesAntisymmetric(a: nat, b: nat)
    requires Divides(a, b) && Divides(b, a)
    ensures a == b
  {
    var j: int :| Times(a, j) == b;
    var k: int :| Times(b, k) == a;
    if a > 0 && b > 0 {
      MulCancels(0, j, a);
      MulCancels(0, k, b);
      MulMonotone(1, j, a);
      MulMonotone(1, k, b);
    }
  }

  /** One turn of Euclid's loop keeps the set of common divisors. */
  lemma EuclidStep(a: nat, b: nat, d: int)
    requires b > 0
    ensures Divides(d, a) && Divides(d, b) <==> Divides(d, b) && Divides(d, a % b)
  {
    assert a == b * (a / b) + a % b;
    if Divides(d, b) {
      DividesProduct(d, b, a / b);
      if Divides(d, a) {
        DividesSum(d, a, b * (a / b));
      }
      if Divides(d, a % b) {
        DividesSum(d, b * (a / b), a % b);
      }
    }
  }

  function GcdPair(a: nat, b: nat): nat
    decreases b
  {
    if b > 0 then GcdPair(b, a % b) else a
  }

  /** The numbers dividing the result are exactly the common divisors of the arguments. */
  lemma {:induction false} GcdPairDivisors(a: nat, b: nat, d: int)
    ensures Divides(d, GcdPair(a, b)) <==> Divides(d, a) && Divides(d, b)
    decreases b
  {
    DividesSelfAndZero(d);
    if b > 0 {
      EuclidStep(a, b, d);
      GcdPairDivisors(b, a % b, d);
    }
  }

  function GcdFrom(g: nat, ws: seq<nat>): nat
    decreases |ws|
  {
    if ws == [] then g else GcdFrom(GcdPair(g, ws[0]), ws[1..])
  }

  function GcdOf(ws: seq<nat>): nat {
    if ws == [] then 0 else GcdFrom(ws[0], ws[1..])
  }

  ghost predicate DividesAll(d: int, ws: seq<nat>) {
    forall i :: 0 <= i < |ws| ==> Divides(d, ws[i])
  }

  lemma {:induction false} GcdFromDivisors(g: nat, ws: seq<nat>, d: int)
    ensures Divides(d, GcdFrom(g, ws)) <==> Divides(d, g) && DividesAll(d, ws)
    decreases |ws|
  {
    if ws != [] {
      GcdPairDivisors(g, ws[0], d);
      GcdFromDivisors(GcdPair(g, ws[0]), ws[1..], d);
      assert DividesAll(d, ws) <==> Divides(d, ws[0]) && DividesAll(d, ws[1..]) by {
        assert forall i :: 1 <= i < |ws| ==> ws[i] == ws[1..][i - 1];
      }
    }
  }

  /** The greatest common divisor of the whole slice: what divides it is exactly what divides
      every weight. (This fixes it: 0 for an empty or all-zero slice.) */
  lemma GcdIsGreatestCommonDivisor(ws: seq<nat>, d: int)
    ensures Divides(d, GcdOf(ws)) <==> DividesAll(d, ws)
  {
    if ws == [] {
      DividesSelfAndZero(d);
    } else {
      GcdFromDivisors(ws[0], ws[1..], d);
      assert DividesAll(d, ws) <==> Divides(d, ws[0]) && DividesAll(d, ws[1..]) by {
        assert forall i :: 1 <= i < |ws| ==> ws[i] == ws[1..][i - 1];
      }
    }
  }

  method LocalGcd(x: Uint16, y: Uint16) returns (a: Uint16)
    ensures a == GcdPair(x, y)
  {
    a := x;
    var b: Uint16 := y;
    while b > 0
      invariant GcdPair(a, b) == GcdPair(x, y)
    {
      a, b := b, a % b;
    }
  }

  method Gcd(ws: array<Uint16>) returns (result: Uint16)
    ensures result == GcdOf(ws[..])
  {
    if ws.Length == 0 {
      return 0;
    }
    result := ws[0];
    for i := 1 to ws.Length
      invariant GcdFrom(result, ws[i..]) == GcdOf(ws[..])
    {
      assert ws[i..][0] == ws[i] && ws[i..][1..] == ws[i + 1..];
      result := LocalGcd(result, ws[i]);
    }
  }

  // ---------------------------------------------------------------- compact

  function Quotient(w: Uint16, div: nat): (q: Uint16)
    requires div > 0
    ensures q <= w
  {
    DivAtMost(w, div);
    w / div
  }

  function Compacted(ws: seq<Uint16>): (res: seq<Uint16>)
    ensures |res| == |ws|
  {
    var tmp := Normalized(ws);
    var div := GcdOf(tmp);
    if div < 2 then tmp else seq(|tmp|, i requires 0 <= i < |tmp| => Quotient(tmp[i], div))
  }

  method Compact(ws: array<Uint16>) returns (res: array<Uint16>)
    ensures res[..] == Compacted(ws[..])
  {
    var tmp := Normalize(ws);
    ghost var normalized := tmp[..];
    var div := Gcd(tmp);
    if div < 2 {
      return tmp;
    }
    res := new Uint16[tmp.Length];
    for i := 0 to tmp.Length
      invariant tmp[..] == normalized
      invariant forall j :: 0 <= j < i ==> res[j] == Quotient(normalized[j], div)
    {
      assert tmp[i] == normalized[i];
      res[i] := Quotient(tmp[i], div);
    }
  }

  /** The factor that compaction takes out of every normalized weight. */
  function CommonFactor(ws: seq<Uint16>): (f: nat)
    ensures f > 0
  {
    var div := GcdOf(Normalized(ws));
    if div < 2 then 1 else div
  }

  /** Every normalized weight is its compacted weight times one common factor. */
  lemma CompactIsExact(ws: seq<Uint16>, i: nat)
    requires i < |ws|
    ensures Normalized(ws)[i] == Times(Compacted(ws)[i], CommonFactor(ws))
  {
    var tmp := Normalized(ws);
    var div := GcdOf(tmp);
    if div >= 2 {
      DividesSelfAndZero(div);
      GcdIsGreatestCommonDivisor(tmp, div);
      assert Divides(div, tmp[i]);
      var k: int :| Times(div, k) == tmp[i];
      DivUnique(tmp[i], div, k);
    }
  }

  /** A share is nothing exactly if the weight times the scale does not reach the sum. */
  lemma ShareVanishesIff(w: nat, scale: nat, sum: nat)
    requires sum > 0
    ensures ScaledWeight(w, scale, sum) == 0 <==> Times(w, scale) < sum
  {
    var q := ScaledWeight(w, scale, sum);
    DivBounds(w * scale, sum);
    if q > 0 {
      MulMonotone(1, q, sum);
    }
  }

  lemma TimesZeroIff(a: nat, b: nat)
    requires b > 0
    ensures Times(a, b) == 0 <==> a == 0
  {
    if a > 0 {
      MulMonotone(1, a, b);
    }
  }

  lemma NormalizedZeroIff(ws: seq<Uint16>, i: nat)
    requires i < |ws|
    ensures Normalized(ws)[i] == 0 <==>
      if Sum(ws) <= Scale(|ws|) then ws[i] == 0 else Times(ws[i], Scale(|ws|)) < Sum(ws)
  {
    if Sum(ws) > Scale(|ws|) {
      NormalizeNeverTruncates(ws, i);
      ShareVanishesIff(ws[i], Scale(|ws|), Sum(ws));
    }
  }

  /** Which weights get nothing: zero, and, if the weights are scaled at all, every weight whose share of
      the scale is below one. */
  lemma StarvedIff(ws: seq<Uint16>, i: nat)
    requires i < |ws|
    ensures Compacted(ws)[i] == 0 <==>
      || ws[i] == 0
      || (|ws| <= 100 < Sum(ws) && 100 * ws[i] < Sum(ws))
      || (100 < |ws| < Sum(ws) && Times(ws[i], |ws|) < Sum(ws))
  {
    CompactIsExact(ws, i);
    TimesZeroIff(Compacted(ws)[i], CommonFactor(ws));
    NormalizedZeroIff(ws, i);
    TimesZeroIff(ws[i], Scale(|ws|));
  }

  /** Ratios between normalized weights survive exactly. */
  lemma CompactKeepsRatios(ws: seq<Uint16>, i: nat, j: nat)
    requires i < |ws| && j < |ws|
    ensures Times(Compacted(ws)[i], Normalized(ws)[j]) == Times(Compacted(ws)[j], Normalized(ws)[i])
  {
    CompactIsExact(ws, i);
    CompactIsExact(ws, j);
    MulRearrange(Compacted(ws)[i], Compacted(ws)[j], CommonFactor(ws));
  }

  lemma MulRearrange(a: int, b: int, f: int)
    ensures a * (b * f) == b * (a * f) == (a * b) * f
  {
  }

  lemma {:induction false} AllZeroIffGcdZero(ws: seq<nat>)
    ensures GcdOf(ws) == 0 <==> forall i :: 0 <= i < |ws| ==> ws[i] == 0
  {
    GcdIsGreatestCommonDivisor(ws, 0);
    GcdIsGreatestCommonDivisor(ws, GcdOf(ws));
    DividesSelfAndZero(GcdOf(ws));
    DividesSelfAndZero(0);
    if forall i :: 0 <= i < |ws| ==> ws[i] == 0 {
      assert DividesAll(0, ws);
      DividesAntisymmetric(0, GcdOf(ws));
    }
    if GcdOf(ws) == 0 {
      forall i | 0 <= i < |ws|
        ensures ws[i] == 0
      {
        assert Divides(0, ws[i]);
        var k: int :| Times(0, k) == ws[i];
      }
    }
  }

  /** Whatever still divides every compacted weight, times the factor taken out, divides the gcd. */
  lemma {:induction false} FactorTimesDivisor(ws: seq<Uint16>, g: nat)
    requires DividesAll(g, Compacted(ws))
    ensures Divides(g * CommonFactor(ws), GcdOf(Normalized(ws)))
  {
    var res, f, tmp := Compacted(ws), CommonFactor(ws), Normalized(ws);
    forall i | 0 <= i < |tmp|
      ensures Divides(g * f, tmp[i])
    {
      CompactIsExact(ws, i);
      var k: int :| Times(g, k) == res[i];
      MulRearrange(k, g, f);
      DividesIntro(g * f, k, tmp[i]);
    }
    GcdIsGreatestCommonDivisor(tmp, g * f);
  }

  /** After compaction nothing but 1 is left in common, unless there is no weight at all. */
  lemma {:induction false} CompactIsCoprime(ws: seq<Uint16>)
    ensures GcdOf(Compacted(ws)) == if forall i :: 0 <= i < |ws| ==> Compacted(ws)[i] == 0 then 0 else 1
  {
    AllZeroIffGcdZero(Compacted(ws));
    var g, f := GcdOf(Compacted(ws)), CommonFactor(ws);
    if g != 0 && GcdOf(Normalized(ws)) != 0 {
      DividesSelfAndZero(g);
      GcdIsGreatestCommonDivisor(Compacted(ws), g);
      FactorTimesDivisor(ws, g);
      DividesIntro(f, g, f * g);
      assert g * f == f * g;
      DividesAntisymmetric(g * f, f);
      MulCancels(g, 1, f);
    }
  }

  lemma CompactTotal(ws: seq<Uint16>)
    ensures Sum(Compacted(ws)) <= Sum(Normalized(ws)) <= if |ws| <= 100 then 100 else |ws|
    ensures Sum(Compacted(ws)) == 0 <==> Sum(ws) == 0
  {
    var res, tmp, f := Compacted(ws), Normalized(ws), CommonFactor(ws);
    forall i | 0 <= i < |res|
      ensures res[i] <= tmp[i] && (tmp[i] == 0 <==> res[i] == 0)
    {
      CompactIsExact(ws, i);
      MulMonotone(1, f, res[i]);
      MulCancels(0, res[i], f);
    }
    SumMonotone(res, tmp);
    SumZero(res);
    SumZero(tmp);
    if Sum(ws) > Scale(|ws|) {
      ScaledTotal(ws);
      SumAtMostLength(ws);
    }
  }

  lemma SumAtMostLength(ws: seq<Uint16>)
    ensures Sum(ws) > 0 ==> |ws| > 0
  {
  }

  lemma {:induction false} CompactIsIdempotent(ws: seq<Uint16>)
    ensures Compacted(Compacted(ws)) == Compacted(ws)
  {
    CompactTotal(ws);
    CompactIsCoprime(ws);
    assert Normalized(Compacted(ws)) == Compacted(ws);
  }
}
