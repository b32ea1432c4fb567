/** Choosing a continuation action: inverse-CDF sampling and the stable argmax. */
module Continuation {
  import Common

  /** The summed positive weights of the first n entries. */
  function Mass(weights: seq<real>, n: nat): (m: real)
    requires n <= |weights|
    ensures m >= 0.0
  {
    if n == 0 then 0.0 else Mass(weights, n - 1) + if weights[n - 1] > 0.0 then weights[n - 1] else 0.0
  }

  /** The draws that select entry j: an interval as long as its weight, empty without one. */
  predicate Selects(weights: seq<real>, draw: real, j: nat)
    requires j < |weights|
  {
    weights[j] > 0.0 && Mass(weights, j) <= draw < Mass(weights, j) + weights[j]
  }

  lemma {:induction false} MassGrows(weights: seq<real>, i: nat, j: nat)
    requires i <= j <= |weights|
    ensures Mass(weights, i) <= Mass(weights, j)
  {
    if i < j {
      MassGrows(weights, i, j - 1);
    }
  }

  /** The intervals of different entries do not meet. */
  lemma SelectionIsUnique(weights: seq<real>, draw: real, i: nat, j: nat)
    requires i < |weights| && j < |weights| && Selects(weights, draw, i) && Selects(weights, draw, j)
    ensures i == j
  {
    if i < j {
      MassGrows(weights, i + 1, j);
    } else if j < i {
      MassGrows(weights, j + 1, i);
    }
  }

  /** The interval of a positive weight lies within [0, total) and is as long as the weight. */
  lemma EveryWeightIsReachable(weights: seq<real>, j: nat)
    requires j < |weights| && weights[j] > 0.0
    ensures 0.0 <= Mass(weights, j) && Mass(weights, j) + weights[j] <= Mass(weights, |weights|)
    ensures Selects(weights, Mass(weights, j), j)
  {
    MassGrows(weights, j + 1, |weights|);
  }

  /** Weights without a negative one have their sum as mass; a weight that is not positive adds nothing. */
  lemma {:induction false} MassMeans(weights: seq<real>, n: nat)
    requires n <= |weights|
    ensures (forall i :: 0 <= i < n ==> weights[i] >= 0.0) ==> Mass(weights, n) == Common.Total(weights[..n])
    ensures n < |weights| && weights[n] <= 0.0 ==> Mass(weights, n + 1) == Mass(weights, n)
  {
    if n > 0 {
      MassMeans(weights, n - 1);
      assert weights[..n][..n - 1] == weights[..n - 1];
    }
  }

  /** An entry is chosen for the random numbers of an interval whose length is its share of the mass. */
  lemma ShareIsChance(weights: seq<real>, random: real, j: nat)
    requires j < |weights| && Mass(weights, |weights|) > 0.0
    ensures var mass := Mass(weights, |weights|);
            Selects(weights, Draw(random, mass), j) <==>
              weights[j] > 0.0 && Mass(weights, j) / mass <= random < Mass(weights, j) / mass + weights[j] / mass
  {
    hide Mass, Draw;
    var mass := Mass(weights, |weights|);
    Scaled(random, Mass(weights, j), mass);
    Scaled(random, Mass(weights, j) + weights[j], mass);
    QuotientSum(Mass(weights, j), weights[j], mass);
  }

  lemma Scaled(x: real, a: real, m: real)
    requires m > 0.0
    ensures a / m <= x <==> a <= Draw(x, m)
  {
    var q := a / m;
    assert a == q * m;
    if q <= x {
      Ordered(q, x, m);
    } else {
      StrictlyOrdered(x, q, m);
    }
  }

  lemma Ordered(a: real, b: real, m: real)
    requires a <= b && m > 0.0
    ensures a * m <= b * m
  {
  }

  lemma StrictlyOrdered(a: real, b: real, m: real)
    requires a < b && m > 0.0
    ensures a * m < b * m
  {
  }

  lemma QuotientSum(a: real, b: real, m: real)
    requires m > 0.0
    ensures (a + b) / m == a / m + b / m
  {
  }

  /** The positive entries of the first n, with their indexes. */
  function Entries(weights: seq<real>, n: nat): seq<(nat, real)>
    requires n <= |weights|
  {
    if n == 0 then []
    else Entries(weights, n - 1) + if weights[n - 1] > 0.0 then [(n - 1, weights[n - 1])] else []
  }

  function Total(entries: seq<(nat, real)>, k: nat): real
    requires k <= |entries|
  {
    if k == 0 then 0.0 else Total(entries, k - 1) + entries[k - 1].1
  }

  lemma {:induction false} TotalPrefix(entries: seq<(nat, real)>, more: seq<(nat, real)>, k: nat)
    requires k <= |entries|
    ensures Total(entries + more, k) == Total(entries, k)
  {
    if k > 0 {
      TotalPrefix(entries, more, k - 1);
    }
  }

  lemma {:induction false} TotalIsMass(weights: seq<real>, n: nat)
    requires n <= |weights|
    ensures Total(Entries(weights, n), |Entries(weights, n)|) == Mass(weights, n)
  {
    if n > 0 {
      var before := Entries(weights, n - 1);
      TotalIsMass(weights, n - 1);
      if weights[n - 1] > 0.0 {
        TotalPrefix(before, [(n - 1, weights[n - 1])], |before|);
      } else {
        assert Entries(weights, n) == before;
      }
    }
  }

  /** Before an entry the cumulative weight is the mass before its index. */
  lemma {:induction false} EntryMass(weights: seq<real>, n: nat, k: nat)
    requires n <= |weights| && k < |Entries(weights, n)|
    ensures var e := Entries(weights, n)[k];
            e.0 < n && weights[e.0] == e.1 > 0.0 && Total(Entries(weights, n), k) == Mass(weights, e.0)
  {
    var before := Entries(weights, n - 1);
    var more := if weights[n - 1] > 0.0 then [(n - 1, weights[n - 1])] else [];
    TotalPrefix(before, more, if k < |before| then k else |before|);
    if k < |before| {
      EntryMass(weights, n - 1, k);
    } else {
      TotalIsMass(weights, n - 1);
    }
  }

  /** The choice for a random number in [0, 1): the entry whose interval holds the draw.
      In exact arithmetic the loop always returns, so the fallback after it never acts. */
  method Sample(weights: seq<real>, random: real) returns (chosen: nat)
    requires 0.0 <= random < 1.0 && Mass(weights, |weights|) > 0.0
    ensures chosen < |weights| && Selects(weights, Draw(random, Mass(weights, |weights|)), chosen)
  {
    var positive := Entries(weights, |weights|);
    TotalIsMass(weights, |weights|);
    var total := Total(positive, |positive|);
    DrawBelowTotal(random, total);
    chosen := Select(weights, Draw(random, total));
  }

  function Draw(random: real, total: real): real {
    random * total
  }

  lemma DrawBelowTotal(random: real, total: real)
    requires 0.0 <= random < 1.0 && total > 0.0
    ensures 0.0 <= Draw(random, total) < total
  {
  }

  /** Walk the cumulative weights until they pass the draw. */
  method Select(weights: seq<real>, draw: real) returns (chosen: nat)
    requires 0.0 <= draw < Mass(weights, |weights|)
    ensures chosen < |weights| && Selects(weights, draw, chosen)
  {
    var positive := Entries(weights, |weights|);
    var cumulative := 0.0;
    for k := 0 to |positive|
      invariant cumulative == Total(positive, k) && cumulative <= draw
    {
      var (index, weight) := positive[k];
      EntryMass(weights, |weights|, k);
      cumulative := cumulative + weight;
      if draw < cumulative {
        return index;
      }
    }
    TotalIsMass(weights, |weights|);
    assert false;
  }

  /** max(range(n), key=scores): the first index of a greatest score. */
  method FirstArgmax(scores: seq<real>) returns (best: nat)
    requires scores != []
    ensures best < |scores|
    ensures forall i :: 0 <= i < |scores| ==> scores[i] <= scores[best]
    ensures forall i :: 0 <= i < best ==> scores[i] < scores[best]
  {
    best := 0;
    for i := 1 to |scores|
      invariant best < i
      invariant forall j :: 0 <= j < i ==> scores[j] <= scores[best]
      invariant forall j :: 0 <= j < best ==> scores[j] < scores[best]
    {
      if scores[i] > scores[best] {
        best := i;
      }
    }
  }
}
