/** Small shared vocabulary. */
module Common {
  datatype Option<+T> = None | Some(value: T)

  /** A value, or the rejection that the source raises as an exception. */
  datatype Result<+T> = Success(value: T) | Failure

  function Abs(x: real): real {
    if x < 0.0 then -x else x
  }

  function Min(a: real, b: real): real {
    if b < a then b else a
  }

  function Max(a: real, b: real): real {
    if b > a then b else a
  }

  function Total(values: seq<real>): real {
    if values == [] then 0.0 else Total(values[..|values| - 1]) + values[|values| - 1]
  }

  lemma {:induction false} TotalInRange(values: seq<real>)
    requires forall i :: 0 <= i < |values| ==> 0.0 <= values[i] <= 1.0
    ensures 0.0 <= Total(values) <= |values| as real
  {
    if values != [] {
      TotalInRange(values[..|values| - 1]);
    }
  }

  /** Totals add up, from nothing and single values. */
  lemma {:induction false} TotalAddsUp(a: seq<real>, b: seq<real>)
    ensures Total([]) == 0.0 && forall x :: Total([x]) == x
    ensures Total(a + b) == Total(a) + Total(b)
  {
    forall x ensures Total([x]) == x {
      assert [x][..0] == [];
    }
    if b == [] {
      assert a + b == a;
    } else {
      var n := |b| - 1;
      TotalAddsUp(a, b[..n]);
      assert (a + b)[..|a + b| - 1] == a + b[..n];
    }
  }

  /** A total of equal values, and their mean. */
  lemma {:induction false} TotalConstant(values: seq<real>, c: real)
    requires forall i :: 0 <= i < |values| ==> values[i] == c
    ensures Total(values) == c * |values| as real
    ensures values != [] ==> Total(values) / |values| as real == c
  {
    if values != [] {
      var n := |values| - 1;
      TotalConstant(values[..n], c);
      assert c * (n + 1) as real == c * n as real + c;
      QuotientOfProduct(c, |values| as real);
    }
  }

  lemma QuotientOfProduct(c: real, n: real)
    requires n != 0.0
    ensures c * n / n == c
  {
  }

  /** A total in which only one value is not zero. */
  lemma {:induction false} TotalSingle(values: seq<real>, k: nat)
    requires k < |values| && forall i :: 0 <= i < |values| && i != k ==> values[i] == 0.0
    ensures Total(values) == values[k]
  {
    var n := |values| - 1;
    if k < n {
      TotalSingle(values[..n], k);
    } else {
      TotalConstant(values[..n], 0.0);
    }
  }

  lemma {:induction false} TotalScaled(values: seq<real>, scaled: seq<real>, d: real)
    requires d != 0.0 && |scaled| == |values| && forall i :: 0 <= i < |values| ==> scaled[i] == values[i] / d
    ensures Total(scaled) == Total(values) / d
  {
    if values != [] {
      var n := |values| - 1;
      TotalScaled(values[..n], scaled[..n], d);
      QuotientOfSum(Total(values[..n]), values[n], d);
    }
  }

  lemma QuotientOfSum(a: real, b: real, d: real)
    requires d != 0.0
    ensures (a + b) / d == a / d + b / d
  {
  }

  lemma {:induction false} TotalPositive(values: seq<real>)
    requires forall i :: 0 <= i < |values| ==> values[i] >= 0.0
    ensures Total(values) >= 0.0
    ensures (exists i :: 0 <= i < |values| && values[i] > 0.0) <==> Total(values) > 0.0
  {
    if values != [] {
      var n := |values| - 1;
      TotalPositive(values[..n]);
      if i :| 0 <= i < |values| && values[i] > 0.0 {
        assert i < n ==> values[..n][i] > 0.0;
      }
      if i :| 0 <= i < n && values[..n][i] > 0.0 {
        assert values[i] > 0.0;
      }
    }
  }

  function Elements<T>(s: seq<T>): set<T> {
    set x | x in s
  }

  /** A sequence repeats nothing exactly when it has as many elements as places. */
  lemma {:induction false} DistinctCount<T>(s: seq<T>)
    ensures |Elements(s)| <= |s|
    ensures |Elements(s)| == |s| <==> forall i, j :: 0 <= i < j < |s| ==> s[i] != s[j]
  {
    if s != [] {
      var n := |s| - 1;
      DistinctCount(s[..n]);
      assert s == s[..n] + [s[n]];
      assert Elements(s) == Elements(s[..n]) + {s[n]};
      if s[n] in s[..n] {
        var i :| 0 <= i < n && s[..n][i] == s[n];
        assert s[i] == s[n];
      }
    }
  }

  lemma UnitQuotient(total: real, n: nat)
    requires n > 0 && 0.0 <= total <= n as real
    ensures 0.0 <= total / n as real <= 1.0
  {
  }

  lemma Multiples(a: nat, b: nat, d: nat)
    requires a < b
    ensures a * d + d <= b * d
  {
    var k: nat := b - a - 1;
    assert b * d == (a + 1 + k) * d == a * d + d + k * d;
  }

  lemma DivMod(n: nat, d: nat, q: nat, m: nat)
    requires m < d && n == q * d + m
    ensures n / d == q && n % d == m
  {
    var q', m' := n / d, n % d;
    assert n == q' * d + m' && m' < d;
    if q' < q {
      Multiples(q', q, d);
    } else if q < q' {
      Multiples(q, q', d);
    }
  }

  type Byte = b: int | 0 <= b < 256

  function Concat(parts: seq<seq<Byte>>): seq<Byte> {
    if parts == [] then [] else Concat(parts[..|parts| - 1]) + parts[|parts| - 1]
  }
}
