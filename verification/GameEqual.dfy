/** Game-equal averaging in exact arithmetic: every game weighs the same, however
    many rows it has.  The batch form weights each row by 1 / games / rows of its
    game; the streaming form averages the per-game means. */
module GameEqual {

  /** One measured value of one row, tagged with the row's game. */
  datatype Sample = Sample(game: string, value: real)

  ghost predicate NoDuplicates<T>(s: seq<T>) {
    forall i, j :: 0 <= i < j < |s| ==> s[i] != s[j]
  }

  function Games(s: seq<Sample>): set<string> {
    set x | x in s :: x.game
  }

  function GroupCount(s: seq<Sample>, g: string): nat {
    if s == [] then 0 else GroupCount(s[..|s| - 1], g) + if s[|s| - 1].game == g then 1 else 0
  }

  function GroupTotal(s: seq<Sample>, g: string): real {
    if s == [] then 0.0 else GroupTotal(s[..|s| - 1], g) + if s[|s| - 1].game == g then s[|s| - 1].value else 0.0
  }

  /** total / count, with the zero the code never divides by mapped to zero. */
  function MeanOver(total: real, count: nat): real {
    if count == 0 then 0.0 else total / count as real
  }

  /** The weight of one row of each game. */
  function Weights(s: seq<Sample>): map<string, real> {
    map g | g in Games(s) :: MeanOver(MeanOver(1.0, |Games(s)|), GroupCount(s, g))
  }

  function Weigh(w: map<string, real>, g: string, value: real): real {
    if g in w then w[g] * value else 0.0
  }

  /** The two-pass form: a weighted sum over rows. */
  function WeightedTotal(s: seq<Sample>, w: map<string, real>): real {
    if s == [] then 0.0
    else WeightedTotal(s[..|s| - 1], w) + Weigh(w, s[|s| - 1].game, s[|s| - 1].value)
  }

  /** The one-pass form: per-game means added up in the given game order. */
  function TotalOfMeans(order: seq<string>, s: seq<Sample>): real {
    if order == [] then 0.0
    else
      var g := order[|order| - 1];
      TotalOfMeans(order[..|order| - 1], s) + MeanOver(GroupTotal(s, g), GroupCount(s, g))
  }

  /** The games of s, each once: the keys of a dictionary filled while reading s. */
  ghost predicate Lists(order: seq<string>, s: seq<Sample>) {
    && NoDuplicates(order)
    && forall g :: g in order <==> g in Games(s)
  }

  // Appending one sample

  lemma Snoc(s: seq<Sample>, x: Sample, g: string)
    ensures GroupCount(s + [x], g) == GroupCount(s, g) + if x.game == g then 1 else 0
    ensures GroupTotal(s + [x], g) == GroupTotal(s, g) + if x.game == g then x.value else 0.0
    ensures Games(s + [x]) == Games(s) + {x.game}
  {
    assert (s + [x])[..|s|] == s;
    assert forall y :: y in s + [x] <==> y in s || y == x;
  }

  lemma {:induction false} GroupCountPositive(s: seq<Sample>, g: string)
    ensures GroupCount(s, g) > 0 <==> g in Games(s)
    ensures GroupCount(s, g) <= |s|
  {
    if s != [] {
      var init, last := s[..|s| - 1], s[|s| - 1];
      GroupCountPositive(init, g);
      Snoc(init, last, g);
      assert init + [last] == s;
    }
  }

  lemma {:induction false} DistinctLength<K>(s: seq<K>, keys: set<K>)
    requires NoDuplicates(s)
    requires forall k :: k in s <==> k in keys
    ensures |s| == |keys|
  {
    if s == [] {
      assert keys == {};
    } else {
      var init, last := s[..|s| - 1], s[|s| - 1];
      assert last in keys;
      forall k ensures k in init <==> k in keys - {last} {
        if k in init {
          var i :| 0 <= i < |init| && init[i] == k;
          assert s[i] == k && s[i] != s[|s| - 1];
        }
      }
      DistinctLength(init, keys - {last});
    }
  }

  // Regrouping

  /** Per-game totals weighted once per game. */
  ghost function WeightedGroups(order: seq<string>, s: seq<Sample>, w: map<string, real>): real {
    if order == [] then 0.0
    else
      var g := order[|order| - 1];
      WeightedGroups(order[..|order| - 1], s, w) + Weigh(w, g, GroupTotal(s, g))
  }

  lemma WeighSum(w: map<string, real>, g: string, a: real, b: real)
    ensures Weigh(w, g, a + b) == Weigh(w, g, a) + Weigh(w, g, b)
    ensures Weigh(w, g, a - b) == Weigh(w, g, a) - Weigh(w, g, b)
    ensures Weigh(w, g, 0.0) == 0.0
  {
  }

  lemma {:induction false} WeightedGroupsSnoc(order: seq<string>, s: seq<Sample>, x: Sample, w: map<string, real>)
    requires NoDuplicates(order)
    ensures WeightedGroups(order, s + [x], w)
         == WeightedGroups(order, s, w) + if x.game in order then Weigh(w, x.game, x.value) else 0.0
  {
    if order != [] {
      var init, g := order[..|order| - 1], order[|order| - 1];
      WeightedGroupsSnoc(init, s, x, w);
      Snoc(s, x, g);
      WeighSum(w, g, GroupTotal(s, g), x.value);
      assert x.game in order <==> x.game in init || x.game == g;
      assert g !in init;
    }
  }

  lemma {:induction false} WeightedGroupsOfNone(order: seq<string>, w: map<string, real>)
    ensures WeightedGroups(order, [], w) == 0.0
  {
    if order != [] {
      WeightedGroupsOfNone(order[..|order| - 1], w);
      WeighSum(w, order[|order| - 1], 0.0, 0.0);
    }
  }

  /** Weighting row by row is weighting game by game. */
  lemma {:induction false} RegroupByGame(order: seq<string>, s: seq<Sample>, w: map<string, real>)
    requires NoDuplicates(order)
    requires forall x :: x in s ==> x.game in order
    ensures WeightedTotal(s, w) == WeightedGroups(order, s, w)
  {
    if s == [] {
      WeightedGroupsOfNone(order, w);
    } else {
      var init, last := s[..|s| - 1], s[|s| - 1];
      assert last in s && init + [last] == s;
      RegroupByGame(order, init, w);
      WeightedGroupsSnoc(order, init, last, w);
    }
  }

  lemma ShareTimesTotal(games: nat, total: real, count: nat)
    requires games > 0
    ensures MeanOver(MeanOver(1.0, games), count) * total == MeanOver(total, count) / games as real
  {
  }

  lemma WeighByShare(w: map<string, real>, g: string, total: real, games: nat, count: nat)
    requires games > 0 && g in w && w[g] == MeanOver(MeanOver(1.0, games), count)
    ensures Weigh(w, g, total) == MeanOver(total, count) / games as real
  {
    ShareTimesTotal(games, total, count);
  }

  lemma WeighIsShare(s: seq<Sample>, g: string, total: real)
    requires g in Games(s)
    ensures Games(s) != {}
    ensures Weigh(Weights(s), g, total) == MeanOver(total, GroupCount(s, g)) / |Games(s)| as real
  {
    WeighByShare(Weights(s), g, total, |Games(s)|, GroupCount(s, g));
  }

  lemma SplitQuotient(a: real, b: real, n: real)
    requires n != 0.0
    ensures (a + b) / n == a / n + b / n
  {
  }

  lemma {:induction false} MeansOutOfWeights(order: seq<string>, s: seq<Sample>, n: real)
    requires forall g :: g in order ==> g in Games(s)
    requires Games(s) != {} && n == |Games(s)| as real
    ensures WeightedGroups(order, s, Weights(s)) == TotalOfMeans(order, s) / n
  {
    if order != [] {
      var init, g := order[..|order| - 1], order[|order| - 1];
      assert g in order;
      MeansOutOfWeights(init, s, n);
      WeighIsShare(s, g, GroupTotal(s, g));
      SplitQuotient(TotalOfMeans(init, s), MeanOver(GroupTotal(s, g), GroupCount(s, g)), n);
    }
  }

  /** The two-pass game-weighted mean of any measure is the mean of the per-game
      means, whatever order the games are visited in. */
  lemma MeanOfMeans(order: seq<string>, s: seq<Sample>)
    requires s != [] && Lists(order, s)
    ensures |order| == |Games(s)| > 0
    ensures WeightedTotal(s, Weights(s)) == TotalOfMeans(order, s) / |order| as real
  {
    assert s[0] in s && s[0].game in Games(s);
    DistinctLength(order, Games(s));
    RegroupByGame(order, s, Weights(s));
    MeansOutOfWeights(order, s, |order| as real);
  }

  /** Per-game counts, added up over the games, count every row once. */
  function TotalCount(order: seq<string>, s: seq<Sample>): nat {
    if order == [] then 0 else TotalCount(order[..|order| - 1], s) + GroupCount(s, order[|order| - 1])
  }

  lemma {:induction false} TotalCountSnoc(order: seq<string>, s: seq<Sample>, x: Sample)
    requires NoDuplicates(order)
    ensures TotalCount(order, s + [x]) == TotalCount(order, s) + if x.game in order then 1 else 0
  {
    if order != [] {
      var init, g := order[..|order| - 1], order[|order| - 1];
      TotalCountSnoc(init, s, x);
      Snoc(s, x, g);
      assert x.game in order <==> x.game in init || x.game == g;
    }
  }

  lemma {:induction false} CountsAddUp(order: seq<string>, s: seq<Sample>)
    requires NoDuplicates(order)
    requires forall x :: x in s ==> x.game in order
    ensures TotalCount(order, s) == |s|
  {
    if s == [] {
      CountsOfNone(order);
    } else {
      var init, last := s[..|s| - 1], s[|s| - 1];
      assert last in s && init + [last] == s;
      CountsAddUp(order, init);
      TotalCountSnoc(order, init, last);
    }
  }

  lemma {:induction false} CountsOfNone(order: seq<string>)
    ensures TotalCount(order, []) == 0
  {
    if order != [] {
      CountsOfNone(order[..|order| - 1]);
    }
  }

  // Reordering

  lemma Without<T>(s: seq<T>, t: seq<T>) returns (i: nat)
    requires s != [] && multiset(s) == multiset(t)
    ensures i < |t| && t[i] == s[|s| - 1]
    ensures multiset(s[..|s| - 1]) == multiset(t[..i] + t[i + 1..])
  {
    var x := s[|s| - 1];
    assert x in multiset(s);
    i :| 0 <= i < |t| && t[i] == x;
    assert s == s[..|s| - 1] + [x];
    assert t == t[..i] + [x] + t[i + 1..];
    assert multiset(s[..|s| - 1]) == multiset(s) - multiset{x};
    assert multiset(t[..i] + t[i + 1..]) == multiset(t) - multiset{x};
  }

  lemma SnocTotal(s: seq<Sample>, x: Sample, w: map<string, real>, g: string)
    ensures WeightedTotal(s + [x], w) == WeightedTotal(s, w) + Weigh(w, x.game, x.value)
    ensures GroupCount(s + [x], g) == GroupCount(s, g) + if x.game == g then 1 else 0
  {
    assert (s + [x])[..|s|] == s;
  }

  lemma LastStays<T>(s: seq<T>, i: nat)
    requires i < |s| - 1
    ensures var init := s[..|s| - 1]; s[..i] + s[i + 1..] == init[..i] + init[i + 1..] + [s[|s| - 1]]
  {
    var init := s[..|s| - 1];
    assert s[..i] == init[..i];
    assert s[i + 1..] == init[i + 1..] + [s[|s| - 1]];
  }

  lemma {:induction false} RemoveAt(s: seq<Sample>, i: nat, w: map<string, real>, g: string)
    requires i < |s|
    ensures WeightedTotal(s, w) == WeightedTotal(s[..i] + s[i + 1..], w) + Weigh(w, s[i].game, s[i].value)
    ensures GroupCount(s, g) == GroupCount(s[..i] + s[i + 1..], g) + if s[i].game == g then 1 else 0
  {
    var init, last := s[..|s| - 1], s[|s| - 1];
    if i == |s| - 1 {
      assert s[..i] + s[i + 1..] == init;
    } else {
      RemoveAt(init, i, w, g);
      var rest := init[..i] + init[i + 1..];
      LastStays(s, i);
      SnocTotal(rest, last, w, g);
    }
  }

  lemma {:induction false} Permuted(s: seq<Sample>, t: seq<Sample>, w: map<string, real>, g: string)
    requires multiset(s) == multiset(t)
    ensures WeightedTotal(s, w) == WeightedTotal(t, w)
    ensures GroupCount(s, g) == GroupCount(t, g)
    decreases |s|
  {
    if s == [] {
      assert |multiset(t)| == 0;
    } else {
      var i := Without(s, t);
      RemoveAt(t, i, w, g);
      Permuted(s[..|s| - 1], t[..i] + t[i + 1..], w, g);
    }
  }

  /** The game-weighted mean does not depend on row order. */
  lemma WeightedMeanReordered(a: seq<Sample>, b: seq<Sample>)
    requires multiset(a) == multiset(b)
    ensures Games(a) == Games(b) && |a| == |b|
    ensures WeightedTotal(a, Weights(a)) == WeightedTotal(b, Weights(b))
  {
    assert |a| == |multiset(a)| && |b| == |multiset(b)|;
    forall x ensures x in a <==> x in b {
      assert x in multiset(a) <==> x in multiset(b);
    }
    assert Games(a) == Games(b);
    forall g ensures GroupCount(a, g) == GroupCount(b, g) {
      Permuted(a, b, map[], g);
    }
    assert Weights(a) == Weights(b);
    Permuted(a, b, Weights(a), "");
  }

  /** Tagging rows with values carries a reordering of rows to one of samples. */
  function Mapped<T>(tag: T -> Sample, rows: seq<T>): (s: seq<Sample>)
    ensures |s| == |rows| && forall i :: 0 <= i < |rows| ==> s[i] == tag(rows[i])
  {
    seq(|rows|, i requires 0 <= i < |rows| => tag(rows[i]))
  }

  lemma {:induction false} MappedReordered<T>(tag: T -> Sample, a: seq<T>, b: seq<T>)
    requires multiset(a) == multiset(b)
    ensures multiset(Mapped(tag, a)) == multiset(Mapped(tag, b))
    decreases |a|
  {
    if a == [] {
      assert |multiset(b)| == 0;
    } else {
      var i := Without(a, b);
      MappedReordered(tag, a[..|a| - 1], b[..i] + b[i + 1..]);
      MappedWithout(tag, a, |a| - 1);
      assert a[..|a| - 1] + a[|a|..] == a[..|a| - 1];
      MappedWithout(tag, b, i);
    }
  }

  /** Tagging all rows but one. */
  lemma MappedWithout<T>(tag: T -> Sample, rows: seq<T>, i: nat)
    requires i < |rows|
    ensures multiset(Mapped(tag, rows)) == multiset(Mapped(tag, rows[..i] + rows[i + 1..])) + multiset{tag(rows[i])}
  {
    var s := Mapped(tag, rows);
    assert Mapped(tag, rows[..i] + rows[i + 1..]) == s[..i] + s[i + 1..];
    assert s == s[..i] + [s[i]] + s[i + 1..];
  }

  // Samples of one row sequence under different measures

  ghost predicate Aligned(a: seq<Sample>, b: seq<Sample>) {
    |a| == |b| && forall i :: 0 <= i < |a| ==> a[i].game == b[i].game
  }

  lemma {:induction false} AlignedCounts(a: seq<Sample>, b: seq<Sample>, g: string)
    requires Aligned(a, b)
    ensures GroupCount(a, g) == GroupCount(b, g)
  {
    if a != [] {
      AlignedCounts(a[..|a| - 1], b[..|b| - 1], g);
    }
  }

  lemma AlignedGames(a: seq<Sample>, b: seq<Sample>)
    requires Aligned(a, b)
    ensures Games(a) == Games(b) && Weights(a) == Weights(b)
  {
    forall g ensures g in Games(a) <==> g in Games(b) {
      if g in Games(a) { var i :| 0 <= i < |a| && a[i].game == g; assert b[i] in b; }
      if g in Games(b) { var i :| 0 <= i < |b| && b[i].game == g; assert a[i] in a; }
    }
    assert Games(a) == Games(b);
    forall g ensures GroupCount(a, g) == GroupCount(b, g) {
      AlignedCounts(a, b, g);
    }
  }

  lemma {:induction false} TotalOfDifferences(d: seq<Sample>, a: seq<Sample>, b: seq<Sample>, w: map<string, real>)
    requires Aligned(d, a) && Aligned(d, b)
    requires forall i :: 0 <= i < |d| ==> d[i].value == a[i].value - b[i].value
    ensures WeightedTotal(d, w) == WeightedTotal(a, w) - WeightedTotal(b, w)
  {
    if d != [] {
      var n := |d| - 1;
      TotalOfDifferences(d[..n], a[..n], b[..n], w);
      WeighSum(w, d[n].game, a[n].value, b[n].value);
    }
  }

  lemma PositiveShare(games: nat, count: nat)
    requires games > 0 && count > 0
    ensures MeanOver(MeanOver(1.0, games), count) > 0.0
  {
  }

  lemma PositiveWeights(s: seq<Sample>, g: string, x: real)
    requires g in Games(s)
    ensures x > 0.0 ==> Weigh(Weights(s), g, x) > 0.0
    ensures Weigh(Weights(s), g, 0.0) == 0.0
  {
    GroupCountPositive(s, g);
    PositiveShare(|Games(s)|, GroupCount(s, g));
    PositiveProduct(Weights(s)[g], x);
    WeighSum(Weights(s), g, 0.0, 0.0);
  }

  lemma PositiveProduct(a: real, b: real)
    requires a > 0.0
    ensures b > 0.0 ==> a * b > 0.0
  {
  }

  /** Indicator samples with zero weight contain nothing to weigh. */
  lemma {:induction false} NothingIndicated(ind: seq<Sample>, s: seq<Sample>, all: seq<Sample>)
    requires Aligned(ind, s)
    requires forall i :: 0 <= i < |s| ==> s[i].game in Games(all)
    requires forall i :: 0 <= i < |s| ==> ind[i].value > 0.0 || (ind[i].value == 0.0 && s[i].value == 0.0)
    ensures WeightedTotal(ind, Weights(all)) >= 0.0
    ensures WeightedTotal(ind, Weights(all)) == 0.0 ==> WeightedTotal(s, Weights(all)) == 0.0
  {
    if s != [] {
      var n := |s| - 1;
      NothingIndicated(ind[..n], s[..n], all);
      PositiveWeights(all, s[n].game, ind[n].value);
    }
  }

  // Proportions

  /** A dictionary's key order always exists. */
  lemma {:induction false} KeyOrder(s: seq<Sample>) returns (order: seq<string>)
    ensures Lists(order, s)
  {
    if s == [] {
      order := [];
    } else {
      var init, last := s[..|s| - 1], s[|s| - 1];
      order := KeyOrder(init);
      Snoc(init, last, "");
      assert init + [last] == s;
      if last.game !in order {
        order := order + [last.game];
      }
    }
  }

  lemma {:induction false} UnitGroup(s: seq<Sample>, g: string)
    requires forall i :: 0 <= i < |s| ==> 0.0 <= s[i].value <= 1.0
    ensures 0.0 <= GroupTotal(s, g) <= GroupCount(s, g) as real
  {
    if s != [] {
      UnitGroup(s[..|s| - 1], g);
    }
  }

  lemma UnitMean(total: real, count: nat)
    requires 0.0 <= total <= count as real
    ensures 0.0 <= MeanOver(total, count) <= 1.0
  {
  }

  lemma {:induction false} UnitMeans(order: seq<string>, s: seq<Sample>)
    requires forall i :: 0 <= i < |s| ==> 0.0 <= s[i].value <= 1.0
    ensures 0.0 <= TotalOfMeans(order, s) <= |order| as real
  {
    if order != [] {
      var g := order[|order| - 1];
      UnitMeans(order[..|order| - 1], s);
      UnitGroup(s, g);
      UnitMean(GroupTotal(s, g), GroupCount(s, g));
    }
  }

  /** A game-equal mean of proportions is a proportion. */
  lemma MeanOfProportions(s: seq<Sample>)
    requires s != []
    requires forall i :: 0 <= i < |s| ==> 0.0 <= s[i].value <= 1.0
    ensures 0.0 <= WeightedTotal(s, Weights(s)) <= 1.0
  {
    var order := KeyOrder(s);
    MeanOfMeans(order, s);
    UnitMeans(order, s);
    UnitMean(TotalOfMeans(order, s), |order|);
  }

  lemma {:induction false} FewerGamesThanRows(s: seq<Sample>)
    ensures |Games(s)| <= |s|
    ensures s != [] ==> Games(s) != {}
  {
    if s != [] {
      var init, last := s[..|s| - 1], s[|s| - 1];
      FewerGamesThanRows(init);
      Snoc(init, last, "");
      assert init + [last] == s;
      OneMore(Games(init), last.game);
    }
  }

  lemma OneMore(games: set<string>, g: string)
    ensures |games + {g}| <= |games| + 1
  {
    assert games + {g} == if g in games then games else games + {g};
  }

  // Equal and positive values

  lemma {:induction false} ConstantGroup(s: seq<Sample>, g: string, v: real)
    requires forall i :: 0 <= i < |s| ==> s[i].value == v
    ensures GroupTotal(s, g) == v * GroupCount(s, g) as real
  {
    if s != [] {
      var n := |s| - 1;
      ConstantGroup(s[..n], g, v);
      AddOne(v, GroupCount(s[..n], g));
    }
  }

  lemma AddOne(v: real, n: nat)
    ensures v * (n + 1) as real == v * n as real + v
  {
  }

  lemma MeanOfEqual(v: real, n: nat)
    requires n > 0
    ensures MeanOver(v * n as real, n) == v && v * n as real / n as real == v
  {
  }

  lemma ConstantGroupMean(s: seq<Sample>, g: string, v: real)
    requires g in Games(s) && forall i :: 0 <= i < |s| ==> s[i].value == v
    ensures MeanOver(GroupTotal(s, g), GroupCount(s, g)) == v
  {
    ConstantGroup(s, g, v);
    GroupCountPositive(s, g);
    hide *;
    var n := GroupCount(s, g);
    MeanOfEqual(v, n);
    assert GroupTotal(s, g) == v * n as real;
  }

  lemma {:induction false} ConstantMeans(order: seq<string>, s: seq<Sample>, v: real)
    requires forall g :: g in order ==> g in Games(s)
    requires forall i :: 0 <= i < |s| ==> s[i].value == v
    ensures TotalOfMeans(order, s) == v * |order| as real
  {
    hide MeanOver, Games;
    if order == [] {
      assert v * 0 as real == 0.0;
    } else {
      var n := |order| - 1;
      var g := order[n];
      assert g in order;
      ConstantMeans(order[..n], s, v);
      ConstantGroupMean(s, g, v);
      AddOne(v, n);
      assert |order[..n]| == n && |order| == n + 1;

    }
  }

  /** The game-equal mean of equal values is that value. */
  lemma ConstantMean(s: seq<Sample>, v: real)
    requires s != [] && forall i :: 0 <= i < |s| ==> s[i].value == v
    ensures WeightedTotal(s, Weights(s)) == v
  {
    hide WeightedTotal, Weights, TotalOfMeans, Games, NoDuplicates;
    var order := KeyOrder(s);
    MeanOfMeans(order, s);
    ConstantMeans(order, s, v);
    MeanOfEqual(v, |order|);
  }

  /** A game-equal total of values none of which is negative is positive exactly when one is. */
  lemma {:induction false} PositiveMean(s: seq<Sample>, all: seq<Sample>)
    requires forall i :: 0 <= i < |s| ==> s[i].game in Games(all) && s[i].value >= 0.0
    ensures WeightedTotal(s, Weights(all)) >= 0.0
    ensures WeightedTotal(s, Weights(all)) > 0.0 <==> exists i :: 0 <= i < |s| && s[i].value > 0.0
  {
    if s != [] {
      var n := |s| - 1;
      PositiveMean(s[..n], all);
      PositiveWeights(all, s[n].game, s[n].value);
      if i :| 0 <= i < n && s[..n][i].value > 0.0 {
        assert s[i].value > 0.0;
      }
      if i :| 0 <= i < |s| && s[i].value > 0.0 {
        assert i < n ==> s[..n][i].value > 0.0;
      }
    }
  }
}
