/** Joint dataset rows and the total order in which they are merged. */
module RowOrder {
  import opened Common

  /** The provenance shared by all rows of a game; scope stands for map, game type,
      compositions, generation, source and search identity. */
  datatype Identity = Identity(game: string, seed: int, config: string, scope: string)

  /** SHA-256 over the canonical identity and index, taken to be collision free. */
  datatype DecisionId = DecisionId(identity: Identity, index: nat)

  datatype Row = Row(identity: Identity, index: nat, winner: Option<string>, body: string) {
    /** A row carries the digest of its own identity and position. */
    function Id(): DecisionId {
      DecisionId(identity, index)
    }

    function Game(): string {
      identity.game
    }

    function Seed(): int {
      identity.seed
    }
  }

  /** Lexicographic order of strings by code point. */
  predicate StringLess(a: string, b: string) {
    b != [] && (a == [] || a[0] < b[0] || (a[0] == b[0] && StringLess(a[1..], b[1..])))
  }

  /** The merge key: world seed, then game, then decision index. */
  predicate Less(a: Row, b: Row) {
    || a.Seed() < b.Seed()
    || (a.Seed() == b.Seed() && StringLess(a.Game(), b.Game()))
    || (a.Seed() == b.Seed() && a.Game() == b.Game() && a.index < b.index)
  }

  predicate SameKey(a: Row, b: Row) {
    a.Seed() == b.Seed() && a.Game() == b.Game() && a.index == b.index
  }

  lemma {:induction false} StringOrder(a: string, b: string)
    ensures a == b || StringLess(a, b) || StringLess(b, a)
    ensures !(StringLess(a, b) && StringLess(b, a)) && !StringLess(a, a)
  {
    if a != [] && b != [] {
      StringOrder(a[1..], b[1..]);
      StringOrder(a[1..], a[1..]);
      assert a == [a[0]] + a[1..] && b == [b[0]] + b[1..];
    } else if a != [] {
      StringOrder(a[1..], a[1..]);
    }
  }

  lemma {:induction false} StringTransitive(a: string, b: string, c: string)
    requires StringLess(a, b) && StringLess(b, c)
    ensures StringLess(a, c)
  {
    if a != [] && a[0] == b[0] == c[0] {
      StringTransitive(a[1..], b[1..], c[1..]);
    }
  }

  lemma KeyOrder(a: Row, b: Row)
    ensures SameKey(a, b) || Less(a, b) || Less(b, a)
    ensures !(Less(a, b) && Less(b, a)) && !(SameKey(a, b) && Less(a, b))
  {
    StringOrder(a.Game(), b.Game());
  }

  lemma KeyTransitive(a: Row, b: Row, c: Row)
    ensures Less(a, b) && Less(b, c) ==> Less(a, c)
    ensures SameKey(a, b) && Less(b, c) ==> Less(a, c)
    ensures Less(a, b) && SameKey(b, c) ==> Less(a, c)
  {
    if StringLess(a.Game(), b.Game()) && StringLess(b.Game(), c.Game()) {
      StringTransitive(a.Game(), b.Game(), c.Game());
    }
  }

  ghost predicate Increasing(rows: seq<Row>) {
    forall i, j :: 0 <= i < j < |rows| ==> Less(rows[i], rows[j])
  }

  /** A strictly increasing sequence is determined by its set of rows. */
  lemma {:induction false} IncreasingIsCanonical(a: seq<Row>, b: seq<Row>)
    requires Increasing(a) && Increasing(b)
    requires forall x :: x in a <==> x in b
    ensures a == b
  {
    assert b != [] ==> b[0] in a;
    if a != [] {
      var last := a[|a| - 1];
      assert last in b && b[|b| - 1] in a;
      var i :| 0 <= i < |b| && b[i] == last;
      var j :| 0 <= j < |a| && a[j] == b[|b| - 1];
      KeyOrder(last, b[|b| - 1]);
      KeyOrder(last, last);
      assert i == |b| - 1;
      var before, before' := a[..|a| - 1], b[..|b| - 1];
      forall x ensures x in before <==> x in before' {
        WithoutLast(a, x);
        WithoutLast(b, x);
      }
      IncreasingIsCanonical(before, before');
      assert a == before + [last] && b == before' + [last];
    }
  }

  lemma WithoutLast(a: seq<Row>, x: Row)
    requires a != [] && Increasing(a)
    ensures x in a[..|a| - 1] <==> x in a && x != a[|a| - 1]
  {
    if x in a && x != a[|a| - 1] {
      var i :| 0 <= i < |a| && a[i] == x;
      assert a[..|a| - 1][i] == x;
    }
    if x in a[..|a| - 1] {
      var i :| 0 <= i < |a| - 1 && a[i] == x;
      KeyOrder(x, x);
      assert Less(a[i], a[|a| - 1]);
    }
  }

  // What the order means

  /** a and b agree on their first k code points, and there a ends or has the smaller one. */
  predicate SmallerAt(a: string, b: string, k: nat) {
    && k <= |a| && k < |b| && a[..k] == b[..k]
    && (k == |a| || a[k] < b[k])
  }

  /** Strings are compared at the first place where they differ. */
  lemma {:induction false} StringLessAtDifference(a: string, b: string)
    ensures StringLess(a, b) <==> exists k: nat :: SmallerAt(a, b, k)
  {
    if a == [] && b != [] {
      assert SmallerAt(a, b, 0);
    } else if a != [] && b != [] {
      StringLessAtDifference(a[1..], b[1..]);
      assert a == [a[0]] + a[1..] && b == [b[0]] + b[1..];
      if a[0] < b[0] {
        assert SmallerAt(a, b, 0);
      }
      if a[0] == b[0] {
        ShiftDifference(a, b);
      }
    }
  }

  lemma ShiftDifference(a: string, b: string)
    requires a != [] && b != [] && a[0] == b[0]
    ensures (exists k: nat :: SmallerAt(a, b, k)) <==> exists k: nat :: SmallerAt(a[1..], b[1..], k)
  {
    if k: nat :| SmallerAt(a[1..], b[1..], k) {
      assert a[..k + 1] == [a[0]] + a[1..][..k] && b[..k + 1] == [b[0]] + b[1..][..k];
      assert SmallerAt(a, b, k + 1);
    }
    if k: nat :| SmallerAt(a, b, k) {
      assert k > 0;
      assert a[1..][..k - 1] == a[..k][1..] && b[1..][..k - 1] == b[..k][1..];
      assert SmallerAt(a[1..], b[1..], k - 1);
    }
  }

  /** Ascending world seeds; within a seed ascending games, and within a game ascending indexes. */
  predicate BySeedGameIndex(rows: seq<Row>) {
    forall i, j :: 0 <= i < j < |rows| ==> InPlace(rows[i].identity, rows[i].index, rows[j].identity, rows[j].index)
  }

  predicate InPlace(a: Identity, m: nat, b: Identity, n: nat) {
    && a.seed <= b.seed
    && (a.seed == b.seed && a.game == b.game ==> m < n)
    && (a.seed == b.seed && a.game != b.game ==> !StringLess(b.game, a.game))
  }

  /** Increasing rows go by seed, game and index, and rows that do are increasing. */
  lemma IncreasingIffInPlace(rows: seq<Row>)
    ensures Increasing(rows) <==> BySeedGameIndex(rows)
  {
    forall i, j | 0 <= i < j < |rows|
      ensures Less(rows[i], rows[j]) <==> InPlace(rows[i].identity, rows[i].index, rows[j].identity, rows[j].index)
    {
      StringOrder(rows[i].Game(), rows[j].Game());
    }
  }
}
