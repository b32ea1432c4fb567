/** The one-pass validator of a native game stream, against a predicate on the whole stream. */
module NativeStream {
  import opened Common

  /** A boundary's kind, round, turn and actor. */
  datatype Signature = Signature(kind: string, round: int, turn: int, actor: Option<string>)

  /** A dataset record, reduced to what the validator reads. */
  datatype Record =
    | Policy(game: string, roster: string, sample: int, policyIndex: int)
    | Value(game: string, roster: string, sample: int, boundary: nat, signature: Signature, viewer: string,
            winner: Option<string>)

  // The whole-stream predicate

  predicate OneGame(rows: seq<Record>) {
    forall i, j :: 0 <= i < j < |rows| ==> rows[i].game == rows[j].game && rows[i].roster == rows[j].roster
  }

  function Policies(rows: seq<Record>): nat {
    if rows == [] then 0 else Policies(rows[..|rows| - 1]) + if rows[|rows| - 1].Policy? then 1 else 0
  }

  /** Sample indexes count the rows and policy indexes the policy rows. */
  predicate Indexed(rows: seq<Record>) {
    forall i :: 0 <= i < |rows| ==> IndexedAt(rows, i)
  }

  predicate IndexedAt(rows: seq<Record>, i: nat)
    requires i < |rows|
  {
    rows[i].sample == i && (rows[i].Policy? ==> rows[i].policyIndex == Policies(rows[..i]))
  }

  function Boundaries(rows: seq<Record>): set<nat> {
    if rows == [] then {}
    else
      Boundaries(rows[..|rows| - 1])
      + match rows[|rows| - 1] { case Policy(_, _, _, _) => {} case v => {v.boundary} }
  }

  /** Boundary groups are numbered from zero without gaps. */
  ghost predicate NoGaps(boundaries: set<nat>) {
    forall b: nat, c: nat :: b in boundaries && c < b ==> c in boundaries
  }

  predicate Ascending(rows: seq<Record>) {
    forall i, j :: 0 <= i < j < |rows| && rows[i].Value? && rows[j].Value? ==> rows[i].boundary <= rows[j].boundary
  }

  /** No policy row lies between two value rows of one boundary. */
  predicate Unsplit(rows: seq<Record>) {
    forall i, k, j :: 0 <= i < k < j < |rows| && rows[i].Value? && rows[j].Value?
        && rows[i].boundary == rows[j].boundary
      ==> rows[k].Value?
  }

  /** Rows of one boundary share its signature and have distinct viewers. */
  predicate Coherent(rows: seq<Record>) {
    forall i, j :: 0 <= i < j < |rows| && rows[i].Value? && rows[j].Value? && rows[i].boundary == rows[j].boundary
      ==> rows[i].signature == rows[j].signature && rows[i].viewer != rows[j].viewer
  }

  predicate OneWinner(rows: seq<Record>) {
    forall i, j :: 0 <= i < j < |rows| && rows[i].Value? && rows[j].Value? ==> rows[i].winner == rows[j].winner
  }

  ghost predicate Grouped(rows: seq<Record>) {
    NoGaps(Boundaries(rows)) && Ascending(rows) && Unsplit(rows)
  }

  ghost predicate Consistent(rows: seq<Record>) {
    OneGame(rows) && Indexed(rows) && Grouped(rows) && Coherent(rows) && OneWinner(rows)
  }

  ghost predicate ValidStream(rows: seq<Record>) {
    rows != [] && Consistent(rows)
  }

  // What one pass has to remember

  /** The place of the last value row, or -1. */
  function LastValue(rows: seq<Record>): (p: int)
    ensures -1 <= p < |rows| && (p >= 0 ==> rows[p].Value?)
    ensures forall k :: p < k < |rows| ==> rows[k].Policy?
  {
    if rows == [] then -1
    else if rows[|rows| - 1].Value? then |rows| - 1
    else LastValue(rows[..|rows| - 1])
  }

  function Viewers(rows: seq<Record>, b: nat): set<string> {
    if rows == [] then {}
    else
      Viewers(rows[..|rows| - 1], b)
      + match rows[|rows| - 1] { case Policy(_, _, _, _) => {} case v => if v.boundary == b then {v.viewer} else {} }
  }

  lemma {:induction false} ViewersAre(rows: seq<Record>, b: nat, viewer: string)
    ensures viewer in Viewers(rows, b) <==>
              exists i :: 0 <= i < |rows| && rows[i].Value? && rows[i].boundary == b && rows[i].viewer == viewer
  {
    if rows != [] {
      var n := |rows| - 1;
      ViewersAre(rows[..n], b, viewer);
      if viewer in Viewers(rows[..n], b) {
        var i :| 0 <= i < n && rows[..n][i].Value? && rows[..n][i].boundary == b && rows[..n][i].viewer == viewer;
        assert rows[i] == rows[..n][i];
      }
      if i :| 0 <= i < |rows| && rows[i].Value? && rows[i].boundary == b && rows[i].viewer == viewer {
        assert i < n ==> rows[..n][i] == rows[i];
      }
    }
  }

  lemma {:induction false} BoundariesAre(rows: seq<Record>, b: nat)
    ensures b in Boundaries(rows) <==> exists i :: 0 <= i < |rows| && rows[i].Value? && rows[i].boundary == b
  {
    if rows != [] {
      var n := |rows| - 1;
      BoundariesAre(rows[..n], b);
      if b in Boundaries(rows[..n]) {
        var i :| 0 <= i < n && rows[..n][i].Value? && rows[..n][i].boundary == b;
        assert rows[i] == rows[..n][i];
      }
      if i :| 0 <= i < |rows| && rows[i].Value? && rows[i].boundary == b {
        assert i < n ==> rows[..n][i] == rows[i];
      }
    }
  }

  // One more row

  lemma OneGameSnoc(rows: seq<Record>, r: Record)
    ensures OneGame(rows + [r]) <==>
              OneGame(rows) && (rows != [] ==> r.game == rows[0].game && r.roster == rows[0].roster)
  {
    var all := rows + [r];
    if OneGame(all) {
      forall i, j | 0 <= i < j < |rows| ensures rows[i].game == rows[j].game && rows[i].roster == rows[j].roster {
        assert all[i] == rows[i] && all[j] == rows[j];
      }
      assert rows != [] ==> all[0] == rows[0] && all[|rows|] == r;
    }
  }

  lemma IndexedSnoc(rows: seq<Record>, r: Record)
    ensures Indexed(rows + [r]) <==>
              Indexed(rows) && r.sample == |rows| && (r.Policy? ==> r.policyIndex == Policies(rows))
  {
    var all := rows + [r];
    assert all[..|rows|] == rows;
    forall i | 0 <= i < |rows| ensures IndexedAt(all, i) <==> IndexedAt(rows, i) {
      assert all[..i] == rows[..i];
    }
    assert IndexedAt(all, |rows|) <==> r.sample == |rows| && (r.Policy? ==> r.policyIndex == Policies(rows));
  }

  /** Whether the last row is a value row: its boundary is still open. */
  predicate Open(rows: seq<Record>) {
    rows != [] && rows[|rows| - 1].Value?
  }

  /** The boundary indexes that a value row may carry next. */
  predicate MayFollow(rows: seq<Record>, b: nat) {
    var p := LastValue(rows);
    if p < 0 then b == 0 else (Open(rows) && b == rows[p].boundary) || b == rows[p].boundary + 1
  }

  lemma LastIsGreatest(rows: seq<Record>, i: nat)
    requires Ascending(rows) && i < |rows| && rows[i].Value?
    ensures LastValue(rows) >= i && rows[i].boundary <= rows[LastValue(rows)].boundary
  {
  }

  lemma PolicyKeepsGroups(rows: seq<Record>, r: Record)
    requires r.Policy?
    ensures Grouped(rows + [r]) <==> Grouped(rows)
    ensures Coherent(rows + [r]) <==> Coherent(rows)
    ensures OneWinner(rows + [r]) <==> OneWinner(rows)
  {
    var all := rows + [r];
    assert all[..|rows|] == rows;
    assert forall i :: 0 <= i < |rows| ==> all[i] == rows[i];
    if Grouped(all) {
      assert Ascending(rows) && Unsplit(rows);
    }
  }

  lemma OneMoreGroup(boundaries: set<nat>, b: nat)
    requires NoGaps(boundaries) && (b == 0 || b in boundaries || b - 1 in boundaries)
    ensures NoGaps(boundaries + {b})
  {
    forall c: nat | c < b ensures c in boundaries {
      assert c < b - 1 || c == b - 1;
    }
  }

  lemma SnocNoGaps(rows: seq<Record>, r: Record)
    requires r.Value? && NoGaps(Boundaries(rows)) && MayFollow(rows, r.boundary)
    ensures NoGaps(Boundaries(rows + [r]))
  {
    var p := LastValue(rows);
    assert (rows + [r])[..|rows|] == rows;
    if p >= 0 {
      BoundariesAre(rows, rows[p].boundary);
    }
    OneMoreGroup(Boundaries(rows), r.boundary);
  }

  lemma SnocAscending(rows: seq<Record>, r: Record)
    requires r.Value? && Grouped(rows) && MayFollow(rows, r.boundary)
    ensures Ascending(rows + [r])
  {
    forall i | 0 <= i < |rows| && rows[i].Value? ensures rows[i].boundary <= r.boundary {
      LastIsGreatest(rows, i);
    }
  }

  lemma SnocUnsplit(rows: seq<Record>, r: Record)
    requires r.Value? && Grouped(rows) && MayFollow(rows, r.boundary)
    ensures Unsplit(rows + [r])
  {
    var n, p := |rows|, LastValue(rows);
    forall i, k | 0 <= i < k < n && rows[i].Value? && rows[i].boundary == r.boundary ensures rows[k].Value? {
      LastIsGreatest(rows, i);
      assert rows[p].boundary == r.boundary && p == n - 1;
    }
  }

  lemma SnocGroups(rows: seq<Record>, r: Record)
    requires r.Value? && Grouped(rows) && MayFollow(rows, r.boundary)
    ensures Grouped(rows + [r])
  {
    SnocNoGaps(rows, r);
    SnocAscending(rows, r);
    SnocUnsplit(rows, r);
  }

  lemma SnocGroupsOnly(rows: seq<Record>, r: Record)
    requires r.Value? && Grouped(rows + [r])
    ensures MayFollow(rows, r.boundary)
  {
    var all, n, p, b := rows + [r], |rows|, LastValue(rows), r.boundary;
    assert forall i :: 0 <= i < n ==> all[i] == rows[i];
    assert all[n] == r;
    if b > 0 {
      PreviousWasSeen(rows, r);
    }
    if p >= 0 {
      assert all[p].boundary <= all[n].boundary;
      assert p < n - 1 ==> all[n - 1].Policy?;
    }
  }

  /** A boundary index other than zero follows its predecessor. */
  lemma PreviousWasSeen(rows: seq<Record>, r: Record)
    requires r.Value? && r.boundary > 0 && Grouped(rows + [r])
    ensures LastValue(rows) >= 0 && r.boundary - 1 <= rows[LastValue(rows)].boundary
  {
    var all, n, p, b := rows + [r], |rows|, LastValue(rows), r.boundary;
    var c: nat := b - 1;
    assert all[..n] == rows && Boundaries(all) == Boundaries(rows) + {b};
    assert b in Boundaries(all) && c in Boundaries(all);
    BoundariesAre(rows, c);
    var i :| 0 <= i < n && rows[i].Value? && rows[i].boundary == c;
    assert p >= i && all[i] == rows[i] && all[p] == rows[p];
    assert all[i].boundary <= all[p].boundary;
  }

  lemma GroupedPrefix(rows: seq<Record>, r: Record)
    requires Grouped(rows + [r])
    ensures Grouped(rows)
  {
    var all, n := rows + [r], |rows|;
    assert all[..n] == rows;
    assert forall i :: 0 <= i < n ==> all[i] == rows[i];
    forall b: nat, c: nat | b in Boundaries(rows) && c < b ensures c in Boundaries(rows) {
      assert c in Boundaries(all);
      BoundariesAre(rows, b);
      var i :| 0 <= i < n && rows[i].Value? && rows[i].boundary == b;
      assert r.Value? ==> all[i].boundary <= all[n].boundary;
    }
  }

  /** The groups stay well formed exactly when the boundary index may follow. */
  lemma GroupedSnoc(rows: seq<Record>, r: Record)
    requires r.Value?
    ensures Grouped(rows + [r]) <==> Grouped(rows) && MayFollow(rows, r.boundary)
  {
    if Grouped(rows + [r]) {
      GroupedPrefix(rows, r);
      SnocGroupsOnly(rows, r);
    } else if Grouped(rows) && MayFollow(rows, r.boundary) {
      SnocGroups(rows, r);
    }
  }

  /** Within the last group the signature and the viewers decide coherence; a new group is free. */
  lemma CoherentSnoc(rows: seq<Record>, r: Record)
    requires r.Value? && Grouped(rows) && MayFollow(rows, r.boundary)
    ensures var p := LastValue(rows);
            Coherent(rows + [r]) <==>
              Coherent(rows) && (p >= 0 && r.boundary == rows[p].boundary ==>
                r.signature == rows[p].signature && r.viewer !in Viewers(rows, r.boundary))
  {
    var all, n, p := rows + [r], |rows|, LastValue(rows);
    assert forall i :: 0 <= i < n ==> all[i] == rows[i];
    ViewersAre(rows, r.boundary, r.viewer);
    forall i | 0 <= i < n && rows[i].Value? ensures p >= i && rows[i].boundary <= rows[p].boundary {
      LastIsGreatest(rows, i);
    }
    if Coherent(all) {
      assert Coherent(rows);
      if p >= 0 && r.boundary == rows[p].boundary {
        assert all[p].signature == all[n].signature;
      }
    }
  }

  lemma OneWinnerSnoc(rows: seq<Record>, r: Record)
    requires r.Value?
    ensures OneWinner(rows + [r]) <==>
              OneWinner(rows) && (LastValue(rows) >= 0 ==> r.winner == rows[LastValue(rows)].winner)
  {
    var all, n, p := rows + [r], |rows|, LastValue(rows);
    assert forall i :: 0 <= i < n ==> all[i] == rows[i];
    if OneWinner(all) {
      assert OneWinner(rows);
      assert p >= 0 ==> all[p].winner == all[n].winner;
    }
  }

  // The validator

  /** What one row has to satisfy after the given ones, in terms of what is remembered of them. */
  predicate Fits(rows: seq<Record>, r: Record) {
    var p := LastValue(rows);
    && (rows != [] ==> r.game == rows[0].game && r.roster == rows[0].roster)
    && r.sample == |rows|
    && match r
       case Policy(_, _, _, index) => index == Policies(rows)
       case Value(_, _, _, b, signature, viewer, winner) =>
         && MayFollow(rows, b)
         && (p >= 0 && b == rows[p].boundary ==> signature == rows[p].signature && viewer !in Viewers(rows, b))
         && (p >= 0 ==> winner == rows[p].winner)
  }

  /** One row keeps the stream consistent exactly when it fits. */
  lemma ConsistentSnoc(rows: seq<Record>, r: Record)
    ensures Consistent(rows + [r]) <==> Consistent(rows) && Fits(rows, r)
  {
    OneGameSnoc(rows, r);
    IndexedSnoc(rows, r);
    if r.Policy? {
      PolicyKeepsGroups(rows, r);
    } else {
      GroupedSnoc(rows, r);
      OneWinnerSnoc(rows, r);
      if Grouped(rows) && MayFollow(rows, r.boundary) {
        CoherentSnoc(rows, r);
      }
    }
  }

  /** A row that breaks a consistent stream breaks every continuation. */
  lemma ConsistentPrefix(rows: seq<Record>, n: nat)
    requires n <= |rows| && Consistent(rows)
    ensures Consistent(rows[..n])
    decreases |rows| - n
  {
    if n < |rows| {
      ConsistentPrefix(rows, n + 1);
      assert rows[..n + 1] == rows[..n] + [rows[n]];
      ConsistentSnoc(rows[..n], rows[n]);
    } else {
      assert rows[..n] == rows;
    }
  }

  class OneGameValidator {
    var game: Option<(string, string)>  // game and roster
    var nextSample: nat
    var nextPolicy: nat
    var boundary: Option<nat>
    var signature: Option<Signature>
    var viewers: set<string>
    var boundaryOpen: bool
    var winner: Option<Option<string>>
    ghost var seen: seq<Record>  // the accepted rows

    /** The fields are what one pass remembers of the accepted rows. */
    ghost predicate Valid()
      reads this
    {
      && game == (if seen == [] then None else Some((seen[0].game, seen[0].roster)))
      && nextSample == |seen| && nextPolicy == Policies(seen) && boundaryOpen == Open(seen)
      && RemembersBoundary()
    }

    ghost predicate RemembersBoundary()
      reads this
    {
      var p := LastValue(seen);
      && boundary == (if p < 0 then None else Some(seen[p].boundary))
      && signature == (if p < 0 then None else Some(seen[p].signature))
      && winner == (if p < 0 then None else Some(seen[p].winner))
      && viewers == (if p < 0 then {} else Viewers(seen, seen[p].boundary))
    }

    constructor ()
      ensures Valid() && seen == []
    {
      game, nextSample, nextPolicy, boundary, signature, winner := None, 0, 0, None, None, None;
      viewers, boundaryOpen, seen := {}, false, [];
    }

    /** Accept a row exactly when the stream stays consistent. */
    method Accept(r: Record) returns (ok: bool)
      requires Valid() && Consistent(seen)
      modifies this
      ensures ok <==> Consistent(old(seen) + [r])
      ensures ok ==> Valid() && seen == old(seen) + [r]
    {
      ConsistentSnoc(seen, r);
      NewGroupHasNoViewers(seen, r);
      ok := Check(r);
    }

    method Check(r: Record) returns (ok: bool)
      requires Valid()
      requires r.Value? && !Continues(seen, r.boundary) && MayFollow(seen, r.boundary) ==>
                Viewers(seen, r.boundary) == {}
      modifies this
      ensures ok <==> Fits(old(seen), r)
      ensures ok ==> Valid() && seen == old(seen) + [r]
    {
      if game.None? {
        game := Some((r.game, r.roster));
      } else if game.value != (r.game, r.roster) {
        return false;
      }
      if r.sample != nextSample {
        return false;
      }
      nextSample := nextSample + 1;
      if r.Policy? {
        ok := CheckPolicy(r);
      } else {
        ok := CheckValue(r);
      }
    }

    method CheckPolicy(r: Record) returns (ok: bool)
      requires r.Policy? && (seen != [] ==> r.game == seen[0].game && r.roster == seen[0].roster) && r.sample == |seen|
      requires game == Some((r.game, r.roster)) && nextSample == |seen| + 1 && nextPolicy == Policies(seen)
      requires RemembersBoundary()
      modifies this
      ensures ok <==> Fits(old(seen), r)
      ensures ok ==> Valid() && seen == old(seen) + [r]
    {
      if r.policyIndex != nextPolicy {
        return false;
      }
      PolicyRemembered(seen, r);
      nextPolicy := nextPolicy + 1;
      boundaryOpen := false;
      seen := seen + [r];
      ok := true;
    }

    /** The boundary, viewer and winner checks of a value row. */
    method CheckValue(r: Record) returns (ok: bool)
      requires r.Value? && (seen != [] ==> r.game == seen[0].game && r.roster == seen[0].roster) && r.sample == |seen|
      requires !Continues(seen, r.boundary) && MayFollow(seen, r.boundary) ==> Viewers(seen, r.boundary) == {}
      requires game == Some((r.game, r.roster)) && nextSample == |seen| + 1 && nextPolicy == Policies(seen)
      requires boundaryOpen == Open(seen) && RemembersBoundary()
      modifies this
      ensures ok <==> Fits(old(seen), r)
      ensures ok ==> Valid() && seen == old(seen) + [r]
    {
      ValueRemembered(seen, r);
      if boundary.None? {
        if r.boundary != 0 {
          return false;
        }
        OpenBoundary(r);
      } else if boundaryOpen && r.boundary == boundary.value {
        if r.signature != signature.value {
          return false;
        }
      } else {
        if r.boundary != boundary.value + 1 {
          return false;
        }
        OpenBoundary(r);
      }
      if r.viewer in viewers {
        return false;
      }
      viewers := viewers + {r.viewer};
      boundaryOpen := true;
      if winner.None? {
        winner := Some(r.winner);
      } else if r.winner != winner.value {
        return false;
      }
      seen := seen + [r];
      ok := true;
    }

    method OpenBoundary(r: Record)
      requires r.Value?
      modifies `boundary, `signature, `viewers, `boundaryOpen
      ensures boundary == Some(r.boundary) && signature == Some(r.signature) && viewers == {} && boundaryOpen
    {
      boundary, signature, viewers, boundaryOpen := Some(r.boundary), Some(r.signature), {}, true;
    }

    /** At the end of the stream, only an empty one is left to reject. */
    method Finish() returns (ok: bool)
      requires Valid() && Consistent(seen)
      ensures ok <==> ValidStream(seen)
    {
      ok := nextSample != 0;
    }
  }

  lemma PolicyRemembered(rows: seq<Record>, r: Record)
    requires r.Policy?
    ensures var all := rows + [r];
            && Policies(all) == Policies(rows) + 1 && LastValue(all) == LastValue(rows) && !Open(all)
            && forall b :: Viewers(all, b) == Viewers(rows, b)
  {
    assert (rows + [r])[..|rows|] == rows;
  }

  /** The row belongs to the group of the last value row. */
  predicate Continues(rows: seq<Record>, b: nat) {
    var p := LastValue(rows);
    p >= 0 && b == rows[p].boundary
  }

  lemma ValueRemembered(rows: seq<Record>, r: Record)
    requires r.Value?
    ensures var all := rows + [r];
            && Policies(all) == Policies(rows) && LastValue(all) == |rows| && Open(all)
            && Viewers(all, r.boundary) == Viewers(rows, r.boundary) + {r.viewer}
  {
    assert (rows + [r])[..|rows|] == rows;
  }

  lemma NewGroupHasNoViewers(rows: seq<Record>, r: Record)
    requires Ascending(rows)
    ensures r.Value? && !Continues(rows, r.boundary) && MayFollow(rows, r.boundary) ==> Viewers(rows, r.boundary) == {}
  {
    if r.Value? && !Continues(rows, r.boundary) && MayFollow(rows, r.boundary) {
      forall v ensures v !in Viewers(rows, r.boundary) {
        ViewersAre(rows, r.boundary, v);
      }
    }
  }

  /** The validator over a whole stream decides the whole-stream predicate. */
  method ValidateStream(rows: seq<Record>) returns (ok: bool)
    ensures ok <==> ValidStream(rows)
  {
    var validator := new OneGameValidator();
    for i := 0 to |rows|
      invariant validator.Valid() && fresh(validator) && validator.seen == rows[..i]
      invariant Consistent(rows[..i])
    {
      assert rows[..i + 1] == rows[..i] + [rows[i]];
      ok := validator.Accept(rows[i]);
      if !ok {
        NeverAgain(rows, i + 1);
        return false;
      }
    }
    assert rows[..|rows|] == rows;
    ok := validator.Finish();
  }

  lemma NeverAgain(rows: seq<Record>, n: nat)
    requires n <= |rows| && !Consistent(rows[..n])
    ensures !Consistent(rows)
  {
    if Consistent(rows) {
      ConsistentPrefix(rows, n);
    }
  }

  // What a valid stream is

  /** The next value row after i, policy rows between them aside. */
  predicate NextValue(rows: seq<Record>, i: nat, j: nat) {
    && i < j < |rows| && rows[i].Value? && rows[j].Value?
    && forall k :: i < k < j ==> rows[k].Policy?
  }

  predicate FirstValue(rows: seq<Record>, j: nat) {
    j < |rows| && rows[j].Value? && forall k :: 0 <= k < j ==> rows[k].Policy?
  }

  /** The first boundary is 0; from one value row to the next the boundary stays the same, if no
      policy row intervenes, or increases by one. */
  predicate StepsOn(rows: seq<Record>, j: nat) {
    && (FirstValue(rows, j) ==> rows[j].boundary == 0)
    && forall i: nat :: i < j && NextValue(rows, i, j) ==>
         || rows[j].boundary == rows[i].boundary + 1
         || (rows[j].boundary == rows[i].boundary && j == i + 1)
  }

  lemma FollowMeans(rows: seq<Record>, m: nat)
    requires m < |rows| && rows[m].Value?
    ensures MayFollow(rows[..m], rows[m].boundary) <==> StepsOn(rows, m)
  {
    var p := LastValue(rows[..m]);
    if p < 0 {
      assert FirstValue(rows, m);
    } else {
      assert rows[p] == rows[..m][p];
      assert NextValue(rows, p, m);
      forall i: nat | i < m && NextValue(rows, i, m) ensures i == p {
      }
    }
  }

  /** The next policy row after i, value rows between them aside. */
  predicate NextPolicy(rows: seq<Record>, i: nat, j: nat) {
    && i < j < |rows| && rows[i].Policy? && rows[j].Policy?
    && forall k :: i < k < j ==> rows[k].Value?
  }

  predicate FirstPolicy(rows: seq<Record>, j: nat) {
    j < |rows| && rows[j].Policy? && forall k :: 0 <= k < j ==> rows[k].Value?
  }

  /** Policy rows are numbered from 0, one by one. */
  predicate NumbersOn(rows: seq<Record>, j: nat) {
    && (FirstPolicy(rows, j) ==> rows[j].policyIndex == 0)
    && forall i: nat :: i < j && NextPolicy(rows, i, j) ==> rows[j].policyIndex == rows[i].policyIndex + 1
  }

  /** From one value row to the next the winner stays, and in one boundary its signature. */
  predicate Keeps(rows: seq<Record>, j: nat) {
    forall i: nat :: i < j && NextValue(rows, i, j) ==>
      && rows[j].winner == rows[i].winner
      && (rows[j].boundary == rows[i].boundary ==> rows[j].signature == rows[i].signature)
  }

  predicate NewViewer(rows: seq<Record>, j: nat)
    requires j < |rows|
  {
    forall i :: 0 <= i < j && rows[i].Value? && rows[j].Value? && rows[i].boundary == rows[j].boundary ==>
      rows[i].viewer != rows[j].viewer
  }

  /** A row against its neighbours. */
  predicate GoesOn(rows: seq<Record>, j: nat)
    requires j < |rows|
  {
    && (j > 0 ==> rows[j].game == rows[j - 1].game && rows[j].roster == rows[j - 1].roster)
    && rows[j].sample == j
    && NumbersOn(rows, j) && StepsOn(rows, j) && Keeps(rows, j) && NewViewer(rows, j)
  }

  /** A stream is valid exactly when it has rows and each of them goes on from its neighbours. */
  lemma StreamMeans(rows: seq<Record>)
    ensures ValidStream(rows) <==> rows != [] && forall j :: 0 <= j < |rows| ==> GoesOn(rows, j)
  {
    PrefixMeans(rows, |rows|);
    assert rows[..|rows|] == rows;
  }

  lemma {:induction false} PrefixMeans(rows: seq<Record>, n: nat)
    requires n <= |rows|
    ensures Consistent(rows[..n]) <==> forall j :: 0 <= j < n ==> GoesOn(rows, j)
  {
    hide Consistent, GoesOn, Fits;
    if n > 0 {
      var m := n - 1;
      PrefixMeans(rows, m);
      assert rows[..n] == rows[..m] + [rows[m]];
      ConsistentSnoc(rows[..m], rows[m]);
      if Consistent(rows[..m]) {
        FitsMeans(rows, m);
      }
    } else {
      assert rows[..0] == [];
      NothingIsConsistent();
    }
  }

  lemma NothingIsConsistent()
    ensures Consistent([])
  {
  }

  lemma FitsMeans(rows: seq<Record>, m: nat)
    requires m < |rows| && Consistent(rows[..m])
    ensures Fits(rows[..m], rows[m]) <==> GoesOn(rows, m)
  {
    hide NumbersOn, StepsOn, Keeps, NewViewer, MayFollow, Consistent;
    SameGameMeans(rows, m);
    if rows[m].Policy? {
      NumberMeans(rows, m);
      OnlyPolicies(rows, m);
    } else {
      FollowMeans(rows, m);
      KeptMeans(rows, m);
      if MayFollow(rows[..m], rows[m].boundary) {
        ViewerMeans(rows, m);
      }
      OnlyValues(rows, m);
    }
  }

  lemma SameGameMeans(rows: seq<Record>, m: nat)
    requires m < |rows| && Consistent(rows[..m])
    ensures (rows[..m] != [] ==> rows[m].game == rows[..m][0].game && rows[m].roster == rows[..m][0].roster) <==>
              (m > 0 ==> rows[m].game == rows[m - 1].game && rows[m].roster == rows[m - 1].roster)
  {
    if m > 1 {
      assert rows[..m][0].game == rows[..m][m - 1].game && rows[..m][0].roster == rows[..m][m - 1].roster;
    }
  }

  lemma OnlyPolicies(rows: seq<Record>, m: nat)
    requires m < |rows| && rows[m].Policy?
    ensures StepsOn(rows, m) && Keeps(rows, m) && NewViewer(rows, m)
  {
  }

  lemma OnlyValues(rows: seq<Record>, m: nat)
    requires m < |rows| && rows[m].Value?
    ensures NumbersOn(rows, m)
  {
  }

  /** The policy rows before m, counted from the last of them. */
  lemma {:induction false} CountFromLast(rows: seq<Record>, p: nat, m: nat)
    requires p < m <= |rows| && rows[p].Policy? && forall k :: p < k < m ==> rows[k].Value?
    ensures Policies(rows[..m]) == Policies(rows[..p]) + 1
  {
    assert rows[..m][..m - 1] == rows[..m - 1];
    if p < m - 1 {
      CountFromLast(rows, p, m - 1);
    }
  }

  lemma {:induction false} LastPolicy(rows: seq<Record>, m: nat) returns (p: int)
    requires m <= |rows|
    ensures -1 <= p < m && (p >= 0 ==> rows[p].Policy?) && forall k :: p < k < m ==> rows[k].Value?
    ensures p == -1 ==> Policies(rows[..m]) == 0
  {
    if m == 0 {
      p := -1;
    } else {
      p := LastPolicy(rows, m - 1);
      assert rows[..m][..m - 1] == rows[..m - 1];
      if rows[m - 1].Policy? {
        p := m - 1;
      }
    }
  }

  lemma NumberMeans(rows: seq<Record>, m: nat)
    requires m < |rows| && Consistent(rows[..m]) && rows[m].Policy?
    ensures rows[m].policyIndex == Policies(rows[..m]) <==> NumbersOn(rows, m)
  {
    var p := LastPolicy(rows, m);
    if p < 0 {
      assert FirstPolicy(rows, m);
    } else {
      CountFromLast(rows, p, m);
      assert IndexedAt(rows[..m], p) && rows[..m][..p] == rows[..p];
      assert NextPolicy(rows, p, m);
      forall i: nat | i < m && NextPolicy(rows, i, m) ensures i == p {
      }
    }
  }

  lemma KeptMeans(rows: seq<Record>, m: nat)
    requires m < |rows| && rows[m].Value?
    ensures var p := LastValue(rows[..m]);
            Keeps(rows, m) <==>
              && (p >= 0 && rows[m].boundary == rows[..m][p].boundary ==> rows[m].signature == rows[..m][p].signature)
              && (p >= 0 ==> rows[m].winner == rows[..m][p].winner)
  {
    var p := LastValue(rows[..m]);
    forall k | 0 <= k < m ensures rows[..m][k] == rows[k] {
    }
    if p >= 0 {
      assert NextValue(rows, p, m);
      forall i: nat | i < m && NextValue(rows, i, m) ensures i == p {
      }
    }
  }

  lemma ViewerMeans(rows: seq<Record>, m: nat)
    requires m < |rows| && rows[m].Value? && Consistent(rows[..m])
    requires MayFollow(rows[..m], rows[m].boundary)
    ensures var p := LastValue(rows[..m]);
            NewViewer(rows, m) <==>
              (p >= 0 && rows[m].boundary == rows[..m][p].boundary ==>
                 rows[m].viewer !in Viewers(rows[..m], rows[m].boundary))
  {
    var before, r := rows[..m], rows[m];
    ViewersAre(before, r.boundary, r.viewer);
    NewGroupHasNoViewers(before, r);
    forall i | 0 <= i < m ensures before[i] == rows[i] {
    }
    forall i | 0 <= i < m && rows[i].Value? && rows[i].boundary == r.boundary
      ensures rows[i].viewer in Viewers(before, r.boundary)
    {
      ViewersAre(before, r.boundary, rows[i].viewer);
    }
  }
}
