/** Reading newline-terminated rows from decompressed chunks, three ways. */
module Lines {
  import opened Common

  const NEWLINE: Byte := 10

  /** The complete lines of a byte string, without their newlines. */
  function LinesOf(s: seq<Byte>): seq<seq<Byte>> {
    if s == [] then []
    else
      var init := s[..|s| - 1];
      if s[|s| - 1] == NEWLINE then LinesOf(init) + [RestOf(init)] else LinesOf(init)
  }

  /** What follows the last newline. */
  function RestOf(s: seq<Byte>): seq<Byte> {
    if s == [] then []
    else if s[|s| - 1] == NEWLINE then []
    else RestOf(s[..|s| - 1]) + [s[|s| - 1]]
  }

  /** The writers' form: every row followed by a newline. */
  function Encoded(rows: seq<seq<Byte>>): seq<Byte> {
    if rows == [] then [] else Encoded(rows[..|rows| - 1]) + (rows[|rows| - 1] + [NEWLINE])
  }

  predicate Plain(row: seq<Byte>) {
    forall i :: 0 <= i < |row| ==> row[i] != NEWLINE
  }

  predicate AllPlain(rows: seq<seq<Byte>>) {
    forall i :: 0 <= i < |rows| ==> Plain(rows[i])
  }

  lemma EncodedSnoc(rows: seq<seq<Byte>>, row: seq<Byte>)
    ensures Encoded(rows + [row]) == Encoded(rows) + (row + [NEWLINE])
  {
    assert (rows + [row])[..|rows|] == rows;
  }

  lemma Reassociate(a: seq<Byte>, b: seq<Byte>, c: seq<Byte>)
    ensures a + (b + c) == a + b + c
  {
  }

  /** Splitting loses nothing and leaves no newline inside a line. */
  lemma {:induction false} SplitJoins(s: seq<Byte>)
    ensures Encoded(LinesOf(s)) + RestOf(s) == s
    ensures AllPlain(LinesOf(s)) && Plain(RestOf(s))
  {
    if s != [] {
      var init, last := s[..|s| - 1], s[|s| - 1];
      SplitJoins(init);
      var lines, rest := LinesOf(init), RestOf(init);
      EncodedSnoc(lines, rest);
      Reassociate(Encoded(lines), rest, [last]);
      assert s == init + [last];
    }
  }

  /** What is written: each row and a line feed, byte 10, after it. */
  lemma {:induction false} EncodedMeans(a: seq<seq<Byte>>, b: seq<seq<Byte>>)
    ensures Encoded([]) == [] && forall row: seq<Byte> :: Encoded([row]) == row + [10]
    ensures Encoded(a + b) == Encoded(a) + Encoded(b)
  {
    forall row: seq<Byte> ensures Encoded([row]) == row + [10] {
      assert [row][..0] == [];
    }
    if b == [] {
      assert a + b == a;
    } else {
      var n := |b| - 1;
      EncodedMeans(a, b[..n]);
      assert (a + b)[..|a + b| - 1] == a + b[..n];
      Reassociate(Encoded(a), Encoded(b[..n]), b[n] + [NEWLINE]);
    }
  }

  /** As many lines as line feeds, none of them inside a line. */
  lemma {:induction false} LinesMean(s: seq<Byte>)
    ensures |LinesOf(s)| == multiset(s)[10]
    ensures (forall line <- LinesOf(s) :: 10 !in line) && 10 !in RestOf(s)
  {
    SplitJoins(s);
    if s != [] {
      LinesMean(s[..|s| - 1]);
      assert s == s[..|s| - 1] + [s[|s| - 1]];
    }
  }

  /** A string without newlines is one unfinished line. */
  lemma {:induction false} PlainRest(row: seq<Byte>)
    requires Plain(row)
    ensures LinesOf(row) == [] && RestOf(row) == row
  {
    if row != [] {
      PlainRest(row[..|row| - 1]);
      assert row == row[..|row| - 1] + [row[|row| - 1]];
    }
  }

  /** Splitting may stop anywhere and go on from what was left. */
  lemma {:induction false} SplitConcat(a: seq<Byte>, b: seq<Byte>)
    ensures LinesOf(a + b) == LinesOf(a) + LinesOf(RestOf(a) + b)
    ensures RestOf(a + b) == RestOf(RestOf(a) + b)
  {
    if b == [] {
      assert a + b == a && RestOf(a) + b == RestOf(a);
      SplitJoins(a);
      PlainRest(RestOf(a));
    } else {
      var init, last := b[..|b| - 1], b[|b| - 1];
      SplitConcat(a, init);
      assert (a + b)[..|a + b| - 1] == a + init;
      var c := RestOf(a) + b;
      assert c[..|c| - 1] == RestOf(a) + init && c[|c| - 1] == last;
    }
  }

  lemma OneLine(row: seq<Byte>)
    requires Plain(row)
    ensures LinesOf(row + [NEWLINE]) == [row] && RestOf(row + [NEWLINE]) == []
  {
    PlainRest(row);
    assert (row + [NEWLINE])[..|row|] == row;
  }

  /** Reading undoes writing, and what is left of an unfinished row stays apart. */
  lemma {:induction false} ReadWritten(rows: seq<seq<Byte>>, tail: seq<Byte>)
    requires AllPlain(rows) && Plain(tail)
    ensures LinesOf(Encoded(rows) + tail) == rows && RestOf(Encoded(rows) + tail) == tail
  {
    var n := |rows| - 1;
    if rows == [] {
      assert Encoded(rows) + tail == tail;
      PlainRest(tail);
    } else {
      var init, last := rows[..n], rows[n];
      ReadWritten(init, []);
      assert Encoded(init) + [] == Encoded(init);
      var line := last + [NEWLINE];
      OneLine(last);
      SplitConcat(Encoded(init), line);
      assert [] + line == line;
      SplitConcat(Encoded(rows), tail);
      assert [] + tail == tail;
      PlainRest(tail);
      assert rows == init + [last];
    }
  }

  /** The split is the only one there is. */
  lemma SplitIsUnique(s: seq<Byte>, rows: seq<seq<Byte>>, tail: seq<Byte>)
    requires AllPlain(rows) && Plain(tail) && Encoded(rows) + tail == s
    ensures rows == LinesOf(s) && tail == RestOf(s)
  {
    ReadWritten(rows, tail);
  }

  lemma RestIsEmptyAtNewline(s: seq<Byte>)
    ensures RestOf(s) == [] <==> s == [] || s[|s| - 1] == NEWLINE
  {
  }

  // The readers

  /** The place of the first newline, or the length. */
  method FindNewline(s: seq<Byte>) returns (i: nat)
    ensures i <= |s| && Plain(s[..i]) && (i < |s| ==> s[i] == NEWLINE)
  {
    i := 0;
    while i < |s| && s[i] != NEWLINE
      invariant i <= |s| && Plain(s[..i])
    {
      assert s[..i + 1] == s[..i] + [s[i]];
      i := i + 1;
    }
  }

  lemma FromEmptyRest(a: seq<Byte>, b: seq<Byte>)
    requires RestOf(a) == []
    ensures LinesOf(a + b) == LinesOf(a) + LinesOf(b) && RestOf(a + b) == RestOf(b)
  {
    SplitConcat(a, b);
    assert [] + b == b;
  }

  lemma TakeLine(s: seq<Byte>, i: nat)
    requires i < |s| && s[i] == NEWLINE && Plain(s[..i])
    ensures LinesOf(s) == [s[..i]] + LinesOf(s[i + 1..]) && RestOf(s) == RestOf(s[i + 1..])
  {
    var row, tail := s[..i], s[i + 1..];
    assert s == row + [NEWLINE] + tail;
    OneLine(row);
    FromEmptyRest(row + [NEWLINE], tail);
  }

  /** Yield the buffered complete lines one at a time. */
  method Drain(pending: seq<Byte>) returns (lines: seq<seq<Byte>>, rest: seq<Byte>)
    ensures lines == LinesOf(pending) && rest == RestOf(pending)
  {
    hide LinesOf, RestOf, Plain;
    lines, rest := [], pending;
    assert [] + LinesOf(pending) == LinesOf(pending);
    var i := FindNewline(rest);
    while i < |rest|
      invariant 0 <= i <= |rest| && Plain(rest[..i]) && (i < |rest| ==> rest[i] == NEWLINE)
      invariant LinesOf(pending) == lines + LinesOf(rest) && RestOf(pending) == RestOf(rest)
      decreases |rest|
    {
      TakeLine(rest, i);
      assert lines + [rest[..i]] + LinesOf(rest[i + 1..]) == lines + ([rest[..i]] + LinesOf(rest[i + 1..]));
      lines, rest := lines + [rest[..i]], rest[i + 1..];
      i := FindNewline(rest);
    }
    assert rest[..i] == rest;
    PlainRest(rest);
  }

  /** bytes.split: every piece between newlines, the unfinished one last. */
  function Pieces(s: seq<Byte>): seq<seq<Byte>> {
    LinesOf(s) + [RestOf(s)]
  }

  lemma ConcatStep(parts: seq<seq<Byte>>, i: nat)
    requires i < |parts|
    ensures Concat(parts[..i + 1]) == Concat(parts[..i]) + parts[i]
  {
    assert parts[..i + 1][..i] == parts[..i];
  }

  /** The joint dataset's reader: drain after every chunk, and once more at the end. */
  method ReadDataset(chunks: seq<seq<Byte>>, flushed: seq<Byte>) returns (lines: seq<seq<Byte>>, ok: bool)
    ensures var s := Concat(chunks) + flushed;
            lines == LinesOf(s) && (ok <==> s == [] || s[|s| - 1] == NEWLINE)
  {
    var pending: seq<Byte> := [];
    lines := [];
    for i := 0 to |chunks|
      invariant lines == LinesOf(Concat(chunks[..i])) && pending == RestOf(Concat(chunks[..i]))
    {
      ConcatStep(chunks, i);
      SplitConcat(Concat(chunks[..i]), chunks[i]);
      var more;
      more, pending := Drain(pending + chunks[i]);
      lines := lines + more;
    }
    assert chunks[..|chunks|] == chunks;
    SplitConcat(Concat(chunks), flushed);
    var more;
    more, pending := Drain(pending + flushed);
    lines := lines + more;
    RestIsEmptyAtNewline(Concat(chunks) + flushed);
    ok := pending == [];
  }

  /** The native reader: split each chunk at once and keep the last piece. */
  method ReadNative(chunks: seq<seq<Byte>>, flushed: seq<Byte>) returns (lines: seq<seq<Byte>>, ok: bool)
    ensures var s := Concat(chunks) + flushed;
            lines == LinesOf(s) && (ok <==> s == [] || s[|s| - 1] == NEWLINE)
  {
    var pending: seq<Byte> := [];
    lines := [];
    for i := 0 to |chunks|
      invariant lines == LinesOf(Concat(chunks[..i])) && pending == RestOf(Concat(chunks[..i]))
    {
      ConcatStep(chunks, i);
      SplitConcat(Concat(chunks[..i]), chunks[i]);
      var parts := Pieces(pending + chunks[i]);
      pending := parts[|parts| - 1];
      lines := lines + parts[..|parts| - 1];
    }
    assert chunks[..|chunks|] == chunks;
    SplitConcat(Concat(chunks), flushed);
    var parts := Pieces(pending + flushed);
    pending := parts[|parts| - 1];
    lines := lines + parts[..|parts| - 1];
    RestIsEmptyAtNewline(Concat(chunks) + flushed);
    ok := pending == [];
  }

  /** Drain, add the flushed bytes, drain again. */
  method DrainLast(lines0: seq<seq<Byte>>, pending: seq<Byte>, flushed: seq<Byte>, ghost done: seq<Byte>)
    returns (lines: seq<seq<Byte>>, ok: bool)
    requires lines0 + LinesOf(pending) == LinesOf(done) && RestOf(pending) == RestOf(done)
    ensures var s := done + flushed;
            lines == LinesOf(s) && (ok <==> s == [] || s[|s| - 1] == NEWLINE)
  {
    var more, rest := Drain(pending);
    lines := lines0 + more;
    SplitConcat(done, flushed);
    more, rest := Drain(rest + flushed);
    lines := lines + more;
    RestIsEmptyAtNewline(done + flushed);
    ok := rest == [];
  }

  /** The reconciler's reader: the frame header's bytes first, draining before each read. */
  method ReadFragment(header: seq<Byte>, chunks: seq<seq<Byte>>, flushed: seq<Byte>)
    returns (lines: seq<seq<Byte>>, ok: bool)
    ensures var s := header + Concat(chunks) + flushed;
            lines == LinesOf(s) && (ok <==> s == [] || s[|s| - 1] == NEWLINE)
  {
    var pending := header;
    ghost var done: seq<Byte> := header;
    lines := [];
    assert header + Concat(chunks[..0]) == header;
    for i := 0 to |chunks|
      invariant done == header + Concat(chunks[..i])
      invariant lines + LinesOf(pending) == LinesOf(done) && RestOf(pending) == RestOf(done)
    {
      var more, rest := Drain(pending);
      lines := lines + more;
      ConcatStep(chunks, i);
      SplitConcat(done, chunks[i]);
      Reassociate(header, Concat(chunks[..i]), chunks[i]);
      done := done + chunks[i];
      pending := rest + chunks[i];
    }
    assert chunks[..|chunks|] == chunks;
    lines, ok := DrainLast(lines, pending, flushed, done);
  }

  /** The readers of uncompressed files: one readline after another. */
  method ReadLines(s: seq<Byte>) returns (lines: seq<seq<Byte>>, ok: bool)
    ensures lines == LinesOf(s) && (ok <==> s == [] || s[|s| - 1] == NEWLINE)
  {
    var rest := s;
    lines := [];
    RestIsEmptyAtNewline(s);
    while rest != []
      invariant LinesOf(s) == lines + LinesOf(rest) && RestOf(s) == RestOf(rest)
      decreases |rest|
    {
      var i := FindNewline(rest);
      if i == |rest| {
        assert rest[..i] == rest;
        PlainRest(rest);
        return lines, false;
      }
      TakeLine(rest, i);
      lines, rest := lines + [rest[..i]], rest[i + 1..];
    }
    ok := true;
  }

  // Torn appends

  /** bytes.rfind of the newline among the first n bytes, or -1. */
  function LastNewline(s: seq<Byte>, n: nat): (i: int)
    requires n <= |s|
    ensures -1 <= i < n && (i >= 0 ==> s[i] == NEWLINE)
    ensures forall j :: i < j < n ==> s[j] != NEWLINE
  {
    if n == 0 then -1 else if s[n - 1] == NEWLINE then n - 1 else LastNewline(s, n - 1)
  }

  /** A restart drops an unfinished last row. */
  function Repaired(s: seq<Byte>): seq<Byte> {
    if s == [] || s[|s| - 1] == NEWLINE then s
    else
      var boundary := LastNewline(s, |s|);
      if boundary >= 0 then s[..boundary + 1] else []
  }

  /** The repaired file holds exactly the complete rows. */
  lemma {:induction false} RepairKeepsRows(s: seq<Byte>)
    ensures Repaired(s) == Encoded(LinesOf(s)) && RestOf(Repaired(s)) == []
  {
    var i := LastNewline(s, |s|);
    var kept, tail := s[..i + 1], s[i + 1..];
    assert s == kept + tail;
    RestIsEmptyAtNewline(kept);
    SplitJoins(kept);
    assert Encoded(LinesOf(kept)) + [] == kept;
    FromEmptyRest(kept, tail);
    PlainRest(tail);
    assert LinesOf(kept) + [] == LinesOf(kept);
    if s != [] && s[|s| - 1] == NEWLINE {
      assert kept == s;
    }
  }

  /** Whatever part of an appended row reached the file, the repair restores the rows
      before it, and a row that reached it whole stays. */
  lemma TornAppend(rows: seq<seq<Byte>>, row: seq<Byte>, n: nat)
    requires AllPlain(rows) && Plain(row) && n <= |row| + 1
    ensures var file := Encoded(rows) + (row + [NEWLINE])[..n];
            LinesOf(file) == if n == |row| + 1 then rows + [row] else rows
  {
    var line := row + [NEWLINE];
    if n == |row| + 1 {
      assert line[..n] == line;
      var all := rows + [row];
      assert all[..|rows|] == rows;
      assert Encoded(all) == Encoded(rows) + line;
      ReadWritten(all, []);
      assert Encoded(all) + [] == Encoded(all);
    } else {
      assert line[..n] == row[..n];
      ReadWritten(rows, row[..n]);
    }
  }
}
