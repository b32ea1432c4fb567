/** The source identity: length-prefixed frames, file hashing in chunks, exclusions. */
module Provenance {
  import opened Common

  // Big-endian lengths

  function Power(width: nat): (p: nat)
    ensures p > 0
  {
    if width == 0 then 1 else 256 * Power(width - 1)
  }

  function BigEndian(n: nat, width: nat): (s: seq<Byte>)
    ensures |s| == width
  {
    if width == 0 then [] else BigEndian(n / 256, width - 1) + [n % 256]
  }

  function ValueOf(s: seq<Byte>): nat {
    if s == [] then 0 else 256 * ValueOf(s[..|s| - 1]) + s[|s| - 1]
  }

  lemma {:induction false} BigEndianValue(n: nat, width: nat)
    requires n < Power(width)
    ensures ValueOf(BigEndian(n, width)) == n
  {
    if width > 0 {
      BigEndianValue(n / 256, width - 1);
      var s := BigEndian(n, width);
      assert s[..|s| - 1] == BigEndian(n / 256, width - 1);
    }
  }

  /** The most significant byte comes first. */
  lemma {:induction false} BigEndianAt(n: nat, width: nat, i: nat)
    requires i < width
    ensures BigEndian(n, width)[i] == n / Power(width - 1 - i) % 256
  {
    if i < width - 1 {
      BigEndianAt(n / 256, width - 1, i);
      DivideTwice(n, Power(width - 2 - i));
    }
  }

  lemma DivideTwice(n: nat, p: nat)
    requires p > 0
    ensures 256 * p > 0 && n / 256 / p == n / (256 * p)
  {
    var q, m := n / 256, n % 256;
    var r, k := q / p, q % p;
    assert n == 256 * q + m && q == r * p + k;
    assert n == r * (256 * p) + (256 * k + m);
    DivMod(n, 256 * p, r, 256 * k + m);
  }

  lemma PowersOf256()
    ensures Power(0) == 1 && Power(1) == 0x100 && Power(2) == 0x1_0000 && Power(3) == 0x100_0000
    ensures Power(4) == 0x1_0000_0000 && Power(8) == 0x1_0000_0000_0000_0000
  {
    assert Power(8) == 0x1_0000_0000 * Power(4);
  }

  // Frames

  datatype Frame = Frame(tag: seq<Byte>, payload: seq<Byte>) {
    /** int.to_bytes raises OverflowError beyond these lengths. */
    predicate Fits() {
      |tag| < Power(4) && |payload| < Power(8)
    }

    function Header(): seq<Byte> {
      BigEndian(|tag|, 4) + tag + BigEndian(|payload|, 8)
    }

    function Bytes(): seq<Byte> {
      Header() + payload
    }
  }

  /** Four bytes of tag length, the tag, eight bytes of payload length, the payload. */
  lemma FrameLayout(f: Frame)
    ensures var s, t := f.Bytes(), |f.tag|;
            && |s| == 4 + t + 8 + |f.payload|
            && s[..4] == BigEndian(t, 4) && s[4..4 + t] == f.tag
            && s[4 + t..12 + t] == BigEndian(|f.payload|, 8) && s[12 + t..] == f.payload
    ensures f.Fits() <==> |f.tag| < 0x1_0000_0000 && |f.payload| < 0x1_0000_0000_0000_0000
  {
    hide BigEndian;
    PowersOf256();
  }

  /** The bytes fed to the digest by a list of frames. */
  function Stream(frames: seq<Frame>): seq<Byte> {
    if frames == [] then [] else frames[0].Bytes() + Stream(frames[1..])
  }

  /** Read a block whose length stands before it in width bytes. */
  function ParseBlock(s: seq<Byte>, width: nat): (r: Option<(seq<Byte>, seq<Byte>)>)
    ensures r.Some? ==> |r.value.1| + width <= |s|
  {
    if |s| < width then None
    else
      var n, rest := ValueOf(s[..width]), s[width..];
      if |rest| < n then None else Some((rest[..n], rest[n..]))
  }

  /** Read one frame off the front. */
  function ParseFrame(s: seq<Byte>): (r: Option<(Frame, seq<Byte>)>)
    ensures r.Some? ==> |r.value.1| < |s|
  {
    match ParseBlock(s, 4)
    case None => None
    case Some((tag, rest)) =>
      match ParseBlock(rest, 8)
      case None => None
      case Some((payload, tail)) => Some((Frame(tag, payload), tail))
  }

  function ParseFrames(s: seq<Byte>): Option<seq<Frame>>
    decreases |s|
  {
    if s == [] then Some([])
    else
      match ParseFrame(s)
      case None => None
      case Some((frame, rest)) =>
        match ParseFrames(rest)
        case None => None
        case Some(frames) => Some([frame] + frames)
  }

  lemma ParseBlockOf(block: seq<Byte>, width: nat, tail: seq<Byte>)
    requires |block| < Power(width)
    ensures ParseBlock(BigEndian(|block|, width) + block + tail, width) == Some((block, tail))
  {
    var length := BigEndian(|block|, width);
    BigEndianValue(|block|, width);
    var s, rest := length + block + tail, block + tail;
    assert s == length + rest;
    assert s[..width] == length && s[width..] == rest;
    assert rest[..|block|] == block && rest[|block|..] == tail;
  }

  lemma ParseOne(frame: Frame, tail: seq<Byte>)
    requires frame.Fits()
    ensures ParseFrame(frame.Bytes() + tail) == Some((frame, tail))
  {
    var rest := BigEndian(|frame.payload|, 8) + frame.payload + tail;
    assert frame.Bytes() + tail == BigEndian(|frame.tag|, 4) + frame.tag + rest;
    ParseBlockOf(frame.tag, 4, rest);
    ParseBlockOf(frame.payload, 8, tail);
  }

  /** The parser undoes the framing: the stream is uniquely decodable. */
  lemma {:induction false} ParseStream(frames: seq<Frame>)
    requires forall i :: 0 <= i < |frames| ==> frames[i].Fits()
    ensures ParseFrames(Stream(frames)) == Some(frames)
  {
    if frames != [] {
      ParseStream(frames[1..]);
      ParseOne(frames[0], Stream(frames[1..]));
      assert frames == [frames[0]] + frames[1..];
    }
  }

  // The identity

  function Ascii(text: string): (s: seq<Byte>)
    ensures |s| == |text| && forall i :: 0 <= i < |s| ==> s[i] == text[i] as int % 256
  {
    seq(|text|, i requires 0 <= i < |text| => text[i] as int % 256)
  }

  datatype Kind = Symlink | Regular

  /** An untracked path with its file content or link target. */
  datatype Entry = Entry(path: seq<Byte>, kind: Kind, content: seq<Byte>)

  function KindName(kind: Kind): seq<Byte> {
    match kind
    case Symlink => Ascii("symlink")
    case Regular => Ascii("regular")
  }

  lemma KindNamesDiffer()
    ensures KindName(Symlink) != KindName(Regular)
  {
    assert KindName(Symlink)[0] == 's' as int % 256 && KindName(Regular)[0] == 'r' as int % 256;
  }

  function EntryFrames(e: Entry): seq<Frame> {
    [Frame(Ascii("untracked-path"), e.path), Frame(Ascii("untracked-kind"), KindName(e.kind)),
     Frame(Ascii("untracked-content"), e.content)]
  }

  function EntriesFrames(entries: seq<Entry>): seq<Frame> {
    if entries == [] then [] else EntryFrames(entries[0]) + EntriesFrames(entries[1..])
  }

  /** What the digest is taken of. */
  function IdentityFrames(format: seq<Byte>, head: seq<Byte>, diff: seq<Byte>, entries: seq<Entry>): seq<Frame> {
    [Frame(Ascii("format"), format), Frame(Ascii("head"), head), Frame(Ascii("tracked-diff"), diff)]
        + EntriesFrames(entries)
  }

  lemma {:induction false} EntryFrameAt(entries: seq<Entry>, k: nat)
    requires k < |entries|
    ensures |EntriesFrames(entries)| == 3 * |entries|
    ensures EntriesFrames(entries)[3 * k..3 * k + 3] == EntryFrames(entries[k])
  {
    assert |EntryFrames(entries[0])| == 3;
    hide EntryFrames;
    if k > 0 {
      EntryFrameAt(entries[1..], k - 1);
    } else if |entries| > 1 {
      EntryFrameAt(entries[1..], 0);
    }
  }

  /** The frames: format, head and diff, then path, kind and content of every file. */
  lemma IdentityMeans(format: seq<Byte>, head: seq<Byte>, diff: seq<Byte>, entries: seq<Entry>)
    ensures var frames := IdentityFrames(format, head, diff, entries);
            && |frames| == 3 + 3 * |entries|
            && frames[0] == Frame(Ascii("format"), format)
            && frames[1] == Frame(Ascii("head"), head)
            && frames[2] == Frame(Ascii("tracked-diff"), diff)
            && forall k :: 0 <= k < |entries| ==>
                 && frames[3 + 3 * k] == Frame(Ascii("untracked-path"), entries[k].path)
                 && frames[4 + 3 * k].tag == Ascii("untracked-kind")
                 && frames[4 + 3 * k].payload == Ascii(if entries[k].kind == Symlink then "symlink" else "regular")
                 && frames[5 + 3 * k] == Frame(Ascii("untracked-content"), entries[k].content)
  {
    if entries != [] {
      EntryFrameAt(entries, 0);
    }
    forall k | 0 <= k < |entries|
      ensures var frames := IdentityFrames(format, head, diff, entries);
              && 5 + 3 * k < |frames|
              && frames[3 + 3 * k] == EntryFrames(entries[k])[0]
              && frames[4 + 3 * k] == EntryFrames(entries[k])[1]
              && frames[5 + 3 * k] == EntryFrames(entries[k])[2]
    {
      EntryFrameAt(entries, k);
      var three := EntriesFrames(entries)[3 * k..3 * k + 3];
      assert three[0] == EntriesFrames(entries)[3 * k] && three[1] == EntriesFrames(entries)[3 * k + 1]
             && three[2] == EntriesFrames(entries)[3 * k + 2];
    }
  }

  predicate AllFit(frames: seq<Frame>) {
    forall i :: 0 <= i < |frames| ==> frames[i].Fits()
  }

  lemma {:induction false} EntriesAreDetermined(a: seq<Entry>, b: seq<Entry>)
    requires EntriesFrames(a) == EntriesFrames(b)
    ensures a == b
  {
    if a != [] && b != [] {
      var fa, fb := EntriesFrames(a), EntriesFrames(b);
      assert fa[..3] == EntryFrames(a[0]) && fa[3..] == EntriesFrames(a[1..]);
      assert fb[..3] == EntryFrames(b[0]) && fb[3..] == EntriesFrames(b[1..]);
      assert fa[0].payload == a[0].path && fb[0].payload == b[0].path;
      assert fa[1].payload == KindName(a[0].kind) && fb[1].payload == KindName(b[0].kind);
      assert fa[2].payload == a[0].content && fb[2].payload == b[0].content;
      KindNamesDiffer();
      assert a[0] == b[0];
      EntriesAreDetermined(a[1..], b[1..]);
      assert a == [a[0]] + a[1..] && b == [b[0]] + b[1..];
    }
  }

  /** Equal streams come from equal heads, diffs and lists of untracked files. */
  lemma IdentityIsInjective(format: seq<Byte>, head: seq<Byte>, diff: seq<Byte>, entries: seq<Entry>,
                            head': seq<Byte>, diff': seq<Byte>, entries': seq<Entry>)
    requires AllFit(IdentityFrames(format, head, diff, entries))
              && AllFit(IdentityFrames(format, head', diff', entries'))
    requires Stream(IdentityFrames(format, head, diff, entries))
              == Stream(IdentityFrames(format, head', diff', entries'))
    ensures head == head' && diff == diff' && entries == entries'
  {
    var a, b := IdentityFrames(format, head, diff, entries), IdentityFrames(format, head', diff', entries');
    ParseStream(a);
    ParseStream(b);
    assert a[1].payload == head && b[1].payload == head' && a[2].payload == diff && b[2].payload == diff';
    assert a[3..] == EntriesFrames(entries) && b[3..] == EntriesFrames(entries');
    EntriesAreDetermined(entries, entries');
  }

  // Hashing

  /** A digest in progress: SHA-256 is modelled by the bytes it has been given. */
  class Digest {
    var stream: seq<Byte>

    constructor ()
      ensures stream == []
    {
      stream := [];
    }

    method Update(data: seq<Byte>)
      modifies this
      ensures stream == old(stream) + data
    {
      stream := stream + data;
    }

    /** Feed one whole frame, unless a length does not fit its field. */
    method AddFrame(frame: Frame) returns (ok: bool)
      modifies this
      ensures ok <==> frame.Fits()
      ensures ok ==> stream == old(stream) + frame.Bytes()
    {
      if !frame.Fits() {
        return false;
      }
      ghost var before := stream;
      Update(BigEndian(|frame.tag|, 4));
      Update(frame.tag);
      Update(BigEndian(|frame.payload|, 8));
      assert stream == before + frame.Header();
      Update(frame.payload);
      assert stream == before + frame.Bytes();
      ok := true;
    }

    /** The frame's header alone, for content that follows in chunks. */
    method StartFrame(tag: seq<Byte>, size: nat)
      modifies this
      ensures stream == old(stream) + (BigEndian(|tag|, 4) + tag + BigEndian(size, 8))
    {
      ghost var before := stream;
      Update(BigEndian(|tag|, 4));
      Update(tag);
      Update(BigEndian(size, 8));
      assert stream == before + (BigEndian(|tag|, 4) + tag + BigEndian(size, 8));
    }

    /** Hash a file that reported the given size, however the reads are cut: succeed
        exactly when the file has that size, and then feed the same bytes as one frame. */
    method HashFile(tag: seq<Byte>, size: nat, content: seq<Byte>, readSizes: seq<nat>) returns (ok: bool)
      modifies this
      ensures ok <==> |content| == size
      ensures ok ==> stream == old(stream) + Frame(tag, content).Bytes()
    {
      hide BigEndian;
      ghost var before := stream;
      StartFrame(tag, size);
      ghost var header := BigEndian(|tag|, 4) + tag + BigEndian(size, 8);
      var remaining, offset, k := size, 0, 0;
      assert before + header + content[..0] == before + header;
      while remaining > 0
        invariant 0 <= remaining && 0 <= offset <= |content| && offset + remaining == size && 0 <= k
        invariant stream == before + header + content[..offset]
        decreases remaining
      {
        var n := Available(if k < |readSizes| then readSizes[k] else CHUNK, remaining, |content| - offset);
        if n == 0 {
          return false;
        }
        TakeMore(before + header, content, offset, n);
        Update(content[offset..offset + n]);
        offset, remaining, k := offset + n, remaining - n, k + 1;
      }
      if offset < |content| {
        return false;
      }
      assert content[..offset] == content;
      Reassociated(before, header, content);
      ok := true;
    }
  }

  lemma TakeMore(done: seq<Byte>, content: seq<Byte>, offset: nat, n: nat)
    requires offset + n <= |content|
    ensures done + content[..offset] + content[offset..offset + n] == done + content[..offset + n]
  {
    assert content[..offset + n] == content[..offset] + content[offset..offset + n];
  }

  const CHUNK: nat := 1024 * 1024

  /** How many bytes a read returns: at most a chunk and at most what is left to read,
      possibly fewer than are there, and none only at the end of the file. */
  function Available(wanted: nat, remaining: nat, left: nat): (n: nat)
    requires remaining > 0
    ensures n <= remaining && n <= left && n <= CHUNK && (n == 0 <==> left == 0)
  {
    var most := if remaining < CHUNK then remaining else CHUNK;
    var there := if left < most then left else most;
    if there == 0 then 0 else if wanted == 0 then 1 else if wanted < there then wanted else there
  }

  // Exclusions

  const SLASH: Byte := 47

  /** The components of a path: the pieces between slashes. */
  function Components(path: seq<Byte>): (parts: seq<seq<Byte>>)
    ensures parts != []
  {
    if path == [] then [[]]
    else
      var parts, b := Components(path[..|path| - 1]), path[|path| - 1];
      if b == SLASH then parts + [[]]
      else parts[..|parts| - 1] + [parts[|parts| - 1] + [b]]
  }

  function Join(parts: seq<seq<Byte>>): seq<Byte>
    requires parts != []
  {
    if |parts| == 1 then parts[0] else Join(parts[..|parts| - 1]) + [SLASH] + parts[|parts| - 1]
  }

  lemma {:induction false} JoinComponents(path: seq<Byte>)
    ensures Join(Components(path)) == path
  {
    if path != [] {
      var init, b := path[..|path| - 1], path[|path| - 1];
      JoinComponents(init);
      assert path == init + [b];
      JoinOneMore(Components(init), b);
    }
  }

  /** One more byte joined. */
  lemma JoinOneMore(parts: seq<seq<Byte>>, b: Byte)
    requires parts != []
    ensures Join(Appended(parts, b)) == Join(parts) + [b]
  {
    var n, whole := |parts| - 1, Appended(parts, b);
    if b == SLASH {
      assert whole[..n + 1] == parts && whole[n + 1] == [];
      assert Join(parts) + [SLASH] + [] == Join(parts) + [SLASH];
    } else {
      assert whole[..n] == parts[..n] && whole[n] == parts[n] + [b];
      if n > 0 {
        assert Join(parts[..n]) + [SLASH] + (parts[n] + [b]) == (Join(parts[..n]) + [SLASH] + parts[n]) + [b];
      }
    }
  }

  /** The components are the pieces between slashes, byte 47. */
  lemma {:induction false} ComponentsMean(path: seq<Byte>)
    ensures forall part <- Components(path) :: 47 !in part
    ensures |Components(path)| == 1 + multiset(path)[47]
  {
    if path != [] {
      var init, b := path[..|path| - 1], path[|path| - 1];
      ComponentsMean(init);
      assert path == init + [b];
    }
  }

  lemma JoinMeans(parts: seq<seq<Byte>>, part: seq<Byte>)
    requires parts != []
    ensures Join([part]) == part && Join(parts + [part]) == Join(parts) + [47] + part
  {
    assert (parts + [part])[..|parts|] == parts;
  }

  lemma {:induction false} JoinConcat(a: seq<seq<Byte>>, b: seq<seq<Byte>>)
    requires a != [] && b != []
    ensures Join(a + b) == Join(a) + [SLASH] + Join(b)
  {
    var n := |b| - 1;
    if n == 0 {
      assert (a + b)[..|a|] == a;
    } else {
      JoinConcat(a, b[..n]);
      assert (a + b)[..|a| + n] == a + b[..n];
      assert Join(a) + [SLASH] + Join(b[..n]) + [SLASH] + b[n] == Join(a) + [SLASH] + (Join(b[..n]) + [SLASH] + b[n]);
    }
  }

  /** What one more byte does to the components. */
  function Appended(parts: seq<seq<Byte>>, b: Byte): seq<seq<Byte>>
    requires parts != []
  {
    if b == SLASH then parts + [[]] else parts[..|parts| - 1] + [parts[|parts| - 1] + [b]]
  }

  lemma ComponentsSnoc(path: seq<Byte>, b: Byte)
    ensures Components(path + [b]) == Appended(Components(path), b)
  {
    assert (path + [b])[..|path|] == path;
  }

  lemma {:induction false} ComponentsConcat(a: seq<Byte>, b: seq<Byte>)
    ensures Components(a + [SLASH] + b) == Components(a) + Components(b)
  {
    if b == [] {
      ComponentsSnoc(a, SLASH);
      assert a + [SLASH] + b == a + [SLASH];
    } else {
      var init, last := b[..|b| - 1], b[|b| - 1];
      ComponentsConcat(a, init);
      assert b == init + [last];
      LongerByOne(a + [SLASH], init, last);
      ComponentsSnoc(a + [SLASH] + init, last);
      ComponentsSnoc(init, last);
      LastPart(Components(a), Components(init), last);
    }
  }

  lemma LongerByOne(a: seq<Byte>, init: seq<Byte>, last: Byte)
    ensures a + (init + [last]) == a + init + [last]
  {
  }

  lemma LastPart(a: seq<seq<Byte>>, b: seq<seq<Byte>>, last: Byte)
    requires b != []
    ensures Appended(a + b, last) == a + Appended(b, last)
  {
  }

  predicate StartsWith(s: seq<Byte>, prefix: seq<Byte>) {
    |prefix| <= |s| && s[..|prefix|] == prefix
  }

  predicate IsExcluded(path: seq<Byte>, exclusions: seq<seq<Byte>>) {
    exists i :: 0 <= i < |exclusions| && (path == exclusions[i] || StartsWith(path, exclusions[i] + [SLASH]))
  }

  lemma InsideIsCovered(path: seq<Byte>, excluded: seq<Byte>)
    requires StartsWith(path, excluded + [SLASH])
    ensures Components(excluded) <= Components(path)
  {
    var rest := path[|excluded| + 1..];
    assert path == excluded + [SLASH] + rest;
    ComponentsConcat(excluded, rest);
  }

  lemma JoinOfPrefix(pe: seq<seq<Byte>>, pp: seq<seq<Byte>>)
    requires pe != [] && pe <= pp && |pe| < |pp|
    ensures Join(pp) == Join(pe) + [SLASH] + Join(pp[|pe|..])
  {
    assert pp == pe + pp[|pe|..];
    JoinConcat(pe, pp[|pe|..]);
  }

  lemma CoveredIsInside(path: seq<Byte>, excluded: seq<Byte>)
    requires Components(excluded) <= Components(path)
    ensures path == excluded || StartsWith(path, excluded + [SLASH])
  {
    JoinComponents(path);
    JoinComponents(excluded);
    if |Components(excluded)| < |Components(path)| {
      JoinOfPrefix(Components(excluded), Components(path));
      Begins(excluded + [SLASH], Join(Components(path)[|Components(excluded)|..]));
    } else {
      assert Components(excluded) == Components(path);
    }
  }

  lemma Begins(a: seq<Byte>, b: seq<Byte>)
    ensures StartsWith(a + b, a)
  {
  }

  /** One exclusion covers a path exactly when its components begin the path's. */
  lemma CoversByComponents(path: seq<Byte>, excluded: seq<Byte>)
    ensures (path == excluded || StartsWith(path, excluded + [SLASH])) <==> Components(excluded) <= Components(path)
  {
    if StartsWith(path, excluded + [SLASH]) {
      InsideIsCovered(path, excluded);
    }
    if Components(excluded) <= Components(path) {
      CoveredIsInside(path, excluded);
    }
  }

  /** Exclusions apply to whole components and recursively. */
  lemma ExcludedByComponents(path: seq<Byte>, exclusions: seq<seq<Byte>>)
    ensures IsExcluded(path, exclusions) <==>
              exists i :: 0 <= i < |exclusions| && Components(exclusions[i]) <= Components(path)
  {
    forall i | 0 <= i < |exclusions|
      ensures (path == exclusions[i] || StartsWith(path, exclusions[i] + [SLASH]))
              <==> Components(exclusions[i]) <= Components(path)
    {
      CoversByComponents(path, exclusions[i]);
    }
  }

  // Putting the identity together

  predicate IsName(part: seq<Byte>) {
    part !in {[], Ascii("."), Ascii("..")}
  }

  predicate AreNames(parts: seq<seq<Byte>>) {
    forall i :: 0 <= i < |parts| ==> IsName(parts[i])
  }

  /** A repository path whose components are all names. */
  predicate SafePath(path: seq<Byte>) {
    0 !in path && AreNames(Components(path))
  }

  /** _validate_git_path: the check for an empty or absolute path adds nothing to the
      check of the components. */
  predicate ValidGitPath(path: seq<Byte>) {
    path != [] && !StartsWith(path, [SLASH]) && SafePath(path)
  }

  lemma SafePathIsRelative(path: seq<Byte>)
    ensures ValidGitPath(path) <==> SafePath(path)
  {
    if path == [] {
      assert Components(path)[0] == [];
    } else if StartsWith(path, [SLASH]) {
      ComponentsConcat([], path[1..]);
      assert path == [] + [SLASH] + path[1..];
      assert Components(path)[0] == [];
    }
  }

  lemma IsNameMeans(part: seq<Byte>)
    ensures IsName(part) <==> part != [] && part != [46] && part != [46, 46]
  {
    assert Ascii(".") == [46] && Ascii("..") == [46, 46];
  }

  lemma AreNamesMeans(parts: seq<seq<Byte>>)
    ensures AreNames(parts) <==> [] !in parts && [46] !in parts && [46, 46] !in parts
  {
    hide IsName;
    forall i | 0 <= i < |parts|
      ensures IsName(parts[i]) <==> parts[i] != [] && parts[i] != [46] && parts[i] != [46, 46]
    {
      IsNameMeans(parts[i]);
    }
  }

  /** A safe path has no zero byte and no component that is empty or one or two dots. */
  lemma SafePathMeans(path: seq<Byte>)
    ensures SafePath(path) <==>
              0 !in path && [] !in Components(path) && [46] !in Components(path) && [46, 46] !in Components(path)
  {
    hide AreNames;
    AreNamesMeans(Components(path));
  }

  /** An untracked file as it is listed and read: its reported size and how reads are cut. */
  datatype Untracked = Untracked(entry: Entry, size: nat, readSizes: seq<nat>) {
    /** A regular file must still have the size it was opened with. */
    predicate Stable() {
      entry.kind.Regular? ==> |entry.content| == size
    }
  }

  function Retained(files: seq<Untracked>, exclusions: seq<seq<Byte>>): seq<Entry> {
    if files == [] then []
    else
      var before, f := Retained(files[..|files| - 1], exclusions), files[|files| - 1];
      if IsExcluded(f.entry.path, exclusions) then before else before + [f.entry]
  }

  ghost predicate Covered(path: seq<Byte>, exclusions: seq<seq<Byte>>) {
    exists e <- exclusions :: Components(e) <= Components(path)
  }

  /** A single file is kept unless an exclusion covers it. */
  lemma RetainedOne(f: Untracked, exclusions: seq<seq<Byte>>)
    ensures Retained([f], exclusions) == if Covered(f.entry.path, exclusions) then [] else [f.entry]
  {
    assert [f][..0] == [];
    ExcludedByComponents(f.entry.path, exclusions);
  }

  /** And files are kept in the order they are listed. */
  lemma {:induction false} RetainedMeans(a: seq<Untracked>, b: seq<Untracked>, exclusions: seq<seq<Byte>>)
    ensures Retained([], exclusions) == []
    ensures Retained(a + b, exclusions) == Retained(a, exclusions) + Retained(b, exclusions)
  {
    hide IsExcluded;
    if b == [] {
      assert a + b == a;
    } else {
      var n := |b| - 1;
      RetainedMeans(a, b[..n], exclusions);
      assert (a + b)[..|a + b| - 1] == a + b[..n];
    }
  }

  lemma {:induction false} StreamConcat(a: seq<Frame>, b: seq<Frame>)
    ensures Stream(a + b) == Stream(a) + Stream(b)
  {
    if a == [] {
      assert a + b == b;
    } else {
      hide Frame.Bytes;
      StreamConcat(a[1..], b);
      assert (a + b)[1..] == a[1..] + b && (a + b)[0] == a[0];
      Reassociated(a[0].Bytes(), Stream(a[1..]), Stream(b));
    }
  }

  lemma Reassociated(a: seq<Byte>, b: seq<Byte>, c: seq<Byte>)
    ensures a + (b + c) == a + b + c
  {
  }

  lemma {:induction false} EntriesFramesSnoc(entries: seq<Entry>, e: Entry)
    ensures EntriesFrames(entries + [e]) == EntriesFrames(entries) + EntryFrames(e)
  {
    if entries == [] {
      assert [e][1..] == [];
    } else {
      EntriesFramesSnoc(entries[1..], e);
      assert (entries + [e])[1..] == entries[1..] + [e];
    }
  }

  /** Feeding three frames one after the other. */
  lemma StreamOfThree(s: seq<Byte>, frames: seq<Frame>)
    requires |frames| == 3
    ensures s + frames[0].Bytes() + frames[1].Bytes() + frames[2].Bytes() == s + Stream(frames)
  {
    StreamFrom(frames, 0);
    StreamFrom(frames, 1);
    StreamFrom(frames, 2);
    Associate(s, frames[0].Bytes(), frames[1].Bytes(), frames[2].Bytes());
  }

  lemma StreamFrom(frames: seq<Frame>, i: nat)
    requires i < |frames|
    ensures Stream(frames[i..]) == frames[i].Bytes() + Stream(frames[i + 1..])
    ensures Stream(frames[|frames|..]) == [] && frames[0..] == frames
  {
    assert frames[i..][1..] == frames[i + 1..];
  }

  lemma Associate(s: seq<Byte>, x: seq<Byte>, y: seq<Byte>, z: seq<Byte>)
    ensures s + x + y + z == s + (x + (y + (z + [])))
  {
  }

  /** The content frame of a file: a link's target at once, a regular file in chunks. */
  method AddContent(digest: Digest, file: Untracked) returns (ok: bool)
    modifies digest
    ensures ok <==> file.Stable() && EntryFrames(file.entry)[2].Fits()
    ensures ok ==> digest.stream == old(digest.stream) + EntryFrames(file.entry)[2].Bytes()
  {
    var frame := EntryFrames(file.entry)[2];
    if file.entry.kind.Symlink? {
      ok := digest.AddFrame(frame);
    } else {
      if file.size >= Power(8) {
        return false;
      }
      ok := digest.HashFile(frame.tag, file.size, frame.payload, file.readSizes);
    }
  }

  /** One retained file adds its three frames. */
  method AddEntry(digest: Digest, file: Untracked) returns (ok: bool)
    modifies digest
    ensures ok <==> file.Stable() && AllFit(EntryFrames(file.entry))
    ensures ok ==> digest.stream == old(digest.stream) + Stream(EntryFrames(file.entry))
  {
    var frames := EntryFrames(file.entry);
    StreamOfThree(digest.stream, frames);
    ok := digest.AddFrame(frames[0]);
    if !ok { return; }
    ok := digest.AddFrame(frames[1]);
    if !ok { return; }
    ok := AddContent(digest, file);
  }

  /** The head and the diff come first. */
  method AddFixed(digest: Digest, frames: seq<Frame>) returns (ok: bool)
    requires |frames| == 3
    modifies digest
    ensures ok <==> AllFit(frames)
    ensures ok ==> digest.stream == old(digest.stream) + Stream(frames)
  {
    StreamOfThree(digest.stream, frames);
    ok := digest.AddFrame(frames[0]);
    if !ok { return; }
    ok := digest.AddFrame(frames[1]);
    if !ok { return; }
    ok := digest.AddFrame(frames[2]);
  }

  /** A file that no check rejects: an excluded one is not read, only its path is checked. */
  predicate Acceptable(file: Untracked, exclusions: seq<seq<Byte>>) {
    && SafePath(file.entry.path)
    && (IsExcluded(file.entry.path, exclusions) || (file.Stable() && AllFit(EntryFrames(file.entry))))
  }

  /** Acceptable: a safe path and, unless an exclusion covers it, the size it was opened with and
      lengths that fit eight bytes. */
  lemma AcceptableMeans(file: Untracked, exclusions: seq<seq<Byte>>)
    ensures Acceptable(file, exclusions) <==>
              && SafePath(file.entry.path)
              && (|| Covered(file.entry.path, exclusions)
                  || ((file.entry.kind == Regular ==> |file.entry.content| == file.size)
                      && |file.entry.path| < 0x1_0000_0000_0000_0000
                      && |file.entry.content| < 0x1_0000_0000_0000_0000))
  {
    hide SafePath, IsExcluded;
    PowersOf256();
    ExcludedByComponents(file.entry.path, exclusions);
    var frames := EntryFrames(file.entry);
    assert AllFit(frames) <==> frames[0].Fits() && frames[1].Fits() && frames[2].Fits();
  }

  function Contribution(file: Untracked, exclusions: seq<seq<Byte>>): seq<Byte> {
    if IsExcluded(file.entry.path, exclusions) then [] else Stream(EntryFrames(file.entry))
  }

  /** What the digest has been fed after the given files. */
  function Fed(format: seq<Byte>, head: seq<Byte>, diff: seq<Byte>, files: seq<Untracked>,
               exclusions: seq<seq<Byte>>): seq<Byte> {
    Stream(IdentityFrames(format, head, diff, Retained(files, exclusions)))
  }

  lemma FedOneMore(format: seq<Byte>, head: seq<Byte>, diff: seq<Byte>, files: seq<Untracked>, n: nat,
                   exclusions: seq<seq<Byte>>)
    requires n < |files|
    ensures Fed(format, head, diff, files[..n + 1], exclusions)
         == Fed(format, head, diff, files[..n], exclusions) + Contribution(files[n], exclusions)
  {
    assert files[..n + 1][..n] == files[..n];
    if !IsExcluded(files[n].entry.path, exclusions) {
      OneMoreEntry(format, head, diff, Retained(files[..n], exclusions), files[n].entry);
    }
  }

  /** Check a listed path, and hash the file unless it is excluded. */
  method AddUntracked(digest: Digest, file: Untracked, exclusions: seq<seq<Byte>>) returns (ok: bool)
    modifies digest
    ensures ok <==> Acceptable(file, exclusions)
    ensures ok ==> digest.stream == old(digest.stream) + Contribution(file, exclusions)
  {
    SafePathIsRelative(file.entry.path);
    ok := ValidGitPath(file.entry.path);
    if ok && !IsExcluded(file.entry.path, exclusions) {
      ok := AddEntry(digest, file);
    }
  }

  /** The digest is fed the frames of the head, the diff and the retained files, in the
      order they are listed. */
  method SourceTreeIdentity(format: seq<Byte>, head: seq<Byte>, diff: seq<Byte>, files: seq<Untracked>,
                            exclusions: seq<seq<Byte>>) returns (r: Result<Digest>)
    ensures r.Success? ==> fresh(r.value) && r.value.stream == Fed(format, head, diff, files, exclusions)
    ensures r.Success? <==> AllFit(IdentityFrames(format, head, diff, []))
                            && forall i :: 0 <= i < |files| ==> Acceptable(files[i], exclusions)
  {
    hide SafePath, IsExcluded, Retained, Stream, EntryFrames, IdentityFrames, Fed, Contribution, Acceptable;
    var digest := new Digest();
    var fixed := [Frame(Ascii("format"), format), Frame(Ascii("head"), head), Frame(Ascii("tracked-diff"), diff)];
    NothingFed(format, head, diff, files, exclusions);
    var ok := AddFixed(digest, fixed);
    if !ok {
      return Failure;
    }
    for i := 0 to |files|
      invariant fresh(digest) && digest.stream == Fed(format, head, diff, files[..i], exclusions)
      invariant forall k :: 0 <= k < i ==> Acceptable(files[k], exclusions)
    {
      FedOneMore(format, head, diff, files, i, exclusions);
      ok := AddUntracked(digest, files[i], exclusions);
      if !ok {
        return Failure;
      }
    }
    assert files[..|files|] == files;
    r := Success(digest);
  }

  lemma NothingFed(format: seq<Byte>, head: seq<Byte>, diff: seq<Byte>, files: seq<Untracked>,
                   exclusions: seq<seq<Byte>>)
    ensures var fixed := [Frame(Ascii("format"), format), Frame(Ascii("head"), head),
                          Frame(Ascii("tracked-diff"), diff)];
            Fed(format, head, diff, files[..0], exclusions) == Stream(fixed)
            && fixed == IdentityFrames(format, head, diff, [])
  {
  }

  lemma OneMoreEntry(format: seq<Byte>, head: seq<Byte>, diff: seq<Byte>, entries: seq<Entry>, e: Entry)
    ensures Stream(IdentityFrames(format, head, diff, entries + [e]))
         == Stream(IdentityFrames(format, head, diff, entries)) + Stream(EntryFrames(e))
  {
    EntriesFramesSnoc(entries, e);
    StreamConcat(IdentityFrames(format, head, diff, entries), EntryFrames(e));
    assert IdentityFrames(format, head, diff, entries + [e])
        == IdentityFrames(format, head, diff, entries) + EntryFrames(e);
  }
}
