/** The publishers' build step, shared by the Karma and the CodeCover
    publisher: locating the report files (an Ant pattern first, then the
    legacy list of paths), archiving them under numbered names, the build
    result when none is found, and the form defaults of the thresholds. The
    workspace is abstracted as functions: the pattern matcher, existence,
    the directory test and directory listing. */
module Publishing {
  import opened Wrappers
  import opened Text
  import opened Builds
  import opened Thresholds

  /** Regular-expression \s: space, tab, newline, vertical tab, form feed,
      carriage return. */
  predicate IsSpace(c: char) {
    c == ' ' || '\t' <= c <= '\r'
  }

  predicate IsSeparator(c: char) {
    c == ';' || c == ':' || c == ','
  }

  predicate NoSeparator(s: string) {
    forall k :: 0 <= k < |s| ==> !IsSeparator(s[k])
  }

  function SkipSpaces(s: string, i: nat): (j: nat)
    requires i <= |s|
    ensures i <= j <= |s|
    ensures forall k :: i <= k < j ==> IsSpace(s[k])
    ensures j < |s| ==> !IsSpace(s[j])
    decreases |s| - i
  {
    if i < |s| && IsSpace(s[i]) then SkipSpaces(s, i + 1) else i
  }

  function SkipSeparators(s: string, i: nat): (j: nat)
    requires i <= |s|
    ensures i <= j <= |s|
    ensures forall k :: i <= k < j ==> IsSeparator(s[k])
    ensures j < |s| ==> !IsSeparator(s[j])
    decreases |s| - i
  {
    if i < |s| && IsSeparator(s[i]) then SkipSeparators(s, i + 1) else i
  }

  /** The end of a (greedy) match of \s*[;:,]+\s* starting at position i,
      or None when no match starts there. */
  function DelimiterAt(s: string, i: nat): (r: Option<nat>)
    requires i <= |s|
    ensures r.Some? ==> i < r.value <= |s|
    ensures i < |s| && IsSeparator(s[i]) ==> r.Some?
    ensures r.Some? ==> exists k :: i <= k < |s| && IsSeparator(s[k])
  {
    var j := SkipSpaces(s, i);
    if j < |s| && IsSeparator(s[j]) then Some(SkipSpaces(s, SkipSeparators(s, j))) else None
  }

  /** The pieces between delimiter matches, scanning from position i, the
      current piece having started at `start`. */
  function Pieces(s: string, start: nat, i: nat): (r: seq<string>)
    requires start <= i <= |s|
    ensures |r| >= 1
    decreases |s| - i
  {
    if i == |s| then [s[start..]]
    else
      match DelimiterAt(s, i)
      case Some(e) => [s[start..i]] + Pieces(s, e, e)
      case None => Pieces(s, start, i + 1)
  }

  function DropTrailingEmpty(ps: seq<string>): (r: seq<string>)
    ensures r <= ps
    ensures r != [] ==> r[|r| - 1] != []
    decreases |ps|
  {
    if ps != [] && ps[|ps| - 1] == [] then DropTrailingEmpty(ps[..|ps| - 1]) else ps
  }

  /** String.split("\\s*[;:,]+\\s*"): the input itself when the pattern
      never matches, otherwise the pieces without the trailing empty ones. */
  function Split(s: string): (r: seq<string>)
    ensures |r| == 1 || r == [] || r[|r| - 1] != []
  {
    var ps := Pieces(s, 0, 0);
    if |ps| == 1 then ps else DropTrailingEmpty(ps)
  }

  lemma {:induction false} PiecesHaveNoSeparator(s: string, start: nat, i: nat)
    requires start <= i <= |s| && NoSeparator(s[start..i])
    ensures forall p :: p in Pieces(s, start, i) ==> NoSeparator(p)
    decreases |s| - i
  {
    if i < |s| {
      match DelimiterAt(s, i)
      case Some(e) =>
        PiecesHaveNoSeparator(s, e, e);
        assert Pieces(s, start, i) == [s[start..i]] + Pieces(s, e, e);
      case None =>
        assert s[start..i + 1] == s[start..i] + [s[i]];
        PiecesHaveNoSeparator(s, start, i + 1);
    } else {
      assert s[start..i] == s[start..];
    }
  }

  /** No path of the split list contains a separator character. */
  lemma SplitHasNoSeparator(s: string)
    ensures forall p :: p in Split(s) ==> NoSeparator(p)
  {
    PiecesHaveNoSeparator(s, 0, 0);
  }

  lemma {:induction false} PiecesWithoutSeparator(s: string, start: nat, i: nat)
    requires start <= i <= |s| && NoSeparator(s)
    ensures Pieces(s, start, i) == [s[start..]]
    decreases |s| - i
  {
    if i < |s| {
      PiecesWithoutSeparator(s, start, i + 1);
    }
  }

  /** A list without separators is one path, even when it is empty. */
  lemma SplitWithoutSeparator(s: string)
    requires NoSeparator(s)
    ensures Split(s) == [s]
  {
    PiecesWithoutSeparator(s, 0, 0);
  }

  /** A path as a list of paths writes it: not empty, no separator, and no
      blank at either end (those blanks would belong to the delimiter). */
  predicate PathPiece(p: string) {
    p != [] && NoSeparator(p) && !IsSpace(p[0]) && !IsSpace(p[|p| - 1])
  }

  /** The paths written one after the other with " ; " between them. */
  function Join(ps: seq<string>): string
    decreases |ps|
  {
    if |ps| <= 1 then (if ps == [] then "" else ps[0]) else ps[0] + " ; " + Join(ps[1..])
  }

  /** Within a piece no delimiter match starts. */
  lemma NoDelimiterInPiece(s: string, off: nat, m: nat, k: nat)
    requires off <= k < m <= |s| && NoSeparator(s[off..m]) && !IsSpace(s[m - 1])
    ensures DelimiterAt(s, k).None?
  {
    var j := SkipSpaces(s, k);
    assert j < m;
    assert s[j] == s[off..m][j - off];
  }

  /** The scan moves through a piece without cutting it. */
  lemma {:induction false} PiecesAcrossPiece(s: string, off: nat, i: nat, m: nat)
    requires off <= i <= m <= |s|
    requires forall k :: i <= k < m ==> DelimiterAt(s, k).None?
    ensures Pieces(s, off, i) == Pieces(s, off, m)
    decreases m - i
  {
    if i < m {
      PiecesNoMatchStep(s, off, i);
      PiecesAcrossPiece(s, off, i + 1, m);
    }
  }

  lemma PiecesNoMatchStep(s: string, start: nat, i: nat)
    requires start <= i < |s| && DelimiterAt(s, i).None?
    ensures Pieces(s, start, i) == Pieces(s, start, i + 1)
  {
  }

  lemma PiecesMatchStep(s: string, start: nat, i: nat, e: nat)
    requires start <= i < |s| && DelimiterAt(s, i) == Some(e)
    ensures Pieces(s, start, i) == [s[start..i]] + Pieces(s, e, e)
  {
  }

  /** " ; " followed by a non-blank is one delimiter match. */
  lemma DelimiterOfJoin(s: string, m: nat)
    requires m + 3 < |s| && s[m..m + 3] == " ; " && !IsSpace(s[m + 3])
    ensures DelimiterAt(s, m) == Some(m + 3)
  {
    assert s[m] == ' ' && s[m + 1] == ';' && s[m + 2] == ' ';
    assert SkipSpaces(s, m + 1) == m + 1;
    assert SkipSpaces(s, m) == m + 1;
    assert SkipSeparators(s, m + 2) == m + 2;
    assert SkipSeparators(s, m + 1) == m + 2;
    assert SkipSpaces(s, m + 3) == m + 3;
    assert SkipSpaces(s, m + 2) == m + 3;
  }

  /** A piece that runs to the end of the string is the last piece. */
  lemma {:induction false} PiecesOfLastPiece(s: string, off: nat, i: nat)
    requires off <= i <= |s| && NoSeparator(s[off..])
    ensures Pieces(s, off, i) == [s[off..]]
    decreases |s| - i
  {
    if i < |s| {
      PiecesOfLastPiece(s, off, i + 1);
    }
  }

  predicate AllPathPieces(ps: seq<string>) {
    forall i :: 0 <= i < |ps| ==> PathPiece(ps[i])
  }

  /** Where the i-th path starts in Join(ps). */
  function JoinOffset(ps: seq<string>, i: nat): nat
    requires i <= |ps|
  {
    if i == 0 then 0 else JoinOffset(ps, i - 1) + |ps[i - 1]| + 3
  }

  /** Join of two or more paths: the first, " ; ", then the rest. */
  lemma JoinCons(ps: seq<string>)
    requires |ps| >= 2
    ensures Join(ps) == ps[0] + " ; " + Join(ps[1..])
  {
  }

  lemma JoinStart(ps: seq<string>)
    requires ps != [] && ps[0] != []
    ensures |Join(ps)| > 0 && Join(ps)[0] == ps[0][0]
  {
  }

  /** From the i-th offset on, Join(ps) is the join of the remaining paths. */
  lemma {:induction false} JoinSuffix(ps: seq<string>, i: nat)
    requires i < |ps|
    ensures JoinOffset(ps, i) <= |Join(ps)|
    ensures Join(ps)[JoinOffset(ps, i)..] == Join(ps[i..])
  {
    if i > 0 {
      JoinSuffix(ps, i - 1);
      var q := ps[i - 1..];
      JoinCons(q);
      assert q[0] == ps[i - 1] && q[1..] == ps[i..];
      var o := JoinOffset(ps, i - 1);
      var t := Join(ps)[o..];
      assert t == ps[i - 1] + " ; " + Join(ps[i..]);
      assert t[|ps[i - 1]| + 3..] == Join(ps[i..]);
    }
  }

  /** Where the parts of p + " ; " + rest sit in s. */
  lemma JoinSlices(s: string, off: nat, p: string, rest: string)
    requires off <= |s| && s[off..] == p + " ; " + rest && rest != []
    ensures off + |p| + 3 < |s|
    ensures s[off..off + |p|] == p && s[off + |p|..off + |p| + 3] == " ; "
    ensures s[off + |p| + 3] == rest[0]
  {
    var t := s[off..];
    assert t[..|p|] == p;
    assert t[|p|..|p| + 3] == " ; ";
    assert t[|p| + 3] == rest[0];
  }

  /** The scan crosses the first path of a joined list uncut. */
  lemma FirstPieceOfJoin(s: string, off: nat, p: string)
    requires off + |p| <= |s| && s[off..off + |p|] == p && PathPiece(p)
    ensures Pieces(s, off, off) == Pieces(s, off, off + |p|)
  {
    NoDelimiterAcrossPiece(s, off, off + |p|);
    PiecesAcrossPiece(s, off, off, off + |p|);
  }

  lemma NoDelimiterAcrossPiece(s: string, off: nat, m: nat)
    requires off < m <= |s| && NoSeparator(s[off..m]) && !IsSpace(s[m - 1])
    ensures forall k :: off <= k < m ==> DelimiterAt(s, k).None?
  {
    forall k | off <= k < m ensures DelimiterAt(s, k).None? {
      NoDelimiterInPiece(s, off, m, k);
    }
  }

  /** A path followed by " ; " and a non-blank is the first piece, and the
      scan goes on right after the delimiter. */
  lemma PieceThenDelimiter(s: string, off: nat, p: string)
    requires off + |p| + 3 < |s| && PathPiece(p)
    requires s[off..off + |p|] == p && s[off + |p|..off + |p| + 3] == " ; " && !IsSpace(s[off + |p| + 3])
    ensures Pieces(s, off, off) == [p] + Pieces(s, off + |p| + 3, off + |p| + 3)
  {
    var m := off + |p|;
    FirstPieceOfJoin(s, off, p);
    DelimiterOfJoin(s, m);
    PiecesMatchStep(s, off, m, m + 3);
    ChainPieces(s, off, m, p);
  }

  lemma ChainPieces(s: string, off: nat, m: nat, p: string)
    requires off <= m && m + 3 <= |s|
    requires Pieces(s, off, off) == Pieces(s, off, m)
    requires Pieces(s, off, m) == [s[off..m]] + Pieces(s, m + 3, m + 3)
    requires s[off..m] == p
    ensures Pieces(s, off, off) == [p] + Pieces(s, m + 3, m + 3)
  {
  }

  /** How the i-th path, the delimiter after it and the start of the next
      path sit in Join(ps). */
  lemma JoinLayout(ps: seq<string>, i: nat)
    requires i + 1 < |ps| && PathPiece(ps[i + 1])
    ensures JoinOffset(ps, i) + |ps[i]| + 3 < |Join(ps)|
    ensures Join(ps)[JoinOffset(ps, i)..JoinOffset(ps, i) + |ps[i]|] == ps[i]
    ensures Join(ps)[JoinOffset(ps, i) + |ps[i]|..JoinOffset(ps, i) + |ps[i]| + 3] == " ; "
    ensures !IsSpace(Join(ps)[JoinOffset(ps, i) + |ps[i]| + 3])
  {
    var s, o := Join(ps), JoinOffset(ps, i);
    JoinSuffix(ps, i);
    var q := ps[i..];
    assert q[0] == ps[i] && q[1..] == ps[i + 1..] && q[1..][0] == ps[i + 1];
    JoinCons(q);
    JoinStart(ps[i + 1..]);
    JoinSlices(s, o, ps[i], Join(ps[i + 1..]));
  }

  /** The scan cuts the i-th path of a joined list off at the next offset. */
  lemma PieceAtOffset(ps: seq<string>, i: nat)
    requires i + 1 < |ps| && PathPiece(ps[i]) && PathPiece(ps[i + 1])
    ensures JoinOffset(ps, i) <= JoinOffset(ps, i + 1) <= |Join(ps)|
    ensures Pieces(Join(ps), JoinOffset(ps, i), JoinOffset(ps, i))
      == [ps[i]] + Pieces(Join(ps), JoinOffset(ps, i + 1), JoinOffset(ps, i + 1))
  {
    JoinLayout(ps, i);
    PieceThenDelimiter(Join(ps), JoinOffset(ps, i), ps[i]);
  }

  /** The scan takes the last path of a joined list whole. */
  lemma LastPieceAtOffset(ps: seq<string>)
    requires ps != [] && PathPiece(ps[|ps| - 1])
    ensures JoinOffset(ps, |ps| - 1) <= |Join(ps)|
    ensures Pieces(Join(ps), JoinOffset(ps, |ps| - 1), JoinOffset(ps, |ps| - 1)) == [ps[|ps| - 1]]
  {
    var i := |ps| - 1;
    JoinSuffix(ps, i);
    assert ps[i..] == [ps[i]];
    PiecesOfLastPiece(Join(ps), JoinOffset(ps, i), JoinOffset(ps, i));
  }

  /** A list built piece by piece: if each f(j) is ps[j] followed by
      f(j + 1), and the last is ps's last alone, then f(i) is ps[i..]. */
  lemma {:induction false} ChainSteps(f: nat -> seq<string>, ps: seq<string>, i: nat)
    requires i < |ps|
    requires forall j: nat :: i <= j < |ps| - 1 ==> f(j) == [ps[j]] + f(j + 1)
    requires f(|ps| - 1) == [ps[|ps| - 1]]
    ensures f(i) == ps[i..]
    decreases |ps| - i
  {
    if i < |ps| - 1 {
      ChainSteps(f, ps, i + 1);
      assert ps[i..] == [ps[i]] + ps[i + 1..];
    }
  }

  /** The scan of Join(ps) from the start of its j-th path. */
  function PiecesAtOffset(ps: seq<string>, j: nat): seq<string> {
    if j <= |ps| && JoinOffset(ps, j) <= |Join(ps)| then
      Pieces(Join(ps), JoinOffset(ps, j), JoinOffset(ps, j))
    else []
  }

  lemma PiecesAtOffsetStep(ps: seq<string>, j: nat)
    requires j + 1 < |ps| && PathPiece(ps[j]) && PathPiece(ps[j + 1])
    ensures PiecesAtOffset(ps, j) == [ps[j]] + PiecesAtOffset(ps, j + 1)
  {
    PieceAtOffset(ps, j);
  }

  lemma PiecesAtOffsetLast(ps: seq<string>)
    requires ps != [] && PathPiece(ps[|ps| - 1])
    ensures PiecesAtOffset(ps, |ps| - 1) == [ps[|ps| - 1]]
  {
    LastPieceAtOffset(ps);
  }

  lemma PiecesOfJoin(ps: seq<string>)
    requires ps != [] && AllPathPieces(ps)
    ensures Pieces(Join(ps), 0, 0) == ps
  {
    var f := (j: nat) => PiecesAtOffset(ps, j);
    forall j: nat | j < |ps| - 1 ensures f(j) == [ps[j]] + f(j + 1) {
      assert PathPiece(ps[j]) && PathPiece(ps[j + 1]);
      PiecesAtOffsetStep(ps, j);
    }
    assert PathPiece(ps[|ps| - 1]);
    PiecesAtOffsetLast(ps);
    ChainSteps(f, ps, 0);
    assert f(0) == PiecesAtOffset(ps, 0) == Pieces(Join(ps), 0, 0);
  }

  /** Writing paths with " ; " between them and splitting the result gives
      the paths back. */
  lemma SplitJoin(ps: seq<string>)
    requires ps != [] && AllPathPieces(ps)
    ensures Split(Join(ps)) == ps
  {
    PiecesOfJoin(ps);
    assert PathPiece(ps[|ps| - 1]);
  }

  /** Separators with surrounding blanks split a list into its paths. */
  lemma SplitSpacedList()
    ensures Split("a , b;c") == ["a", "b", "c"]
  {
    SpacedListPieces();
    var ps: seq<string> := ["a", "b", "c"];
    assert ps[|ps| - 1] != [];
  }

  /** The pieces of "a , b;c". */
  lemma SpacedListPieces()
    ensures Pieces("a , b;c", 0, 0) == ["a", "b", "c"]
  {
    var s := "a , b;c";
    SpacedListBlanks();
    SpacedListSeparators();
    SpacedListTail();
    assert s[0..1] == "a";
    assert Pieces(s, 0, 1) == [s[0..1]] + Pieces(s, 4, 4);
    assert Pieces(s, 0, 0) == Pieces(s, 0, 1);
  }

  /** Where no delimiter match of "a , b;c" starts. */
  lemma SpacedListBlanks()
    ensures DelimiterAt("a , b;c", 0).None? && DelimiterAt("a , b;c", 4).None? && DelimiterAt("a , b;c", 6).None?
  {
  }

  /** Where the delimiter matches of "a , b;c" start and end. */
  lemma SpacedListSeparators()
    ensures DelimiterAt("a , b;c", 1) == Some(4) && DelimiterAt("a , b;c", 5) == Some(6)
  {
    var s := "a , b;c";
    assert s[1] == ' ' && s[2] == ',' && s[3] == ' ' && s[4] == 'b' && s[5] == ';' && s[6] == 'c';
    assert SkipSpaces(s, 2) == 2 && SkipSpaces(s, 1) == 2;
    assert SkipSeparators(s, 3) == 3 && SkipSeparators(s, 2) == 3;
    assert SkipSpaces(s, 4) == 4 && SkipSpaces(s, 3) == 4;
    assert SkipSpaces(s, 5) == 5;
    assert SkipSeparators(s, 6) == 6 && SkipSeparators(s, 5) == 6;
    assert SkipSpaces(s, 6) == 6;
  }

  /** The pieces of "a , b;c" from its second path on. */
  lemma SpacedListTail()
    ensures Pieces("a , b;c", 4, 4) == ["b", "c"]
  {
    var s := "a , b;c";
    SpacedListBlanks();
    SpacedListSeparators();
    PiecesNoMatchStep(s, 6, 6);
    assert Pieces(s, 6, 7) == [s[6..]] && s[6..] == "c";
    PiecesMatchStep(s, 4, 5, 6);
    PiecesNoMatchStep(s, 4, 4);
    assert s[4..5] == "b";
  }

  /** A lone separator leaves only empty pieces, which are all dropped. */
  lemma SplitSeparatorOnly()
    ensures Split(",") == []
  {
    assert DelimiterAt(",", 0) == Some(1);
    assert Pieces(",", 0, 0) == ["", ""] by {
      assert ","[1..] == "";
      assert Pieces(",", 1, 1) == [""];
      assert Pieces(",", 0, 0) == [","[0..0]] + Pieces(",", 1, 1);
    }
  }

  /** A leading separator yields a leading empty piece, which is kept. */
  lemma SplitLeadingSeparator()
    ensures Split(",a") == ["", "a"]
  {
    assert DelimiterAt(",a", 0) == Some(1);
    assert DelimiterAt(",a", 1).None?;
    assert Pieces(",a", 0, 0) == ["", "a"] by {
      assert Pieces(",a", 1, 1) == Pieces(",a", 1, 2);
    }
  }

  /** The workspace as the publisher sees it. */
  datatype Workspace = Workspace(present: string -> bool, isDirectory: string -> bool,
                                 list: (string, string) -> seq<string>)

  /** What one path of the legacy list contributes: nothing when it does not
      exist, a directory's matches of the pattern, or the file itself. */
  function Contribution(ws: Workspace, path: string, dirPattern: string): (r: seq<string>)
    ensures !ws.present(path) ==> r == []
    ensures ws.present(path) && ws.isDirectory(path) ==> r == ws.list(path, dirPattern)
    ensures ws.present(path) && !ws.isDirectory(path) ==> r == [path]
  {
    if !ws.present(path) then [] else if ws.isDirectory(path) then ws.list(path, dirPattern) else [path]
  }

  /** The legacy search: the contributions of the paths, in path order. */
  function Legacy(ws: Workspace, parts: seq<string>, dirPattern: string): seq<string>
    decreases |parts|
  {
    if parts == [] then [] else Legacy(ws, parts[..|parts| - 1], dirPattern) + Contribution(ws, parts[|parts| - 1], dirPattern)
  }

  /** The legacy result is the concatenation of the two halves' results. */
  lemma {:induction false} LegacyAppend(ws: Workspace, a: seq<string>, b: seq<string>, dirPattern: string)
    ensures Legacy(ws, a + b, dirPattern) == Legacy(ws, a, dirPattern) + Legacy(ws, b, dirPattern)
    decreases |b|
  {
    if b == [] {
      assert a + b == a;
    } else {
      var b' := b[..|b| - 1];
      assert (a + b)[..|a + b| - 1] == a + b';
      assert (a + b)[|a + b| - 1] == b[|b| - 1];
      LegacyAppend(ws, a, b', dirPattern);
      var c := Contribution(ws, b[|b| - 1], dirPattern);
      assert Legacy(ws, a + b, dirPattern) == Legacy(ws, a + b', dirPattern) + c;
      assert Legacy(ws, b, dirPattern) == Legacy(ws, b', dirPattern) + c;
      assert Legacy(ws, a, dirPattern) + Legacy(ws, b', dirPattern) + c
          == Legacy(ws, a, dirPattern) + (Legacy(ws, b', dirPattern) + c);
    }
  }

  /** When none of the paths exists, nothing is found. */
  lemma {:induction false} LegacyOfMissingPaths(ws: Workspace, parts: seq<string>, dirPattern: string)
    requires forall i :: 0 <= i < |parts| ==> !ws.present(parts[i])
    ensures Legacy(ws, parts, dirPattern) == []
    decreases |parts|
  {
    if parts != [] {
      var init := parts[..|parts| - 1];
      assert forall i :: 0 <= i < |init| ==> init[i] == parts[i];
      LegacyOfMissingPaths(ws, init, dirPattern);
    }
  }

  /** Every path that names an existing file is in the result. */
  lemma {:induction false} LegacyKeepsFiles(ws: Workspace, parts: seq<string>, dirPattern: string, i: nat)
    requires i < |parts| && ws.present(parts[i]) && !ws.isDirectory(parts[i])
    ensures parts[i] in Legacy(ws, parts, dirPattern)
    decreases |parts|
  {
    var init := parts[..|parts| - 1];
    if i < |init| {
      assert init[i] == parts[i];
      LegacyKeepsFiles(ws, init, dirPattern, i);
    }
  }

  /** A path that does not exist contributes nothing wherever it stands. */
  lemma MissingPathIsSkipped(ws: Workspace, a: seq<string>, path: string, b: seq<string>, dirPattern: string)
    requires !ws.present(path)
    ensures Legacy(ws, a + [path] + b, dirPattern) == Legacy(ws, a + b, dirPattern)
  {
    LegacyAppend(ws, a + [path], b, dirPattern);
    LegacyAppend(ws, a, [path], dirPattern);
    LegacyAppend(ws, a, b, dirPattern);
    assert Legacy(ws, [path], dirPattern) == Legacy(ws, [], dirPattern) + [];
  }

  /** locate: a non-empty match of the pattern is the answer; otherwise
      (no match, or the matcher failed) the legacy search over the split
      list. */
  function Locate(ws: Workspace, matched: Option<seq<string>>, includes: string, dirPattern: string): (r: seq<string>)
    ensures matched.Some? && matched.value != [] ==> r == matched.value
    ensures !(matched.Some? && matched.value != []) ==> r == Legacy(ws, Split(includes), dirPattern)
  {
    if matched.Some? && matched.value != [] then matched.value else Legacy(ws, Split(includes), dirPattern)
  }

  /** locateKarmaCoverageReports / locateCoverageReports. `matched` is the
      pattern matcher's answer for `includes` (None when it throws). */
  method LocateReports(ws: Workspace, matched: Option<seq<string>>, includes: string, dirPattern: string)
    returns (files: seq<string>)
    ensures files == Locate(ws, matched, includes, dirPattern)
  {
    if matched.Some? && |matched.value| > 0 {
      return matched.value;
    }
    files := [];
    var parts := Split(includes);
    for k := 0 to |parts|
      invariant files == Legacy(ws, parts[..k], dirPattern)
    {
      var path := parts[k];
      if ws.present(path) {
        if ws.isDirectory(path) {
          files := files + ws.list(path, dirPattern);
        } else {
          files := files + [path];
        }
      }
      assert parts[..k + 1][..k] == parts[..k];
    }
    assert parts[..|parts|] == parts;
  }

  /** The archived name of the i-th report: coverage.xml, coverage1.xml, ... */
  function ArchiveName(i: nat): (name: string)
    ensures i == 0 ==> name == "coverage.xml"
    ensures i > 0 ==> name == "coverage" + NatToString(i) + ".xml"
  {
    "coverage" + (if i > 0 then NatToString(i) else "") + ".xml"
  }

  /** Distinct positions get distinct names. */
  lemma ArchiveNamesDistinct(i: nat, j: nat)
    requires i != j
    ensures ArchiveName(i) != ArchiveName(j)
  {
    if i > 0 && j > 0 && ArchiveName(i) == ArchiveName(j) {
      var a := ArchiveName(i);
      assert a[8..|a| - 4] == NatToString(i);
      assert a[8..|a| - 4] == NatToString(j);
      NatToStringInjective(i, j);
    }
  }

  /** The archive after copying the reports: name to copied file. */
  function Archive(files: seq<string>): (m: map<string, string>)
    ensures forall i :: 0 <= i < |files| ==> ArchiveName(i) in m
    decreases |files|
  {
    if files == [] then map[]
    else Archive(files[..|files| - 1])[ArchiveName(|files| - 1) := files[|files| - 1]]
  }

  /** A new name is not yet in the archive of the reports before it. */
  lemma NextNameIsNew(files: seq<string>)
    ensures ArchiveName(|files|) !in Archive(files)
  {
    forall i | 0 <= i < |files| ensures ArchiveName(i) != ArchiveName(|files|) {
      ArchiveNamesDistinct(i, |files|);
    }
    ArchiveKeys(files);
  }

  lemma {:induction false} ArchiveKeys(files: seq<string>)
    ensures forall name :: name in Archive(files) ==> exists i :: 0 <= i < |files| && name == ArchiveName(i)
    decreases |files|
  {
    if files != [] {
      ArchiveKeys(files[..|files| - 1]);
    }
  }

  /** Each report lands under its own name. */
  lemma {:induction false} ArchiveHoldsEveryReport(files: seq<string>)
    ensures forall i :: 0 <= i < |files| ==> Archive(files)[ArchiveName(i)] == files[i]
    decreases |files|
  {
    if files != [] {
      var n := |files| - 1;
      ArchiveHoldsEveryReport(files[..n]);
      forall i | 0 <= i < n ensures Archive(files)[ArchiveName(i)] == files[i] {
        ArchiveNamesDistinct(i, n);
      }
    }
  }

  /** N reports make N archived files. */
  lemma {:induction false} ArchiveSize(files: seq<string>)
    ensures |Archive(files).Keys| == |files|
    decreases |files|
  {
    if files != [] {
      var n := |files| - 1;
      ArchiveSize(files[..n]);
      NextNameIsNew(files[..n]);
      assert Archive(files).Keys == Archive(files[..n]).Keys + {ArchiveName(n)};
    }
  }

  /** The build's archive folder. */
  class ArchiveFolder {
    var created: bool
    var files: map<string, string>

    constructor ()
      ensures !created && files == map[]
    {
      created := false;
      files := map[];
    }
  }

  /** saveKarmaCoverageReports / saveCoverageReports: the folder is created
      and the i-th report copied to the i-th archive name. */
  method SaveReports(folder: ArchiveFolder, reports: seq<string>)
    modifies folder
    ensures folder.created
    ensures folder.files == old(folder.files) + Archive(reports)
  {
    folder.created := true;
    for i := 0 to |reports|
      invariant folder.created
      invariant folder.files == old(folder.files) + Archive(reports[..i])
    {
      assert reports[..i + 1][..i] == reports[..i];
      folder.files := folder.files[ArchiveName(i) := reports[i]];
    }
    assert reports[..|reports|] == reports;
  }

  /** The pattern actually searched: the fallback when `includes` is null or
      blank. */
  function EffectiveIncludes(includes: Option<string>, fallback: string): (r: string)
    ensures includes.None? ==> r == fallback
    ensures includes.Some? && Trim(includes.value) == [] ==> r == fallback
    ensures includes.Some? && Trim(includes.value) != [] ==> r == includes.value
  {
    if includes.None? || |Trim(includes.value)| == 0 then fallback else includes.value
  }

  /** The result of a build whose step found no report. */
  function NoReportsResult(current: BuildResult): (r: BuildResult)
    ensures IsWorseThan(current, Unstable) ==> r == current
    ensures !IsWorseThan(current, Unstable) ==> r == Failure
  {
    if IsWorseThan(current, Unstable) then current else Failure
  }

  /** Finding no report never improves a build and always leaves it worse
      than Unstable. */
  lemma NoReportsIsWorseThanUnstable(current: BuildResult)
    ensures IsWorseThan(NoReportsResult(current), Unstable)
    ensures Ordinal(NoReportsResult(current)) >= Ordinal(current)
  {
  }

  /** The build as the step changes it. */
  class PublishedBuild {
    var result: BuildResult
    const archive: ArchiveFolder

    constructor (result: BuildResult, archive: ArchiveFolder)
      ensures this.result == result && this.archive == archive
    {
      this.result := result;
      this.archive := archive;
    }
  }

  /** perform, up to the archiving of the reports: with no report the result
      is decided and nothing is archived; otherwise the reports are archived
      and the result is left to the loaded action. */
  method Perform(build: PublishedBuild, ws: Workspace, matcher: string -> Option<seq<string>>,
                 includes: Option<string>, fallback: string, dirPattern: string)
    returns (reports: seq<string>)
    modifies build, build.archive
    ensures reports == Locate(ws, matcher(EffectiveIncludes(includes, fallback)), EffectiveIncludes(includes, fallback), dirPattern)
    ensures reports == [] ==> build.result == NoReportsResult(old(build.result))
    ensures reports == [] ==> build.archive.files == old(build.archive.files)
    ensures reports == [] ==> build.archive.created == old(build.archive.created)
    ensures reports != [] ==> build.archive.created
    ensures reports != [] ==> build.result == old(build.result)
    ensures reports != [] ==> build.archive.files == old(build.archive.files) + Archive(reports)
  {
    var pattern: string;
    if includes.None? || |Trim(includes.value)| == 0 {
      pattern := fallback;
    } else {
      pattern := includes.value;
    }
    reports := LocateReports(ws, matcher(pattern), pattern, dirPattern);
    if |reports| == 0 {
      if IsWorseThan(build.result, Unstable) {
        return;
      }
      build.result := Failure;
      return;
    }
    SaveReports(build.archive, reports);
  }

  /** The Karma publisher's fallback pattern and directory pattern. */
  const KarmaFallback: string := "coverage"
  const KarmaDirPattern: string := "index.html"
  /** The CodeCover publisher's. */
  const CodeCoverFallback: string := "report.html"
  const CodeCoverDirPattern: string := "**/coverage*.xml"

  /** newInstance's defaults: a max field submitted empty gets 90, 80, 50
      and 50 in the order of the thresholds' metrics; any other submitted
      value (or none) leaves the bound field as it is. */
  method SetMaxDefaults(t: HealthReportThresholds, maxLine: Option<string>, maxStatement: Option<string>,
                        maxFunction: Option<string>, maxBranch: Option<string>)
    modifies t
    ensures t.Current() == old(t.Current()).(
      line := Range(old(t.minLine), if maxLine == Some("") then 90 else old(t.maxLine)),
      statement := Range(old(t.minStatement), if maxStatement == Some("") then 80 else old(t.maxStatement)),
      functions := Range(old(t.minFunction), if maxFunction == Some("") then 50 else old(t.maxFunction)),
      branch := Range(old(t.minBranch), if maxBranch == Some("") then 50 else old(t.maxBranch)))
  {
    if maxLine == Some("") {
      t.SetMaxLine(90);
    }
    if maxStatement == Some("") {
      t.SetMaxStatement(80);
    }
    if maxFunction == Some("") {
      t.SetMaxFunction(50);
    }
    if maxBranch == Some("") {
      t.SetMaxBranch(50);
    }
  }
}
