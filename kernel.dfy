/**
 * The session state of the `RobotKernel` class in src/robotkernel/kernel.py: the cell history
 * kept in step with the notebook, the completion and inspection requests, shutdown, and the
 * bookkeeping of one cell execution around `populate_suite` and `execute_robot`.
 */
module Kernel {
  import opened Common
  import opened Strings
  import opened Seqs
  import OrderedDicts
  import opened Builders
  import opened Executors
  import opened CompletionFinders

  /** A sticky connection (a web driver); `id` stands for the object, `hasQuit` for `hasattr(instance, "quit")`. */
  datatype Connection = Connection(kind: string, id: nat, hasQuit: bool)

  /** The message metadata Jupyter Lab sends: an absent or empty `deletedCells` is `[]`. */
  datatype Metadata = Metadata(deletedCells: seq<string>, cellId: Option<string>)

  function DeletedCells(metadata: Option<Metadata>): seq<string>
  {
    if metadata.Some? then metadata.value.deletedCells else []
  }

  /** `(parent.get("metadata") or {}).get("cellId") or None`: an empty id counts as none. */
  function CellId(metadata: Option<Metadata>): (r: Option<string>)
    ensures r.Some? ==> r.value != []
    ensures r.Some? <==> metadata.Some? && metadata.value.cellId.Some? && metadata.value.cellId.value != []
    ensures r.Some? ==> r == metadata.value.cellId
  {
    if metadata.Some? && metadata.value.cellId.Some? && metadata.value.cellId.value != [] then metadata.value.cellId
    else None
  }

  /** `self.robot_cell_id or str(uuid.uuid4())` */
  function HistoryKey(cellId: Option<string>, freshId: string): (k: string)
    ensures cellId.Some? && cellId.value != [] ==> k == cellId.value
    ensures cellId.None? ==> k == freshId
  {
    if cellId.Some? && cellId.value != [] then cellId.value else freshId
  }

  /** The connections whose instance has `quit`, in order: those `do_shutdown` quits. */
  function Quittable(connections: seq<Connection>): (r: seq<Connection>)
    ensures |r| <= |connections|
  {
    if connections == [] then []
    else
      var last := connections[|connections| - 1];
      Quittable(connections[..|connections| - 1]) + (if last.hasQuit then [last] else [])
  }

  lemma {:induction false} QuittableMembers(connections: seq<Connection>)
    ensures forall c :: c in Quittable(connections) <==> c in connections && c.hasQuit
  {
    if connections != [] {
      var n := |connections| - 1;
      QuittableMembers(connections[..n]);
      assert connections == connections[..n] + [connections[n]];
    }
  }

  /** `[item for item in current if item not in previous]` */
  function NewItems(current: seq<Item>, previous: seq<Item>): (r: seq<Item>)
    ensures forall x :: x in r <==> x in current && x !in previous
  {
    if current == [] then []
    else (if current[0] in previous then [] else [current[0]]) + NewItems(current[1..], previous)
  }

  lemma {:induction false} NewItemsAppend(a: seq<Item>, b: seq<Item>, previous: seq<Item>)
    ensures NewItems(a + b, previous) == NewItems(a, previous) + NewItems(b, previous)
  {
    if a == [] {
      assert a + b == b;
    } else {
      assert (a + b)[0] == a[0] && (a + b)[1..] == a[1..] + b;
      NewItemsAppend(a[1..], b, previous);
    }
  }

  /** Keywords appended after the previous ones, none of them seen before, are exactly the new ones. */
  lemma {:induction false} NewItemsOfExtension(previous: seq<Item>, added: seq<Item>)
    requires forall x | x in added :: x !in previous
    ensures NewItems(previous + added, previous) == added
  {
    NewItemsAppend(previous, added, previous);
    NoneNew(previous, previous);
    AllNew(added, previous);
  }

  lemma {:induction false} NoneNew(current: seq<Item>, previous: seq<Item>)
    requires forall x | x in current :: x in previous
    ensures NewItems(current, previous) == []
  {
    if current != [] {
      NoneNew(current[1..], previous);
    }
  }

  lemma {:induction false} AllNew(current: seq<Item>, previous: seq<Item>)
    requires forall x | x in current :: x !in previous
    ensures NewItems(current, previous) == current
  {
    if current != [] {
      AllNew(current[1..], previous);
    }
  }

  /** The variables found in the historical cells, cell by cell. */
  function HistoryVariables(cells: seq<string>, find: string -> seq<string>): (r: seq<string>)
  {
    if cells == [] then [] else HistoryVariables(cells[..|cells| - 1], find) + find(cells[|cells| - 1])
  }

  lemma {:induction false} HistoryVariablesMembers(cells: seq<string>, find: string -> seq<string>, i: nat, v: string)
    requires i < |cells| && v in find(cells[i])
    ensures v in HistoryVariables(cells, find)
  {
    var n := |cells| - 1;
    if i < n {
      assert cells[..n][i] == cells[i];
      HistoryVariablesMembers(cells[..n], find, i, v);
    }
  }

  /** The listeners `do_execute` configures, in order. */
  const KernelListeners: seq<Listener> := [
    RpaBrowserConnections, SeleniumConnections, JupyterConnections, AppiumConnections,
    WhiteLibrary, KeywordsIndexer, Variables]

  // ---------------------------------------------------------------------------------------
  // Needles for completion and inspection

  /** `(cursor_pos is None and len(code)) or cursor_pos`: `None` for no cursor on empty code. */
  function EffectiveCursor(code: string, cursorPos: Option<nat>): (r: Option<nat>)
    ensures r.None? <==> cursorPos.None? && code == []
    ensures cursorPos.Some? ==> r == cursorPos
    ensures cursorPos.None? && code != [] ==> r == Some(|code|)
  {
    if cursorPos.None? then (if code == [] then None else Some(|code|)) else cursorPos
  }

  /** The length of the white-space run of `s` at `i`. */
  function SpaceRun(s: string, i: nat): (n: nat)
    requires i <= |s|
    ensures i + n <= |s|
    decreases |s| - i
  {
    if i < |s| && IsSpace(s[i]) then 1 + SpaceRun(s, i + 1) else 0
  }

  /** The run is white space throughout and ends at the end of `s` or at a non-space. */
  lemma {:induction false} SpaceRunSpec(s: string, i: nat)
    requires i <= |s|
    ensures forall j | i <= j < i + SpaceRun(s, i) :: IsSpace(s[j])
    ensures i + SpaceRun(s, i) == |s| || !IsSpace(s[i + SpaceRun(s, i)])
    decreases |s| - i
  {
    if i < |s| && IsSpace(s[i]) {
      SpaceRunSpec(s, i + 1);
    }
  }

  /** The length of the match of `\s{2,}|\t| \| ` at `i`, or 0 where it does not match. */
  function SeparatorAt(s: string, i: nat): (n: nat)
    requires i <= |s|
    ensures i + n <= |s|
  {
    var run := SpaceRun(s, i);
    if run >= 2 then run
    else if i < |s| && s[i] == '\t' then 1
    else if i + 3 <= |s| && s[i] == ' ' && s[i + 1] == '|' && s[i + 2] == ' ' then 3
    else 0
  }

  /** A tab, two white-space characters and ` | ` are each a separator match. */
  lemma SeparatorForms(s: string, i: nat)
    requires i <= |s|
    ensures i < |s| && s[i] == '\t' ==> SeparatorAt(s, i) > 0
    ensures i + 1 < |s| && IsSpace(s[i]) && IsSpace(s[i + 1]) ==> SeparatorAt(s, i) > 0
    ensures OccursAt(s, " | ", i) ==> SeparatorAt(s, i) > 0
  {
    if i + 1 < |s| && IsSpace(s[i]) && IsSpace(s[i + 1]) {
      assert SpaceRun(s, i + 1) >= 1;
    }
    if OccursAt(s, " | ", i) {
      assert s[i..i + 3] == " | ";
      assert s[i] == ' ' && s[i + 1] == '|' && s[i + 2] == ' ';
    }
  }

  /**
   * The separator match lengths of `s`, position by position and with the end `|s|` included:
   * what `re.split` consults while it scans.
   */
  function Matches(s: string): (m: seq<nat>)
    ensures |m| == |s| + 1 && MatchTable(m)
  {
    MatchesFrom(s, 0)
  }

  /** The separator match lengths of `s` from position `i` on. */
  function MatchesFrom(s: string, i: nat): (m: seq<nat>)
    requires i <= |s|
    ensures |m| == |s| - i + 1 && MatchTable(m)
    decreases |s| - i
  {
    if i == |s| then [SeparatorAt(s, i)] else [SeparatorAt(s, i)] + MatchesFrom(s, i + 1)
  }

  /** Each entry of the table is the separator match length at that position. */
  lemma {:induction false} MatchesFromSpec(s: string, i: nat)
    requires i <= |s|
    ensures forall j | i <= j <= |s| :: MatchesFrom(s, i)[j - i] == SeparatorAt(s, j)
    decreases |s| - i
  {
    if i < |s| {
      MatchesFromSpec(s, i + 1);
    }
  }

  lemma MatchesSpec(s: string)
    ensures forall j | 0 <= j <= |s| :: Matches(s)[j] == SeparatorAt(s, j)
  {
    MatchesFromSpec(s, 0);
  }

  /** Match lengths for a text of length `|m| - 1`: no match runs past its end. */
  predicate MatchTable(m: seq<nat>)
  {
    |m| >= 1 && forall j | 0 <= j < |m| :: j + m[j] < |m|
  }

  /** No match starts in `[a, b)`. */
  predicate MatchFree(m: seq<nat>, a: nat, b: nat)
    requires b <= |m|
  {
    forall j | a <= j < b :: m[j] == 0
  }

  /** The leftmost match at or after `i`, or the end `|m| - 1` when none starts there. */
  function FirstMatch(m: seq<nat>, i: nat): (j: nat)
    requires MatchTable(m) && i < |m|
    ensures i <= j < |m| && MatchFree(m, i, j)
    ensures j == |m| - 1 || m[j] > 0
    decreases |m| - i
  {
    if i == |m| - 1 || m[i] > 0 then i else FirstMatch(m, i + 1)
  }

  /**
   * `re.split` of `s[i..]` at the matches `m`: the text before the leftmost match, then the
   * split of the text after that match; with no match left, the rest is the last piece.
   */
  function SplitWith(s: string, m: seq<nat>, i: nat): (r: seq<string>)
    requires |m| == |s| + 1 && MatchTable(m) && i <= |s|
    ensures |r| >= 1
    decreases |s| - i
  {
    var j := FirstMatch(m, i);
    if j == |s| then [s[i..]] else [s[i..j]] + SplitWith(s, m, j + m[j])
  }

  /** `re.split(r"\s{2,}|\t| \| ", s)` */
  function Split(s: string): (r: seq<string>)
    ensures |r| >= 1
  {
    SplitWith(s, Matches(s), 0)
  }

  /**
   * Where the last piece of `SplitWith(s, m, i)` starts: `i` when no match starts from `i` on,
   * otherwise the last piece start after the leftmost match.
   */
  function LastPieceStart(m: seq<nat>, i: nat): (r: nat)
    requires MatchTable(m) && i < |m|
    ensures i <= r < |m|
    decreases |m| - i
  {
    var j := FirstMatch(m, i);
    if j == |m| - 1 then i else LastPieceStart(m, j + m[j])
  }

  /** No match starts in the last piece. */
  lemma {:induction false} LastPieceFree(m: seq<nat>, i: nat)
    requires MatchTable(m) && i < |m|
    ensures MatchFree(m, LastPieceStart(m, i), |m| - 1)
    decreases |m| - i
  {
    var j := FirstMatch(m, i);
    if j < |m| - 1 {
      LastPieceFree(m, j + m[j]);
    }
  }

  lemma {:induction false} SplitLastPiece(s: string, m: seq<nat>, i: nat)
    requires |m| == |s| + 1 && MatchTable(m) && i <= |s|
    ensures var pieces := SplitWith(s, m, i);
            pieces[|pieces| - 1] == s[LastPieceStart(m, i)..]
    decreases |s| - i
  {
    var j := FirstMatch(m, i);
    if j < |s| {
      var rest := SplitWith(s, m, j + m[j]);
      assert SplitWith(s, m, i) == [s[i..j]] + rest;
      SplitLastPiece(s, m, j + m[j]);
    }
  }

  /** `SegmentScan` on the match table: the segment start once the scan has reached `i`. */
  function ScanTable(m: seq<nat>, i: nat, start: nat): (r: nat)
    requires MatchTable(m) && start <= i < |m|
    ensures start <= r < |m|
    decreases |m| - i
  {
    if i == |m| - 1 then start
    else if m[i] > 0 then ScanTable(m, i + m[i], i + m[i])
    else ScanTable(m, i + 1, start)
  }

  /** The scan ends where the last piece of the split from the current segment starts. */
  lemma {:induction false} ScanIsLastPiece(m: seq<nat>, i: nat, start: nat)
    requires MatchTable(m) && start <= i < |m| && MatchFree(m, start, i)
    ensures ScanTable(m, i, start) == LastPieceStart(m, start)
    decreases |m| - i
  {
    FirstMatchSkip(m, start, i);
    if i < |m| - 1 {
      if m[i] > 0 {
        ScanIsLastPiece(m, i + m[i], i + m[i]);
      } else {
        ScanIsLastPiece(m, i + 1, start);
      }
    }
  }

  /** Past a stretch with no match, the leftmost match is the same. */
  lemma {:induction false} FirstMatchSkip(m: seq<nat>, start: nat, i: nat)
    requires MatchTable(m) && start <= i < |m| && MatchFree(m, start, i)
    ensures FirstMatch(m, start) == FirstMatch(m, i)
    decreases i - start
  {
    if start < i {
      FirstMatchSkip(m, start + 1, i);
    }
  }

  /**
   * The start of the segment `re.split` is in once it has scanned `s` up to `i`, where `start`
   * is the start of the segment being scanned.
   */
  function SegmentScan(s: string, i: nat, start: nat): (r: nat)
    requires start <= i <= |s|
    ensures start <= r <= |s|
    decreases |s| - i
  {
    if i == |s| then start
    else
      var n := SeparatorAt(s, i);
      if n > 0 then SegmentScan(s, i + n, i + n) else SegmentScan(s, i + 1, start)
  }

  /** The leftmost separator match at or after `i`, or `|s|` when none starts there. */
  function FirstSeparator(s: string, i: nat): (j: nat)
    requires i <= |s|
    ensures i <= j <= |s|
    ensures forall k | i <= k < j :: SeparatorAt(s, k) == 0
    ensures j == |s| || SeparatorAt(s, j) > 0
    decreases |s| - i
  {
    if i == |s| || SeparatorAt(s, i) > 0 then i else FirstSeparator(s, i + 1)
  }

  /** The scan of the text is the scan of its match table. */
  lemma {:induction false} SegmentScanTable(s: string, i: nat, start: nat)
    requires start <= i <= |s|
    requires forall j | 0 <= j <= |s| :: Matches(s)[j] == SeparatorAt(s, j)
    ensures SegmentScan(s, i, start) == ScanTable(Matches(s), i, start)
    decreases |s| - i
  {
    if i < |s| {
      var n := SeparatorAt(s, i);
      if n > 0 {
        SegmentScanTable(s, i + n, i + n);
      } else {
        SegmentScanTable(s, i + 1, start);
      }
    }
  }

  /** The leftmost separator match of the text is the leftmost match of its table. */
  lemma {:induction false} FirstSeparatorTable(s: string, i: nat)
    requires i <= |s|
    requires forall j | 0 <= j <= |s| :: Matches(s)[j] == SeparatorAt(s, j)
    ensures FirstSeparator(s, i) == FirstMatch(Matches(s), i)
    decreases |s| - i
  {
    if i < |s| && SeparatorAt(s, i) == 0 {
      FirstSeparatorTable(s, i + 1);
    }
  }

  /** `re.split(r"\s{2,}|\t| \| ", s)[-1]` */
  function LastSegment(s: string): (r: string)
    ensures |r| <= |s| && r == s[|s| - |r|..]
  {
    s[SegmentScan(s, 0, 0)..]
  }

  /** `re.split(r"\s{2,}|\t| \| ", s)[0]`: everything before the first separator. */
  function FirstSegment(s: string): (r: string)
    ensures StartsWith(s, r)
    ensures forall j | 0 <= j < |r| :: SeparatorAt(s, j) == 0
    ensures |r| == |s| || SeparatorAt(s, |r|) > 0
  {
    s[..FirstSeparator(s, 0)]
  }

  /** The completion needle: the last segment left of the cursor, left-stripped. */
  function CompletionNeedle(left: string): string
  {
    LStrip(LastSegment(left))
  }

  /**
   * The needle is a suffix of the text left of the cursor, with no tab, no two white-space
   * characters in a row, no ` | ` and no leading white space.
   */
  lemma NeedleShape(left: string)
    ensures var n := CompletionNeedle(left);
            && |n| <= |left| && n == left[|left| - |n|..]
            && (n == [] || !IsSpace(n[0]))
            && (forall j | 0 <= j < |n| :: n[j] != '\t')
            && (forall j | 0 <= j < |n| - 1 :: !(IsSpace(n[j]) && IsSpace(n[j + 1])))
            && (forall j | 0 <= j < |n| :: !OccursAt(n, " | ", j))
  {
    var n := CompletionNeedle(left);
    var m := Matches(left);
    var d := |left| - |n|;
    assert n == left[d..];
    MatchesSpec(left);
    SegmentScanTable(left, 0, 0);
    ScanIsLastPiece(m, 0, 0);
    LastPieceFree(m, 0);
    assert forall j | d <= j < |left| :: SeparatorAt(left, j) == 0 by {
      forall j | d <= j < |left| ensures SeparatorAt(left, j) == 0 {
        assert m[j] == 0;
      }
    }
    FreeSuffixShape(left, d);
  }

  /** `LastSegment` is the last piece of `re.split`. */
  lemma LastSegmentSplit(s: string)
    ensures LastSegment(s) == Split(s)[|Split(s)| - 1]
  {
    var m := Matches(s);
    MatchesSpec(s);
    SegmentScanTable(s, 0, 0);
    ScanIsLastPiece(m, 0, 0);
    SplitLastPiece(s, m, 0);
  }

  /** The completion needle is the last piece of `re.split` left of the cursor, left-stripped. */
  lemma NeedleSegment(left: string)
    ensures CompletionNeedle(left) == LStrip(Split(left)[|Split(left)| - 1])
  {
    LastSegmentSplit(left);
  }

  /**
   * The match table of `x  | y`: two spaces match at 1 and ` | ` at 2, an overlapping pair.
   */
  lemma OverlappingMatches()
    ensures Matches("x  | y") == [0, 2, 3, 0, 0, 0, 0]
  {
    var s := "x  | y";
    assert s[0] == 'x' && s[1] == ' ' && s[2] == ' ' && s[3] == '|' && s[4] == ' ' && s[5] == 'y';
    assert SpaceRun(s, 5) == 0 && SpaceRun(s, 3) == 0 && SpaceRun(s, 0) == 0;
    assert SpaceRun(s, 4) == 1 && SpaceRun(s, 2) == 1 && SpaceRun(s, 1) == 2;
    assert s[2..5] == " | ";
    MatchesSpec(s);
  }

  /**
   * Where two separator matches overlap, the first one cuts: in `x  | y` the two spaces end the
   * first piece, so ` | ` does not match.
   */
  lemma OverlappingSplit()
    ensures Split("x  | y") == ["x", "| y"]
  {
    var s := "x  | y";
    var m := [0, 2, 3, 0, 0, 0, 0];
    OverlappingMatches();
    assert FirstMatch(m, 0) == 1;
    assert FirstMatch(m, 3) == 6;
    assert SplitWith(s, m, 0) == [s[..1], s[3..]];
    assert s[..1] == "x";
    assert s[3..] == "| y";
  }

  /** So the completion needle of `x  | y` is `| y`. */
  lemma OverlappingNeedle()
    ensures CompletionNeedle("x  | y") == "| y"
  {
    OverlappingSplit();
    NeedleSegment("x  | y");
    var last := "| y";
    assert !IsSpace(last[0]);
    assert LStrip(last) == last;
  }

  /**
   * The inspection needle is the last piece of `re.split` left of the cursor and the first
   * piece right of it, trimmed and lower-cased.
   */
  lemma InspectNeedleSegments(line: string, lineCursor: nat)
    ensures var left := Split(SliceTo(line, lineCursor));
            InspectNeedle(line, lineCursor) ==
              Lower(LStrip(left[|left| - 1])) + Lower(RStrip(Split(SliceFrom(line, lineCursor))[0]))
  {
    LastSegmentSplit(SliceTo(line, lineCursor));
    var right := SliceFrom(line, lineCursor);
    MatchesSpec(right);
    FirstSeparatorTable(right, 0);
    assert Split(right)[0] == FirstSegment(right);
  }

  /** A suffix in which no separator match starts. */
  lemma FreeSuffixShape(s: string, d: nat)
    requires d <= |s|
    requires forall j | d <= j < |s| :: SeparatorAt(s, j) == 0
    ensures var n := s[d..];
            && (forall j | 0 <= j < |n| :: n[j] != '\t')
            && (forall j | 0 <= j < |n| - 1 :: !(IsSpace(n[j]) && IsSpace(n[j + 1])))
            && (forall j | 0 <= j < |n| :: !OccursAt(n, " | ", j))
  {
    var n := s[d..];
    forall j | 0 <= j < |n| ensures n[j] != '\t' {
      assert SeparatorAt(s, d + j) == 0;
      SeparatorForms(s, d + j);
    }
    forall j | 0 <= j < |n| - 1 ensures !(IsSpace(n[j]) && IsSpace(n[j + 1])) {
      assert SeparatorAt(s, d + j) == 0;
      SeparatorForms(s, d + j);
    }
    forall j | 0 <= j < |n| ensures !OccursAt(n, " | ", j) {
      assert SeparatorAt(s, d + j) == 0;
      SeparatorForms(s, d + j);
      if j + 3 <= |n| {
        assert n[j..j + 3] == s[d + j..d + j + 3];
      }
    }
  }

  /** A variable needle starts with one of `$@&%`. */
  predicate IsVariableNeedle(needle: string)
  {
    needle != [] && needle[0] in "$@&%"
  }

  /** The line asks for a library name. */
  predicate IsLibraryLine(line: string)
  {
    var l := Lower(line);
    StartsWith(l, "library ") || Contains(l, "import library ") || Contains(l, "reload library ")
    || Contains(l, "get library instance")
  }

  /** The candidates that contain the needle, both lower-cased, in their order. */
  function VariableMatches(needle: string, refs: seq<string>): (r: seq<string>)
    ensures forall m | m in r :: m in refs && Contains(Lower(m), Lower(needle))
    ensures forall m | m in refs && Contains(Lower(m), Lower(needle)) :: m in r
  {
    if refs == [] then []
    else (if Contains(Lower(refs[0]), Lower(needle)) then [refs[0]] else []) + VariableMatches(needle, refs[1..])
  }

  /** What completion asks of the code that is not part of this model. */
  datatype Completers = Completers(
    variablesIn: string -> seq<string>,             // VARIABLE_REGEXP.findall(code)
    scored: (string, seq<string>) -> seq<string>,   // the refs of scored_results(needle, candidates)
    selector: string -> Option<seq<string>>,        // the selector contexts; None when none applies
    keywordsFor: (string, string) -> seq<string>)   // get_lunr_completions(needle, ..., context)

  datatype CompleteReply = CompleteReply(matches: seq<string>, cursorEnd: int, cursorStart: int)

  /** The inspection needle: the segments left and right of the cursor, trimmed and lower-cased. */
  function InspectNeedle(line: string, lineCursor: nat): string
  {
    Lower(LStrip(LastSegment(SliceTo(line, lineCursor)))) + Lower(RStrip(FirstSegment(SliceFrom(line, lineCursor))))
  }

  /** The search hits for a needle: none for the empty needle, otherwise `hits(needle)`. */
  function SearchHits(needle: string, hits: string -> seq<string>): seq<string>
  {
    if needle == [] then [] else hits(needle)
  }

  /** A keyword of the catalog: its name and `get_keyword_doc(keyword)`. */
  datatype CatalogEntry = CatalogEntry(name: string, doc: map<string, string>)

  /** A search hit is accepted when the needle is the keyword's name or the ref, lower-cased. */
  predicate Accepts(needle: string, ref: string, entry: CatalogEntry)
  {
    needle == Lower(entry.name) || needle == Lower(ref)
  }

  /** The first accepted hit from `i` on; a ref missing from the catalog raises `KeyError` first. */
  function FirstAccepted(needle: string, refs: seq<string>, catalog: map<string, CatalogEntry>, i: nat): (r: Result<Option<nat>>)
    requires i <= |refs|
    ensures r.Ok? && r.value.Some? ==>
              var j := r.value.value;
              && i <= j < |refs| && refs[j] in catalog && Accepts(needle, refs[j], catalog[refs[j]])
              && forall k | i <= k < j :: refs[k] in catalog && !Accepts(needle, refs[k], catalog[refs[k]])
    ensures r == Ok(None) ==>
              forall k | i <= k < |refs| :: refs[k] in catalog && !Accepts(needle, refs[k], catalog[refs[k]])
    ensures r.Err? ==> exists j | i <= j < |refs| ::
              && r.error == KeyError(refs[j]) && refs[j] !in catalog
              && forall k | i <= k < j :: refs[k] in catalog && !Accepts(needle, refs[k], catalog[refs[k]])
    decreases |refs| - i
  {
    if i == |refs| then Ok(None)
    else if refs[i] !in catalog then Err(KeyError(refs[i]))
    else if Accepts(needle, refs[i], catalog[refs[i]]) then Ok(Some(i))
    else FirstAccepted(needle, refs, catalog, i + 1)
  }

  datatype InspectReply = InspectReply(data: map<string, string>, found: bool)

  /** What one cell execution asks of the code and the world outside this model. */
  datatype Host = Host(
    parse: string -> File,                 // get_model(StringIO(code)) and the builders' view of it
    findVariables: string -> seq<string>,  // VARIABLE_REGEXP.findall
    freshId: string,                       // str(uuid.uuid4())
    traceback: seq<string>,                // format_exc().splitlines()
    pythonReply: Reply,                    // execute_python(...)
    outcome: RunOutcome,                   // suite.run(...)
    env: Env, path: string, cwd: string,   // the output directory and the working directory
    executionCount: nat)

  /** What a cell's run sends with the kernel's listeners `ls`, in the world `host` gives. */
  function CellRunMessages(ls: seq<Listener>, silent: bool, rpa: Option<bool>, host: Host): seq<Message>
  {
    RunMessages(RunListeners(ls, silent, false), silent, false, rpa, host.outcome, host.env, host.path, host.cwd)
  }

  /** `^%%python module ([a-zA-Z_]+)` matches. */
  predicate PythonMagic(code: string)
  {
    var prefix := "%%python module ";
    StartsWith(code, prefix) && |code| > |prefix| &&
    (('a' <= code[|prefix|] <= 'z') || ('A' <= code[|prefix|] <= 'Z') || code[|prefix|] == '_')
  }

  /** The branches of `do_complete` that choose the matches for a needle. */
  method CompletionMatches(needle: string, line: string, context: string, libs: seq<string>,
                           completers: Completers, candidates: seq<string>)
    returns (matches: seq<string>)
    ensures IsVariableNeedle(needle) ==> matches == VariableMatches(needle, completers.scored(needle, candidates))
    ensures !IsVariableNeedle(needle) && completers.selector(needle).Some? ==> matches == completers.selector(needle).value
    ensures !IsVariableNeedle(needle) && completers.selector(needle).None? && context == "__settings__" && IsLibraryLine(line) ==>
              matches == LibraryMatches(Lower(needle), libs)
    ensures !IsVariableNeedle(needle) && completers.selector(needle).None? && !(context == "__settings__" && IsLibraryLine(line)) ==>
              matches == completers.keywordsFor(needle, context)
  {
    if IsVariableNeedle(needle) {
      matches := VariableMatches(needle, completers.scored(needle, candidates));
    } else if completers.selector(needle).Some? {
      matches := completers.selector(needle).value;
    } else if context == "__settings__" && IsLibraryLine(line) {
      matches := CompleteLibraries(Lower(needle), libs);
    } else {
      matches := completers.keywordsFor(needle, context);
    }
  }

  /** The loop of `init_metadata`: `del` every deleted cell that is in the history. */
  method DropDeletedCells(h0: OrderedDicts.Dict<string, string>, deleted: seq<string>)
    returns (h: OrderedDicts.Dict<string, string>)
    requires OrderedDicts.Valid(h0)
    ensures OrderedDicts.Valid(h)
    ensures h.keys == OrderedDicts.KeepKeys(h0.keys, deleted)
    ensures forall k :: k in h.vals <==> k in h0.vals && k !in deleted
    ensures forall k | k in h.vals :: h.vals[k] == h0.vals[k]
  {
    h := h0;
    OrderedDicts.KeepKeysNone(h.keys);
    for i := 0 to |deleted|
      invariant Dropped(h0, h, deleted[..i])
    {
      DropStep(h0, h, deleted[..i], deleted[i]);
      assert deleted[..i + 1] == deleted[..i] + [deleted[i]];
      if deleted[i] in h.vals {
        h := OrderedDicts.Remove(h, deleted[i]);
      }
    }
    assert deleted[..|deleted|] == deleted;
  }

  /** `h` is `h0` with the cells of `done` deleted. */
  ghost predicate Dropped(h0: OrderedDicts.Dict<string, string>, h: OrderedDicts.Dict<string, string>, done: seq<string>)
  {
    && OrderedDicts.Valid(h)
    && h.keys == OrderedDicts.KeepKeys(h0.keys, done)
    && (forall k :: k in h.vals <==> k in h0.vals && k !in done)
    && (forall k | k in h.vals :: h.vals[k] == h0.vals[k])
  }

  /** Deleting one more cell (`pop(cell, None)`) keeps `Dropped`. */
  lemma DropStep(h0: OrderedDicts.Dict<string, string>, h: OrderedDicts.Dict<string, string>, done: seq<string>, cell: string)
    requires Dropped(h0, h, done)
    ensures cell in h.vals ==> Dropped(h0, OrderedDicts.Remove(h, cell), done + [cell])
    ensures cell !in h.vals ==> Dropped(h0, h, done + [cell])
  {
    OrderedDicts.KeepKeysSnoc(h0.keys, done, cell);
    assert forall k :: k in done + [cell] <==> k in done || k == cell;
    if cell !in h.vals {
      WithoutAbsent(h.keys, cell);
    }
  }


  /**
   * The stored docs go from `before` to `after` and the reply is `r` as `do_inspect` answers
   * for these hits: a `KeyError` changes nothing, no accepted hit replies the old docs with
   * `found` telling whether there were any, and the first accepted hit adds its doc.
   */
  predicate InspectedBy(needle: string, results: seq<string>, catalog: map<string, CatalogEntry>,
                        before: map<string, string>, after: map<string, string>, r: Result<InspectReply>)
  {
    match FirstAccepted(needle, results, catalog, 0)
    case Err(e) => r == Err(e) && after == before
    case Ok(None) => r == Ok(InspectReply(before, before != map[])) && after == before
    case Ok(Some(j)) => after == before + catalog[results[j]].doc && r == Ok(InspectReply(after, true))
  }

  /** The loop of `do_inspect` over the search hits: the index of the first accepted one. */
  method AcceptFirst(needle: string, results: seq<string>, catalog: map<string, CatalogEntry>)
    returns (r: Result<Option<nat>>)
    ensures r == FirstAccepted(needle, results, catalog, 0)
  {
    var i := 0;
    while i < |results|
      invariant 0 <= i <= |results|
      invariant FirstAccepted(needle, results, catalog, 0) == FirstAccepted(needle, results, catalog, i)
    {
      var ref := results[i];
      if ref !in catalog {
        return Err(KeyError(ref));
      }
      if !Accepts(needle, ref, catalog[ref]) {
        i := i + 1;
        continue;
      }
      return Ok(Some(i));
    }
    r := Ok(None);
  }

  /** The variables loop of `do_execute`: those of every historical cell, then those of the cell. */
  method CollectVariables(cells: seq<string>, code: string, find: string -> seq<string>) returns (vs: seq<string>)
    ensures vs == HistoryVariables(cells, find) + find(code)
  {
    vs := [];
    for i := 0 to |cells|
      invariant vs == HistoryVariables(cells[..i], find)
    {
      assert cells[..i + 1][..i] == cells[..i];
      vs := vs + find(cells[i]);
    }
    assert cells[..|cells|] == cells;
    vs := vs + find(code);
  }

  class RobotKernel {
    var history: OrderedDicts.Dict<string, string>  // robot_history
    var cellId: Option<string>                      // robot_cell_id
    var inspectData: map<string, string>            // robot_inspect_data
    var variables: seq<string>                      // robot_variables
    var suiteVariables: map<string, string>         // robot_suite_variables
    var connections: seq<Connection>                // robot_connections
    var newKeywords: seq<Item>                      // new_keywords
    var keywords: seq<Item>                         // keywords
    var listeners: seq<Listener>                    // listeners
    const suite: Suite

    ghost predicate Valid()
      reads this
    {
      OrderedDicts.Valid(history) && suite.Valid()
    }

    /** `__init__`: empty history and caches, and an empty suite. */
    constructor ()
      ensures Valid() && fresh(suite) && fresh(suite.keywords) && fresh(suite.variables) && fresh(suite.tests)
      ensures history == OrderedDicts.Empty() && cellId == None && inspectData == map[]
      ensures variables == [] && suiteVariables == map[] && connections == []
      ensures newKeywords == [] && keywords == [] && listeners == []
      ensures suite.keywords.items == [] && suite.variables.items == [] && suite.tests.items == []
    {
      history := OrderedDicts.Empty();
      cellId := None;
      inspectData := map[];
      variables := [];
      suiteVariables := map[];
      connections := [];
      newKeywords := [];
      keywords := [];
      listeners := [];
      suite := new Suite();
    }

    /**
     * `init_metadata`: drop the deleted cells from the history, keep every other entry in its
     * place, and remember the cell being executed.
     */
    method InitMetadata(metadata: Option<Metadata>)
      requires Valid()
      modifies this
      ensures Valid()
      ensures history.keys == OrderedDicts.KeepKeys(old(history.keys), DeletedCells(metadata))
      ensures forall k :: k in history.vals <==> k in old(history.vals) && k !in DeletedCells(metadata)
      ensures forall k | k in history.vals :: history.vals[k] == old(history.vals)[k]
      ensures cellId == CellId(metadata)
      ensures inspectData == old(inspectData) && variables == old(variables) && suiteVariables == old(suiteVariables)
      ensures connections == old(connections) && newKeywords == old(newKeywords) && keywords == old(keywords)
      ensures listeners == old(listeners)
    {
      history := DropDeletedCells(history, DeletedCells(metadata));
      cellId := CellId(metadata);
    }

    /**
     * `do_shutdown`: quit every connection that can quit (they are returned, in order), then
     * forget the history, the variables and the connections.
     */
    method DoShutdown() returns (quitted: seq<Connection>)
      requires Valid()
      modifies this
      ensures Valid()
      ensures quitted == Quittable(old(connections))
      ensures history == OrderedDicts.Empty() && variables == [] && suiteVariables == map[] && connections == []
      ensures cellId == old(cellId) && inspectData == old(inspectData) && newKeywords == old(newKeywords)
      ensures keywords == old(keywords) && listeners == old(listeners)
    {
      history := OrderedDicts.Empty();
      variables := [];
      suiteVariables := map[];
      quitted := [];
      for i := 0 to |connections|
        invariant quitted == Quittable(connections[..i])
      {
        assert connections[..i + 1][..i] == connections[..i];
        if connections[i].hasQuit {
          quitted := quitted + [connections[i]];
        }
      }
      assert connections[..|connections|] == connections;
      connections := [];
    }

    /**
     * `do_complete` with `line_at_cursor`'s answer `(line, offset)` given: the reply spans
     * exactly the needle, a `}` right after a variable needle is taken in, and the matches come
     * from the context the needle and the line select.
     */
    method DoComplete(code: string, cursorPos: Option<nat>, line: string, offset: nat, context: string,
                      libs: seq<string>, completers: Completers)
      returns (r: Result<CompleteReply>)
      requires EffectiveCursor(code, cursorPos).Some? ==> offset <= EffectiveCursor(code, cursorPos).value
      ensures r.Err? <==> EffectiveCursor(code, cursorPos).None?
      ensures r.Err? ==> r.error.TypeError?
      ensures r.Ok? ==>
                var cursor := EffectiveCursor(code, cursorPos).value;
                var lineCursor := cursor - offset;
                var needle := CompletionNeedle(SliceTo(line, lineCursor));
                var ahead := IsVariableNeedle(needle) && lineCursor < |line| && line[lineCursor] == '}';
                && r.value.cursorStart == cursor - |needle|
                && offset <= r.value.cursorStart
                && r.value.cursorEnd == cursor + (if ahead then 1 else 0)
                && r.value.cursorEnd - r.value.cursorStart == |needle| + (if ahead then 1 else 0)
                && (IsVariableNeedle(needle) ==>
                      r.value.matches == VariableMatches(needle, completers.scored(needle, variables + completers.variablesIn(code))))
                && (!IsVariableNeedle(needle) && completers.selector(needle).Some? ==>
                      r.value.matches == completers.selector(needle).value)
                && (!IsVariableNeedle(needle) && completers.selector(needle).None? && context == "__settings__" && IsLibraryLine(line) ==>
                      r.value.matches == LibraryMatches(Lower(needle), libs))
                && (!IsVariableNeedle(needle) && completers.selector(needle).None? && !(context == "__settings__" && IsLibraryLine(line)) ==>
                      r.value.matches == completers.keywordsFor(needle, context))
    {
      var effective := EffectiveCursor(code, cursorPos);
      if effective.None? {
        return Err(TypeError("unsupported operand type(s) for -: 'NoneType' and 'int'"));
      }
      var cursor := effective.value;
      var lineCursor := cursor - offset;
      var needle := CompletionNeedle(SliceTo(line, lineCursor));
      var matches := CompletionMatches(needle, line, context, libs, completers, variables + completers.variablesIn(code));
      if IsVariableNeedle(needle) && lineCursor < |line| && line[lineCursor] == '}' {
        cursor := cursor + 1;
        needle := needle + "}";
      }
      r := Ok(CompleteReply(matches, cursor, cursor - |needle|));
    }

    /**
     * `do_inspect` with `line_at_cursor`'s answer given and the search hits for the needle
     * given by `hits`: store the doc of the first accepted hit. `found` starts from whether
     * any doc was stored before, so it stays true once one has been.
     */
    method DoInspect(code: string, cursorPos: Option<nat>, line: string, offset: nat,
                     hits: string -> seq<string>, catalog: map<string, CatalogEntry>)
      returns (r: Result<InspectReply>)
      requires EffectiveCursor(code, cursorPos).Some? ==> offset <= EffectiveCursor(code, cursorPos).value
      modifies this
      ensures history == old(history) && cellId == old(cellId) && variables == old(variables)
      ensures suiteVariables == old(suiteVariables) && connections == old(connections)
      ensures newKeywords == old(newKeywords) && keywords == old(keywords) && listeners == old(listeners)
      ensures EffectiveCursor(code, cursorPos).None? ==> r.Err? && r.error.TypeError? && inspectData == old(inspectData)
      ensures EffectiveCursor(code, cursorPos).Some? ==>
                var needle := InspectNeedle(line, EffectiveCursor(code, cursorPos).value - offset);
                InspectedBy(needle, SearchHits(needle, hits), catalog, old(inspectData), inspectData, r)
      ensures r.Ok? && old(inspectData) != map[] ==> r.value.found
    {
      var effective := EffectiveCursor(code, cursorPos);
      if effective.None? {
        return Err(TypeError("unsupported operand type(s) for -: 'NoneType' and 'int'"));
      }
      var needle := InspectNeedle(line, effective.value - offset);
      r := InspectHits(needle, SearchHits(needle, hits), catalog);
    }

    /** The search loop of `do_inspect` and the update of the stored docs. */
    method InspectHits(needle: string, results: seq<string>, catalog: map<string, CatalogEntry>)
      returns (r: Result<InspectReply>)
      modifies this
      ensures history == old(history) && cellId == old(cellId) && variables == old(variables)
      ensures suiteVariables == old(suiteVariables) && connections == old(connections)
      ensures newKeywords == old(newKeywords) && keywords == old(keywords) && listeners == old(listeners)
      ensures InspectedBy(needle, results, catalog, old(inspectData), inspectData, r)
      ensures r.Ok? && old(inspectData) != map[] ==> r.value.found
    {
      var found := inspectData != map[];
      var accepted := AcceptFirst(needle, results, catalog);
      if accepted.Err? {
        return Err(accepted.error);
      }
      if accepted.value.Some? {
        inspectData := inspectData + catalog[results[accepted.value.value]].doc;
        found := true;
      }
      r := Ok(InspectReply(inspectData, found));
    }

    /**
     * `do_execute` with the outside world given by `host`. A `%%python module` cell is handed
     * to `execute_python`. Otherwise: collect the variables of the history and the cell,
     * configure the listeners, merge the cell into the suite (an error is replied at once and
     * the suite's tests are kept), remember the new keywords, run, save the cell under its id
     * when the reply is ok, and empty the suite's tests.
     */
    method DoExecute(code: string, silent: bool, host: Host)
      returns (reply: Reply, messages: seq<Message>, widgets: seq<WidgetSpec>)
      requires Valid()
      modifies this, suite, suite.keywords, suite.variables, suite.tests
      ensures Valid()
      ensures cellId == old(cellId) && inspectData == old(inspectData) && connections == old(connections)
      ensures PythonMagic(code) ==>
                && reply == host.pythonReply && messages == [] && widgets == []
                && history == old(history) && variables == old(variables) && suiteVariables == old(suiteVariables)
                && newKeywords == old(newKeywords) && keywords == old(keywords) && listeners == old(listeners)
                && unchanged(suite, suite.keywords, suite.variables, suite.tests)
      ensures !PythonMagic(code) ==>
                && variables == HistoryVariables(OrderedDicts.Values(old(history)), host.findVariables) + host.findVariables(code)
                && listeners == KernelListeners
      ensures !PythonMagic(code) && host.parse(code).errors != [] ==>
                var e := DataError(host.parse(code).errors[0]);
                && reply == ExecuteError(ErrorName(e), ErrorText(e), host.traceback)
                && messages == (if silent then [] else [ErrorMessage(ErrorName(e), ErrorText(e), host.traceback)])
                && history == old(history) && suiteVariables == old(suiteVariables)
                && newKeywords == old(newKeywords) && keywords == old(keywords)
                && unchanged(suite, suite.keywords, suite.variables, suite.tests)
      ensures !PythonMagic(code) && host.parse(code).errors == [] ==>
                var file := host.parse(code);
                && suite.imports == old(suite.imports) + Imports(file.sections)
                && suite.keywords.items == Dedup(old(suite.keywords.items) + SectionKeywords(file.sections))
                && suite.variables.items == Dedup(old(suite.variables.items) + SectionVariables(file.sections))
      ensures !PythonMagic(code) && host.parse(code).errors == [] && RpaMode(Some(host.parse(code))).Err? ==>
                var e := RpaMode(Some(host.parse(code))).error;
                && reply == ExecuteError(ErrorName(e), ErrorText(e), host.traceback)
                && messages == (if silent then [] else [ErrorMessage(ErrorName(e), ErrorText(e), host.traceback)])
                && history == old(history) && suiteVariables == old(suiteVariables)
                && newKeywords == old(newKeywords) && keywords == old(keywords)
                && suite.tests.items == old(suite.tests.items) + SectionTests(host.parse(code).sections)
                && suite.rpa == old(suite.rpa)
      ensures !PythonMagic(code) && host.parse(code).errors == [] && RpaMode(Some(host.parse(code))).Ok? ==>
                && suite.rpa == RpaMode(Some(host.parse(code))).value
                && newKeywords == NewItems(suite.keywords.items, old(keywords))
                && keywords == suite.keywords.items
                && suite.tests.items == []
                && (forall k :: k in suiteVariables <==> k in old(suiteVariables) && k !in Names(suite.variables.items))
                && (forall k | k in suiteVariables :: suiteVariables[k] == old(suiteVariables)[k])
                && (reply.ExecuteOk? ==> history == OrderedDicts.Put(old(history), HistoryKey(cellId, host.freshId), code))
                && (!reply.ExecuteOk? ==> history == old(history))
                && (old(suite.tests.items) + SectionTests(host.parse(code).sections) == [] ==>
                      && reply == ExecuteOk(host.executionCount) && messages == []
                      && widgets == WidgetSpecs(newKeywords, suite.rpa))
                && (old(suite.tests.items) + SectionTests(host.parse(code).sections) != [] ==>
                      && widgets == [] && reply == RunReply(host.outcome, host.executionCount)
                      && messages == CellRunMessages(KernelListeners, silent, suite.rpa, host))
    {
      if PythonMagic(code) {
        return host.pythonReply, [], [];
      }
      reply, messages, widgets := ExecuteCell(code, silent, host);
    }

    /** `do_execute` for a cell that is not a `%%python module` cell. */
    method ExecuteCell(code: string, silent: bool, host: Host)
      returns (reply: Reply, messages: seq<Message>, widgets: seq<WidgetSpec>)
      requires Valid()
      modifies this, suite, suite.keywords, suite.variables, suite.tests
      ensures Valid()
      ensures cellId == old(cellId) && inspectData == old(inspectData) && connections == old(connections)
      ensures variables == HistoryVariables(OrderedDicts.Values(old(history)), host.findVariables) + host.findVariables(code)
      ensures listeners == KernelListeners
      ensures host.parse(code).errors != [] ==>
                var e := DataError(host.parse(code).errors[0]);
                && reply == ExecuteError(ErrorName(e), ErrorText(e), host.traceback)
                && messages == (if silent then [] else [ErrorMessage(ErrorName(e), ErrorText(e), host.traceback)])
                && history == old(history) && suiteVariables == old(suiteVariables)
                && newKeywords == old(newKeywords) && keywords == old(keywords)
                && unchanged(suite, suite.keywords, suite.variables, suite.tests)
      ensures host.parse(code).errors == [] ==>
                var file := host.parse(code);
                && suite.imports == old(suite.imports) + Imports(file.sections)
                && suite.keywords.items == Dedup(old(suite.keywords.items) + SectionKeywords(file.sections))
                && suite.variables.items == Dedup(old(suite.variables.items) + SectionVariables(file.sections))
      ensures host.parse(code).errors == [] && RpaMode(Some(host.parse(code))).Err? ==>
                var e := RpaMode(Some(host.parse(code))).error;
                && reply == ExecuteError(ErrorName(e), ErrorText(e), host.traceback)
                && messages == (if silent then [] else [ErrorMessage(ErrorName(e), ErrorText(e), host.traceback)])
                && history == old(history) && suiteVariables == old(suiteVariables)
                && newKeywords == old(newKeywords) && keywords == old(keywords)
                && suite.tests.items == old(suite.tests.items) + SectionTests(host.parse(code).sections)
                && suite.rpa == old(suite.rpa)
      ensures host.parse(code).errors == [] && RpaMode(Some(host.parse(code))).Ok? ==>
                && suite.rpa == RpaMode(Some(host.parse(code))).value
                && newKeywords == NewItems(suite.keywords.items, old(keywords))
                && keywords == suite.keywords.items
                && suite.tests.items == []
                && (forall k :: k in suiteVariables <==> k in old(suiteVariables) && k !in Names(suite.variables.items))
                && (forall k | k in suiteVariables :: suiteVariables[k] == old(suiteVariables)[k])
                && (reply.ExecuteOk? ==> history == OrderedDicts.Put(old(history), HistoryKey(cellId, host.freshId), code))
                && (!reply.ExecuteOk? ==> history == old(history))
                && (old(suite.tests.items) + SectionTests(host.parse(code).sections) == [] ==>
                      && reply == ExecuteOk(host.executionCount) && messages == []
                      && widgets == WidgetSpecs(newKeywords, suite.rpa))
                && (old(suite.tests.items) + SectionTests(host.parse(code).sections) != [] ==>
                      && widgets == [] && reply == RunReply(host.outcome, host.executionCount)
                      && messages == CellRunMessages(KernelListeners, silent, suite.rpa, host))
    {
      // The completion candidates are recomputed from the whole history and this cell.
      variables := CollectVariables(OrderedDicts.Values(history), code, host.findVariables);
      // Every run gets a fresh set of the kernel's listeners.
      listeners := KernelListeners;
      // A cell that fails to merge is answered with the error; nothing else happens.
      var built := PopulateSuite(host.parse(code), suite);
      if built.Err? {
        var e := built.error;
        messages := if silent then [] else [ErrorMessage(ErrorName(e), ErrorText(e), host.traceback)];
        return ExecuteError(ErrorName(e), ErrorText(e), host.traceback), messages, [];
      }
      reply, messages, widgets := RunCell(code, silent, host);
    }

    /**
     * The rest of `do_execute` once the cell is merged: remember the new keywords, run, save
     * the cell under its id when the reply is ok, and empty the suite's tests.
     */
    method RunCell(code: string, silent: bool, host: Host)
      returns (reply: Reply, messages: seq<Message>, widgets: seq<WidgetSpec>)
      requires Valid()
      modifies this`newKeywords, this`keywords, this`suiteVariables, this`history, suite.tests
      ensures Valid()
      ensures cellId == old(cellId) && inspectData == old(inspectData) && connections == old(connections)
      ensures variables == old(variables) && listeners == old(listeners)
      ensures newKeywords == NewItems(suite.keywords.items, old(keywords)) && keywords == suite.keywords.items
      ensures suite.tests.items == []
      ensures Variables in listeners ==>
                forall k :: k in suiteVariables <==> k in old(suiteVariables) && k !in Names(suite.variables.items)
      ensures Variables !in listeners ==> suiteVariables == old(suiteVariables)
      ensures forall k | k in suiteVariables :: suiteVariables[k] == old(suiteVariables)[k]
      ensures reply.ExecuteOk? ==> history == OrderedDicts.Put(old(history), HistoryKey(cellId, host.freshId), code)
      ensures !reply.ExecuteOk? ==> history == old(history)
      ensures old(suite.tests.items) == [] ==>
                reply == ExecuteOk(host.executionCount) && messages == [] && widgets == WidgetSpecs(newKeywords, suite.rpa)
      ensures old(suite.tests.items) != [] ==>
                && widgets == [] && reply == RunReply(host.outcome, host.executionCount)
                && messages == CellRunMessages(listeners, silent, suite.rpa, host)
    {
      // The keywords not seen before become widgets when the cell has no tests.
      newKeywords := NewItems(suite.keywords.items, keywords);
      keywords := suite.keywords.items;
      reply, messages, widgets := RunTests(code, silent, host);
    }

    /**
     * The run proper: it purges the suite's variables from the cache and produces the reply;
     * only a cell whose reply is ok is kept in the history; tests run once, while keywords and
     * variables stay for later cells.
     */
    method RunTests(code: string, silent: bool, host: Host)
      returns (reply: Reply, messages: seq<Message>, widgets: seq<WidgetSpec>)
      requires Valid()
      modifies this`suiteVariables, this`history, suite.tests
      ensures Valid()
      ensures suite.tests.items == []
      ensures Variables in listeners ==>
                forall k :: k in suiteVariables <==> k in old(suiteVariables) && k !in Names(suite.variables.items)
      ensures Variables !in listeners ==> suiteVariables == old(suiteVariables)
      ensures forall k | k in suiteVariables :: suiteVariables[k] == old(suiteVariables)[k]
      ensures reply.ExecuteOk? ==> history == OrderedDicts.Put(old(history), HistoryKey(cellId, host.freshId), code)
      ensures !reply.ExecuteOk? ==> history == old(history)
      ensures old(suite.tests.items) == [] ==>
                reply == ExecuteOk(host.executionCount) && messages == [] && widgets == WidgetSpecs(newKeywords, suite.rpa)
      ensures old(suite.tests.items) != [] ==>
                && widgets == [] && reply == RunReply(host.outcome, host.executionCount)
                && messages == CellRunMessages(listeners, silent, suite.rpa, host)
    {
      var cache;
      reply, cache, messages, widgets := ExecuteRobot(suite, listeners, suiteVariables, newKeywords, silent,
                                                      host.outcome, host.env, host.path, host.cwd, host.executionCount);
      suiteVariables := cache;
      if reply.ExecuteOk? {
        history := OrderedDicts.Put(history, HistoryKey(cellId, host.freshId), code);
      }
      suite.tests.CleanItems();
    }
  }

  /** Running a cell twice under the same id leaves one history entry, holding the later code. */
  lemma RerunOverwrites(history: OrderedDicts.Dict<string, string>, id: string, first: string, second: string)
    requires OrderedDicts.Valid(history)
    ensures OrderedDicts.Put(OrderedDicts.Put(history, id, first), id, second) == OrderedDicts.Put(history, id, second)
    ensures OrderedDicts.Put(OrderedDicts.Put(history, id, first), id, second).vals[id] == second
  {
    OrderedDicts.PutTwice(history, id, first, second);
  }
}
