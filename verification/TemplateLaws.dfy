/**
 The angles of the delimiter scanners of cpplint over many lines: from "<" or ">"
 they find the lists of template arguments of the concatenated lines, and nothing
 else; where both directions let the same angles count, they undo each other.
 */
module TemplateLaws {
  import opened Brackets
  import opened Delimiters
  import opened DelimiterLaws
  import opened TemplateLists

  // ---------------------------------------------------------------------------
  // From the lines to one text

  /** A line of the file and its marks, inside the text. */
  ghost predicate LineIn(side: Side, isWord: char -> bool, text: string, marks: seq<Mark>, off: nat, line: string) {
    && |marks| == |text| && Window(text, off, line)
    && forall i :: 0 <= i < |line| ==> marks[off + i] == MarkOf(side, isWord, line, i)
  }

  lemma LastLine(side: Side, isWord: char -> bool, text: string, marks: seq<Mark>, line: string)
    requires |marks| == |text|
    ensures LineIn(side, isWord, text + line, marks + LineMarks(side, isWord, line), |text|, line)
  {
  }

  lemma MoreText(side: Side, isWord: char -> bool, text: string, marks: seq<Mark>, off: nat, line: string,
                 text': string, marks': seq<Mark>)
    requires LineIn(side, isWord, text, marks, off, line) && |text'| == |marks'|
    ensures LineIn(side, isWord, text + text', marks + marks', off, line)
  {
  }

  lemma NextLine(side: Side, isWord: char -> bool, lines: seq<string>, l: nat, n: nat)
    requires l < n < |lines| && |FlattenTo(lines, n)| == Offset(lines, n)
    requires LineIn(side, isWord, FlattenTo(lines, n), MarksTo(side, isWord, lines, n), Offset(lines, l), lines[l])
    ensures LineIn(side, isWord, FlattenTo(lines, n + 1), MarksTo(side, isWord, lines, n + 1), Offset(lines, l), lines[l])
  {
    var text, marks, last := FlattenTo(lines, n), MarksTo(side, isWord, lines, n), lines[n];
    MoreText(side, isWord, text, marks, Offset(lines, l), lines[l], last, LineMarks(side, isWord, last));
  }

  lemma {:induction false} MarksOfLine(side: Side, isWord: char -> bool, lines: seq<string>, l: nat, n: nat)
    requires l < n <= |lines|
    ensures LineIn(side, isWord, FlattenTo(lines, n), MarksTo(side, isWord, lines, n), Offset(lines, l), lines[l])
    decreases n
  {
    FlattenLength(lines, n - 1);
    if l < n - 1 {
      MarksOfLine(side, isWord, lines, l, n - 1);
      NextLine(side, isWord, lines, l, n - 1);
    } else {
      MarksMark(side, isWord, lines, l);
      LastLine(side, isWord, FlattenTo(lines, l), MarksTo(side, isWord, lines, l), lines[l]);
    }
  }

  lemma {:induction false} MarksMark(side: Side, isWord: char -> bool, lines: seq<string>, n: nat)
    requires n <= |lines|
    ensures Marked(FlattenTo(lines, n), MarksTo(side, isWord, lines, n))
    ensures side == Leftward ==> Again !in MarksTo(side, isWord, lines, n)
  {
    if n > 0 {
      MarksMark(side, isWord, lines, n - 1);
      var line := lines[n - 1];
      forall i | 0 <= i < |line|
        ensures MarkOf(side, isWord, line, i) == Bracket <==> IsOpen(line[i]) || IsClose(line[i])
      {
      }
    }
  }

  /** The marks of a file, and those of one of its lines. */
  lemma FileMarks(side: Side, isWord: char -> bool, lines: seq<string>, l: nat)
    requires l < |lines|
    ensures Marked(Flatten(lines), Marks(side, isWord, lines))
    ensures side == Leftward ==> Again !in Marks(side, isWord, lines)
    ensures LineIn(side, isWord, Flatten(lines), Marks(side, isWord, lines), Offset(lines, l), lines[l])
  {
    MarksMark(side, isWord, lines, |lines|);
    MarksOfLine(side, isWord, lines, l, |lines|);
  }

  lemma RightRole(isWord: char -> bool, line: string, i: nat)
    requires i < |line|
    ensures RoleOf(RightMark(isWord, line, i), line[i]) == ForwardRole(isWord, line, i)
  {
  }

  lemma {:induction false} LineScan(isWord: char -> bool, text: string, marks: seq<Mark>, off: nat, line: string, i: nat,
                                    stack: string)
    requires LineIn(Rightward, isWord, text, marks, off, line) && i <= |line|
    ensures MarkScan(text, marks, off + i, stack)
         == match ScanForward(isWord, line, i, stack)
            case Pending(s) => MarkScan(text, marks, off + |line|, s)
            case r => Shifted(off, r)
    decreases |line| - i
  {
    if i < |line| {
      RightRole(isWord, line, i);
      var role := ForwardRole(isWord, line, i);
      assert marks[off + i] == MarkOf(Rightward, isWord, line, i) && text[off + i] == line[i];
      assert ForwardStep(role, line[i], off + i, stack) == Shifted(off, ForwardStep(role, line[i], i, stack));
      match ForwardStep(role, line[i], i, stack)
      case Pending(s) => LineScan(isWord, text, marks, off, line, i + 1, s);
      case _ =>
    }
  }

  lemma {:induction false} ScanKeepsSome(isWord: char -> bool, line: string, i: nat, stack: string)
    requires stack != []
    ensures match ScanForward(isWord, line, i, stack) case Pending(s) => s != [] case _ => true
    decreases |line| - i
  {
    if i < |line| {
      match ForwardStep(ForwardRole(isWord, line, i), line[i], i, stack)
      case Pending(s) => ScanKeepsSome(isWord, line, i + 1, s);
      case _ =>
    }
  }

  /** The place a scan finds is that found in the text of all lines. */
  ghost predicate SamePlace(lines: seq<string>, place: Place, r: Scan) {
    match place
    case At(n, e) => n < |lines| && e <= |lines[n]| && r == Found(Offset(lines, n) + e)
    case Nowhere(_) => !r.Found?
  }

  /** One line of a scan, seen as a stretch of the text. */
  lemma StretchRight(isWord: char -> bool, text: string, marks: seq<Mark>, off: nat, line: string, i: nat,
                     stack: string)
    requires LineIn(Rightward, isWord, text, marks, off, line) && i <= |line| && stack != []
    ensures var r := ScanForward(isWord, line, i, stack);
            && MarkScan(text, marks, off + i, stack)
               == (if r.Pending? then MarkScan(text, marks, off + |line|, r.stack) else Shifted(off, r))
            && (r.Pending? ==> r.stack != []) && (r.Found? ==> i < r.pos <= |line|)
  {
    LineScan(isWord, text, marks, off, line, i, stack);
    ScanKeepsSome(isWord, line, i, stack);
    ScanStaysInLine(isWord, line, i, stack);
  }

  /** The scan of a line that is left for the next, or ends the scan. */
  lemma LineToNext(isWord: char -> bool, lines: seq<string>, l: nat, i: nat, stack: string)
    requires l < |lines| && i <= |lines[l]| && stack != []
    requires |Marks(Rightward, isWord, lines)| == |Flatten(lines)|
    ensures var r := ScanForward(isWord, lines[l], i, stack);
            var flat := MarkScan(Flatten(lines), Marks(Rightward, isWord, lines), Offset(lines, l) + i, stack);
            if r.Pending? && l + 1 < |lines| then
              && r.stack != []
              && flat == MarkScan(Flatten(lines), Marks(Rightward, isWord, lines), Offset(lines, l + 1), r.stack)
            else if r.Found? then
              r.pos <= |lines[l]| && flat == Found(Offset(lines, l) + r.pos)
            else !flat.Found?
  {
    var text, marks, off := Flatten(lines), Marks(Rightward, isWord, lines), Offset(lines, l);
    FileMarks(Rightward, isWord, lines, l);
    StretchRight(isWord, text, marks, off, lines[l], i, stack);
    FlattenLength(lines, |lines|);
  }

  lemma {:induction false} CloseFromIsScan(isWord: char -> bool, lines: seq<string>, l: nat, i: nat, stack: string)
    requires l < |lines| && i <= |lines[l]| && stack != []
    requires |Marks(Rightward, isWord, lines)| == |Flatten(lines)|
    ensures SamePlace(lines, CloseFrom(isWord, lines, l, i, stack),
                      MarkScan(Flatten(lines), Marks(Rightward, isWord, lines), Offset(lines, l) + i, stack))
    decreases |lines| - l
  {
    LineToNext(isWord, lines, l, i, stack);
    var r := ScanForward(isWord, lines[l], i, stack);
    if r.Pending? && l + 1 < |lines| {
      CloseFromIsScan(isWord, lines, l + 1, 0, r.stack);
    }
  }

  // ---------------------------------------------------------------------------
  // From the lines to one text, leftward

  /** A scan to the left never stops between two "<" that cancel. */
  predicate NotBetween(line: string, i: nat) {
    After(line, i, '<') ==> RunOfLess(line, i) % 2 == 0
  }

  /** The parts of the last of i characters, and of the one before it if the scan
      skips that. */
  lemma LeftRole(isWord: char -> bool, line: string, i: nat)
    requires 0 < i <= |line| && NotBetween(line, i)
    ensures var role := BackwardRole(isWord, line, i - 1);
            if role == Shift then
              && i > 1 && LeftMark(isWord, line, i - 1) == LeftMark(isWord, line, i - 2) == Ordinary
              && NotBetween(line, i - 2)
            else
              role == RoleOf(LeftMark(isWord, line, i - 1), line[i - 1]) && NotBetween(line, i - 1)
  {
    if line[i - 1] == '<' {
      assert After(line, i, '<') && RunOfLess(line, i - 1) == 1 + RunOfLess(line, i);
      assert After(line, i - 1, '<') ==> RunOfLess(line, i - 2) == 1 + RunOfLess(line, i - 1);
    } else if line[i - 1] == '>' && BackwardRole(isWord, line, i - 1) == Shift {
      SkippedIsNoAngle(isWord, line, i - 1);
      assert RunOfLess(line, i - 2) == 0;
    } else {
      assert RunOfLess(line, i - 1) == 0;
    }
  }

  /** What a scan skips before ">" is a minus, a space or the end of a word. */
  lemma SkippedIsNoAngle(isWord: char -> bool, line: string, i: nat)
    requires i < |line| && line[i] == '>' && BackwardRole(isWord, line, i) == Shift
    ensures i > 0 && line[i - 1] != '<' && line[i - 1] != '>' && line[i - 1] != ';'
    ensures !IsOpen(line[i - 1]) && !IsClose(line[i - 1])
  {
    if EndsWithOperator(isWord, line[..i]) && !IsSpace(line[i - 1]) {
      assert line[..i][i - 8..][7] == line[i - 1] == 'r';
    }
  }

  /** One step of the scan of a line, seen in the text. */
  lemma BackStepInText(isWord: char -> bool, text: string, marks: seq<Mark>, off: nat, line: string, i: nat,
                       stack: string)
    requires LineIn(Leftward, isWord, text, marks, off, line) && 0 < i <= |line| && NotBetween(line, i)
    ensures MarkBack(text, marks, off + i, stack)
         == if BackwardRole(isWord, line, i - 1) == Shift then
              MarkBack(text, marks, off + i - 2, stack)
            else
              match BackwardStep(BackwardRole(isWord, line, i - 1), line[i - 1], i - 1, stack)
              case Pending(s) => MarkBack(text, marks, off + i - 1, s)
              case r => Shifted(off, r)
    ensures BackwardRole(isWord, line, i - 1) == Shift ==> i > 1 && NotBetween(line, i - 2)
    ensures BackwardRole(isWord, line, i - 1) != Shift ==> NotBetween(line, i - 1)
  {
    LeftRole(isWord, line, i);
    assert marks[off + (i - 1)] == MarkOf(Leftward, isWord, line, i - 1) && text[off + (i - 1)] == line[i - 1];
    if BackwardRole(isWord, line, i - 1) == Shift {
      assert marks[off + (i - 2)] == MarkOf(Leftward, isWord, line, i - 2);
    }
  }

  lemma {:induction false} LineBack(isWord: char -> bool, text: string, marks: seq<Mark>, off: nat, line: string, i: nat,
                                    stack: string)
    requires LineIn(Leftward, isWord, text, marks, off, line) && i <= |line| && NotBetween(line, i)
    ensures MarkBack(text, marks, off + i, stack)
         == match ScanBackward(isWord, line, i, stack)
            case Pending(s) => MarkBack(text, marks, off, s)
            case r => Shifted(off, r)
  {
    if i > 0 {
      BackStepInText(isWord, text, marks, off, line, i, stack);
      var role := BackwardRole(isWord, line, i - 1);
      match BackwardStep(role, line[i - 1], i - 1, stack)
      case Pending(s) => LineBack(isWord, text, marks, off, line, if role == Shift then i - 2 else i - 1, s);
      case _ =>
    }
  }

  lemma {:induction false} BackKeepsSome(isWord: char -> bool, line: string, i: nat, stack: string)
    requires i <= |line| && stack != []
    ensures match ScanBackward(isWord, line, i, stack) case Pending(s) => s != [] case _ => true
  {
    if i > 0 {
      var role := BackwardRole(isWord, line, i - 1);
      match BackwardStep(role, line[i - 1], i - 1, stack)
      case Pending(s) => BackKeepsSome(isWord, line, if role == Shift then i - 2 else i - 1, s);
      case _ =>
    }
  }

  lemma StretchLeft(isWord: char -> bool, text: string, marks: seq<Mark>, off: nat, line: string, i: nat,
                    stack: string)
    requires LineIn(Leftward, isWord, text, marks, off, line) && i <= |line| && NotBetween(line, i) && stack != []
    ensures var r := ScanBackward(isWord, line, i, stack);
            && MarkBack(text, marks, off + i, stack)
               == (if r.Pending? then MarkBack(text, marks, off, r.stack) else Shifted(off, r))
            && (r.Pending? ==> r.stack != []) && (r.Found? ==> r.pos < i)
  {
    LineBack(isWord, text, marks, off, line, i, stack);
    BackKeepsSome(isWord, line, i, stack);
    BackScanStaysInLine(isWord, line, i, stack);
  }

  lemma LineToPrevious(isWord: char -> bool, lines: seq<string>, l: nat, i: nat, stack: string)
    requires l < |lines| && i <= |lines[l]| && stack != [] && NotBetween(lines[l], i)
    requires |Marks(Leftward, isWord, lines)| == |Flatten(lines)| >= Offset(lines, l) + i
    ensures var r := ScanBackward(isWord, lines[l], i, stack);
            var flat := MarkBack(Flatten(lines), Marks(Leftward, isWord, lines), Offset(lines, l) + i, stack);
            if r.Pending? then
              r.stack != [] && flat == MarkBack(Flatten(lines), Marks(Leftward, isWord, lines), Offset(lines, l), r.stack)
            else if r.Found? then
              r.pos <= |lines[l]| && flat == Found(Offset(lines, l) + r.pos)
            else flat == Broken
  {
    FileMarks(Leftward, isWord, lines, l);
    StretchLeft(isWord, Flatten(lines), Marks(Leftward, isWord, lines), Offset(lines, l), lines[l], i, stack);
  }

  lemma {:induction false} OpenFromIsBack(isWord: char -> bool, lines: seq<string>, l: nat, i: nat, stack: string)
    requires l < |lines| && i <= |lines[l]| && stack != [] && NotBetween(lines[l], i)
    requires |Marks(Leftward, isWord, lines)| == |Flatten(lines)| >= Offset(lines, l) + i
    ensures SamePlace(lines, OpenFrom(isWord, lines, l, i, stack),
                      MarkBack(Flatten(lines), Marks(Leftward, isWord, lines), Offset(lines, l) + i, stack))
    decreases l
  {
    LineToPrevious(isWord, lines, l, i, stack);
    var r := ScanBackward(isWord, lines[l], i, stack);
    if r.Pending? && l > 0 {
      assert Offset(lines, l) == Offset(lines, l - 1) + |lines[l - 1]|;
      OpenFromIsBack(isWord, lines, l - 1, |lines[l - 1]|, r.stack);
    }
  }

  // ---------------------------------------------------------------------------
  // Main results

  /** text[p..e] is a group of real brackets or a list of template arguments. */
  ghost predicate Bracketed(text: string, marks: seq<Mark>, p: nat, e: nat)
    requires |marks| == |text|
  {
    Group(text, p, e) || ArgumentList(text, marks, p, e)
  }

  /** The lines from (l, p) to (n, e) are a group or a list. */
  ghost predicate BracketedLines(side: Side, isWord: char -> bool, lines: seq<string>, l: nat, p: nat, n: nat, e: nat)
    requires l < |lines| && n < |lines|
  {
    && |Marks(side, isWord, lines)| == |Flatten(lines)|
    && Bracketed(Flatten(lines), Marks(side, isWord, lines), Offset(lines, l) + p, Offset(lines, n) + e)
  }

  /** The lines from (l, p) to (n, e) are a list of template arguments. */
  ghost predicate ListLines(side: Side, isWord: char -> bool, lines: seq<string>, l: nat, p: nat, n: nat, e: nat)
    requires l < |lines| && n < |lines|
  {
    && |Marks(side, isWord, lines)| == |Flatten(lines)|
    && ArgumentList(Flatten(lines), Marks(side, isWord, lines), Offset(lines, l) + p, Offset(lines, n) + e)
  }

  predicate FollowedBy(line: string, p: nat, c: char) {
    p + 1 < |line| && line[p + 1] == c
  }

  /** CloseExpression takes opening brackets, and "<" but for "<<" and "<=". */
  predicate Accepts(line: string, p: nat)
    requires p < |line|
  {
    IsOpen(line[p]) || (line[p] == '<' && !FollowedBy(line, p, '<') && !FollowedBy(line, p, '='))
  }

  lemma RefusedElse(isWord: char -> bool, lines: seq<string>, l: nat, p: nat)
    requires l < |lines| && p < |lines[l]|
    ensures !Accepts(lines[l], p) ==> CloseOf(isWord, lines, l, p) == Nowhere(l)
    ensures Accepts(lines[l], p) ==> CloseOf(isWord, lines, l, p) == CloseFrom(isWord, lines, l, p, [])
  {
  }

  predicate StartsHere(isWord: char -> bool, line: string, i: nat)
    requires i < |line|
  {
    IsOpen(line[i]) || RightMark(isWord, line, i) == ListStart
  }

  predicate EndsHere(isWord: char -> bool, line: string, i: nat)
    requires i < |line|
  {
    IsClose(line[i]) || LeftMark(isWord, line, i) == ListEnd
  }

  /** The first start of a group or a list from i on, before any closing bracket
      or semicolon; the end of the line if there is none. */
  function FirstStart(isWord: char -> bool, line: string, i: nat): (q: nat)
    requires i <= |line|
    ensures i <= q <= |line| && (q < |line| ==> StartsHere(isWord, line, q))
    decreases |line| - i
  {
    if i == |line| || StartsHere(isWord, line, i) then i
    else if IsClose(line[i]) || line[i] == ';' then |line|
    else FirstStart(isWord, line, i + 1)
  }

  /** Past the last end of a group or a list in the first i characters, after any
      opening bracket or semicolon; 0 if there is none. */
  function LastEnd(isWord: char -> bool, line: string, i: nat): (e: nat)
    requires i <= |line|
    ensures e <= i && (e > 0 ==> EndsHere(isWord, line, e - 1))
  {
    if i == 0 || EndsHere(isWord, line, i - 1) then i
    else if IsOpen(line[i - 1]) || line[i - 1] == ';' then 0
    else LastEnd(isWord, line, i - 1)
  }

  lemma {:induction false} ScanFromNothing(isWord: char -> bool, line: string, i: nat)
    requires i <= |line|
    ensures var q, r := FirstStart(isWord, line, i), ScanForward(isWord, line, i, []);
            if q < |line| then r == ScanForward(isWord, line, q, []) else r == Broken || r == Pending([])
    decreases |line| - i
  {
    if i < |line| && !StartsHere(isWord, line, i) && !IsClose(line[i]) && line[i] != ';' {
      RightRole(isWord, line, i);
      ScanFromNothing(isWord, line, i + 1);
    }
  }

  /** Where the scan from a start ends, in the text of all lines. */
  ghost function EndScan(text: string, marks: seq<Mark>, p: nat): Scan
    requires |marks| == |text| && p < |text|
  {
    if IsOpen(text[p]) then PlainForward(text, p, []) else ListScan(text, marks, p + 1, 1)
  }

  lemma EndScanFinds(text: string, marks: seq<Mark>, p: nat, e: nat)
    requires Marked(text, marks) && p < |text| && (IsOpen(text[p]) || marks[p] == ListStart)
    ensures EndScan(text, marks, p) == Found(e) <==> Bracketed(text, marks, p, e)
  {
    if IsOpen(text[p]) {
      ForwardFindsGroup(text, p, e);
    } else {
      ScanFindsList(text, marks, p, e);
    }
  }

  lemma ScanPushesAngle(isWord: char -> bool, line: string, q: nat)
    requires q < |line| && RightMark(isWord, line, q) == ListStart
    ensures ScanForward(isWord, line, q, []) == ScanForward(isWord, line, q + 1, ['<'])
  {
    RightRole(isWord, line, q);
    assert [] + ['<'] == ['<'];
  }

  lemma CloseFromList(isWord: char -> bool, lines: seq<string>, l: nat, q: nat)
    requires l < |lines| && q < |lines[l]| && RightMark(isWord, lines[l], q) == ListStart
    requires |Marks(Rightward, isWord, lines)| == |Flatten(lines)|
    ensures SamePlace(lines, CloseFrom(isWord, lines, l, q, []),
                      ListScan(Flatten(lines), Marks(Rightward, isWord, lines), Offset(lines, l) + q + 1, 1))
  {
    ScanPushesAngle(isWord, lines[l], q);
    OneAngle('<');
    CloseFromIsScan(isWord, lines, l, q + 1, ['<']);
  }

  lemma CloseFromStart(isWord: char -> bool, lines: seq<string>, l: nat, q: nat)
    requires l < |lines| && q < |lines[l]| && StartsHere(isWord, lines[l], q)
    requires |Marks(Rightward, isWord, lines)| == |Flatten(lines)| > Offset(lines, l) + q
    requires Flatten(lines)[Offset(lines, l) + q] == lines[l][q]
    ensures SamePlace(lines, CloseFrom(isWord, lines, l, q, []),
                      EndScan(Flatten(lines), Marks(Rightward, isWord, lines), Offset(lines, l) + q))
  {
    if IsOpen(lines[l][q]) {
      CloseOfIsFlat(isWord, lines, l, q);
    } else {
      CloseFromList(isWord, lines, l, q);
    }
  }

  /** A place is told by the text before it. */
  lemma SamePlaceFound(lines: seq<string>, place: Place, r: Scan, n: nat, e: nat)
    requires SamePlace(lines, place, r) && n < |lines| && 0 < e <= |lines[n]| && (place.At? ==> place.pos > 0)
    ensures place == At(n, e) <==> r == Found(Offset(lines, n) + e)
  {
    match place
    case At(n', e') =>
      if r == Found(Offset(lines, n) + e) {
        PlacesAreDistinct(lines, n, e - 1, n', e' - 1);
      }
    case Nowhere(_) =>
  }

  lemma StartIsMarked(isWord: char -> bool, lines: seq<string>, l: nat, q: nat)
    requires l < |lines| && q < |lines[l]| && StartsHere(isWord, lines[l], q)
    ensures var text, marks, p := Flatten(lines), Marks(Rightward, isWord, lines), Offset(lines, l) + q;
            Marked(text, marks) && p < |text| && text[p] == lines[l][q]
            && (IsOpen(text[p]) || marks[p] == ListStart)
  {
    FileMarks(Rightward, isWord, lines, l);
    PlaceInText(lines, l, q);
    assert Marks(Rightward, isWord, lines)[Offset(lines, l) + q] == MarkOf(Rightward, isWord, lines[l], q);
  }

  lemma PlaceIsEnd(lines: seq<string>, place: Place, text: string, marks: seq<Mark>, p: nat, n: nat, e: nat)
    requires Marked(text, marks) && p < |text| && (IsOpen(text[p]) || marks[p] == ListStart)
    requires SamePlace(lines, place, EndScan(text, marks, p)) && (place.At? ==> place.pos > 0)
    requires n < |lines| && 0 < e <= |lines[n]|
    ensures place == At(n, e) <==> Bracketed(text, marks, p, Offset(lines, n) + e)
  {
    SamePlaceFound(lines, place, EndScan(text, marks, p), n, e);
    EndScanFinds(text, marks, p, Offset(lines, n) + e);
  }

  lemma CloseFromFinds(isWord: char -> bool, lines: seq<string>, l: nat, q: nat, n: nat, e: nat)
    requires l < |lines| && q < |lines[l]| && StartsHere(isWord, lines[l], q)
    requires n < |lines| && 0 < e <= |lines[n]|
    ensures CloseFrom(isWord, lines, l, q, []) == At(n, e) <==> BracketedLines(Rightward, isWord, lines, l, q, n, e)
  {
    StartIsMarked(isWord, lines, l, q);
    CloseFromStart(isWord, lines, l, q);
    CloseIsPastCharacter(isWord, lines, l, q, []);
    PlaceIsEnd(lines, CloseFrom(isWord, lines, l, q, []), Flatten(lines), Marks(Rightward, isWord, lines),
               Offset(lines, l) + q, n, e);
  }

  lemma CloseSkipsToStart(isWord: char -> bool, lines: seq<string>, l: nat, p: nat)
    requires l < |lines| && p < |lines[l]| && Accepts(lines[l], p)
    ensures var q := FirstStart(isWord, lines[l], p);
            CloseOf(isWord, lines, l, p) == if q < |lines[l]| then CloseFrom(isWord, lines, l, q, []) else Nowhere(l)
  {
    RefusedElse(isWord, lines, l, p);
    ScanFromNothing(isWord, lines[l], p);
  }

  /** From a character it accepts, and from no other, CloseExpression finds the end
      of the first group or list of the line from there on, over many lines. */
  lemma CloseFindsBracketed(isWord: char -> bool, lines: seq<string>, l: nat, p: nat, n: nat, e: nat)
    requires l < |lines| && p < |lines[l]| && n < |lines| && 0 < e <= |lines[n]|
    ensures var q := FirstStart(isWord, lines[l], p);
            CloseOf(isWord, lines, l, p) == At(n, e) <==>
            Accepts(lines[l], p) && q < |lines[l]| && BracketedLines(Rightward, isWord, lines, l, q, n, e)
  {
    var q := FirstStart(isWord, lines[l], p);
    RefusedElse(isWord, lines, l, p);
    if Accepts(lines[l], p) {
      CloseSkipsToStart(isWord, lines, l, p);
      if q < |lines[l]| {
        CloseFromFinds(isWord, lines, l, q, n, e);
      }
    }
  }

  lemma StartsNoGroup(isWord: char -> bool, lines: seq<string>, l: nat, p: nat, n: nat, e: nat)
    requires l < |lines| && p < |lines[l]| && RightMark(isWord, lines[l], p) == ListStart && n < |lines|
    ensures BracketedLines(Rightward, isWord, lines, l, p, n, e) <==> ListLines(Rightward, isWord, lines, l, p, n, e)
  {
    StartIsMarked(isWord, lines, l, p);
  }

  /** From the start of a list CloseExpression finds exactly the list, unless the
      start looks like "<<" or "<=". */
  lemma ListsAreFound(isWord: char -> bool, lines: seq<string>, l: nat, p: nat, n: nat, e: nat)
    requires l < |lines| && p < |lines[l]| && RightMark(isWord, lines[l], p) == ListStart
    requires n < |lines| && 0 < e <= |lines[n]|
    ensures CloseOf(isWord, lines, l, p) == At(n, e) <==>
            && !FollowedBy(lines[l], p, '<') && !FollowedBy(lines[l], p, '=')
            && ListLines(Rightward, isWord, lines, l, p, n, e)
  {
    RefusedElse(isWord, lines, l, p);
    CloseFromFinds(isWord, lines, l, p, n, e);
    StartsNoGroup(isWord, lines, l, p, n, e);
  }

  lemma NoPlaceNoEnd(lines: seq<string>, place: Place, text: string, marks: seq<Mark>, p: nat, e: nat)
    requires Marked(text, marks) && p < |text| && marks[p] == ListStart
    requires SamePlace(lines, place, EndScan(text, marks, p)) && place.Nowhere?
    ensures !ArgumentList(text, marks, p, e)
  {
    EndScanFinds(text, marks, p, e);
  }

  /** If it fails there, then no list starts there, wherever that may end. */
  lemma FailureMeansNoList(isWord: char -> bool, lines: seq<string>, l: nat, p: nat, e: nat)
    requires l < |lines| && p < |lines[l]| && RightMark(isWord, lines[l], p) == ListStart
    requires Accepts(lines[l], p) && CloseOf(isWord, lines, l, p).Nowhere?
    ensures |Marks(Rightward, isWord, lines)| == |Flatten(lines)|
    ensures !ArgumentList(Flatten(lines), Marks(Rightward, isWord, lines), Offset(lines, l) + p, e)
  {
    StartIsMarked(isWord, lines, l, p);
    CloseFromStart(isWord, lines, l, p);
    NoPlaceNoEnd(lines, CloseOf(isWord, lines, l, p), Flatten(lines), Marks(Rightward, isWord, lines),
                 Offset(lines, l) + p, e);
  }

  // ---------------------------------------------------------------------------
  // The same, leftward

  /** How far a scan to the left goes on from i with nothing pending. */
  function NextLeft(isWord: char -> bool, line: string, i: nat): (j: nat)
    requires 0 < i <= |line|
  {
    if BackwardRole(isWord, line, i - 1) == Shift then i - 2 else i - 1
  }

  lemma LastEndSkips(isWord: char -> bool, line: string, i: nat)
    requires 0 < i <= |line| && NotBetween(line, i)
    requires !EndsHere(isWord, line, i - 1) && !IsOpen(line[i - 1]) && line[i - 1] != ';'
    ensures LastEnd(isWord, line, i) == LastEnd(isWord, line, NextLeft(isWord, line, i))
  {
    LeftRole(isWord, line, i);
    assert LastEnd(isWord, line, i) == LastEnd(isWord, line, i - 1);
  }

  lemma ScanSkips(isWord: char -> bool, line: string, i: nat)
    requires 0 < i <= |line| && NotBetween(line, i)
    requires !EndsHere(isWord, line, i - 1) && !IsOpen(line[i - 1]) && line[i - 1] != ';'
    ensures ScanBackward(isWord, line, i, []) == ScanBackward(isWord, line, NextLeft(isWord, line, i), [])
    ensures NotBetween(line, NextLeft(isWord, line, i))
  {
    LeftRole(isWord, line, i);
    var role := BackwardRole(isWord, line, i - 1);
    assert role == Shift || role == Ignored || role == AngleStart;
  }

  lemma {:induction false} BackFromNothing(isWord: char -> bool, line: string, i: nat)
    requires i <= |line| && NotBetween(line, i)
    ensures var e, r := LastEnd(isWord, line, i), ScanBackward(isWord, line, i, []);
            if e > 0 then r == ScanBackward(isWord, line, e, []) else r == Broken || r == Pending([])
  {
    if i > 0 && !EndsHere(isWord, line, i - 1) && !IsOpen(line[i - 1]) && line[i - 1] != ';' {
      LastEndSkips(isWord, line, i);
      ScanSkips(isWord, line, i);
      BackFromNothing(isWord, line, NextLeft(isWord, line, i));
    }
  }

  ghost function StartScan(text: string, marks: seq<Mark>, e: nat): Scan
    requires |marks| == |text| && 0 < e <= |text|
  {
    if IsClose(text[e - 1]) then PlainBackward(text, e, []) else ListBack(text, marks, e - 1, 1)
  }

  lemma StartScanFinds(text: string, marks: seq<Mark>, p: nat, e: nat)
    requires Marked(text, marks) && Again !in marks && 0 < e <= |text|
    requires IsClose(text[e - 1]) || marks[e - 1] == ListEnd
    ensures StartScan(text, marks, e) == Found(p) <==> Bracketed(text, marks, p, e)
  {
    if IsClose(text[e - 1]) {
      BackwardFindsGroup(text, p, e);
    } else {
      BackFindsList(text, marks, p, e);
    }
  }

  lemma EndIsMarked(isWord: char -> bool, lines: seq<string>, n: nat, q: nat)
    requires n < |lines| && q < |lines[n]| && EndsHere(isWord, lines[n], q)
    ensures var text, marks, i := Flatten(lines), Marks(Leftward, isWord, lines), Offset(lines, n) + q;
            Marked(text, marks) && Again !in marks && i < |text| && text[i] == lines[n][q]
            && (IsClose(text[i]) || marks[i] == ListEnd)
  {
    FileMarks(Leftward, isWord, lines, n);
    PlaceInText(lines, n, q);
    assert Marks(Leftward, isWord, lines)[Offset(lines, n) + q] == MarkOf(Leftward, isWord, lines[n], q);
  }

  lemma BackPushesAngle(isWord: char -> bool, line: string, q: nat)
    requires q < |line| && LeftMark(isWord, line, q) == ListEnd
    ensures ScanBackward(isWord, line, q + 1, []) == ScanBackward(isWord, line, q, ['>'])
    ensures NotBetween(line, q)
  {
    LeftRole(isWord, line, q + 1);
    assert [] + ['>'] == ['>'];
  }

  lemma OpenFromList(isWord: char -> bool, lines: seq<string>, n: nat, q: nat)
    requires n < |lines| && q < |lines[n]| && LeftMark(isWord, lines[n], q) == ListEnd
    requires |Marks(Leftward, isWord, lines)| == |Flatten(lines)| > Offset(lines, n) + q
    ensures SamePlace(lines, OpenFrom(isWord, lines, n, q + 1, []),
                      ListBack(Flatten(lines), Marks(Leftward, isWord, lines), Offset(lines, n) + q, 1))
  {
    BackPushesAngle(isWord, lines[n], q);
    OneAngle('>');
    OpenFromIsBack(isWord, lines, n, q, ['>']);
  }

  lemma OpenFromEnd(isWord: char -> bool, lines: seq<string>, n: nat, q: nat)
    requires n < |lines| && q < |lines[n]| && EndsHere(isWord, lines[n], q)
    requires |Marks(Leftward, isWord, lines)| == |Flatten(lines)| > Offset(lines, n) + q
    requires Flatten(lines)[Offset(lines, n) + q] == lines[n][q]
    ensures SamePlace(lines, OpenFrom(isWord, lines, n, q + 1, []),
                      StartScan(Flatten(lines), Marks(Leftward, isWord, lines), Offset(lines, n) + q + 1))
  {
    if IsClose(lines[n][q]) {
      OpenOfIsFlat(isWord, lines, n, q);
    } else {
      OpenFromList(isWord, lines, n, q);
    }
  }

  lemma {:induction false} OpenIsCharacter(isWord: char -> bool, lines: seq<string>, l: nat, i: nat, stack: string)
    requires l < |lines| && i <= |lines[l]|
    ensures match OpenFrom(isWord, lines, l, i, stack)
            case At(n, p) => n <= l && p < |lines[n]|
            case Nowhere(_) => true
    decreases l
  {
    BackScanStaysInLine(isWord, lines[l], i, stack);
    match ScanBackward(isWord, lines[l], i, stack)
    case Pending(s) =>
      if s != [] && l > 0 {
        OpenIsCharacter(isWord, lines, l - 1, |lines[l - 1]|, s);
      }
    case _ =>
  }

  lemma SameCharacterFound(lines: seq<string>, place: Place, r: Scan, l: nat, p: nat)
    requires SamePlace(lines, place, r) && l < |lines| && p < |lines[l]|
    requires place.At? ==> place.pos < |lines[place.linenum]|
    ensures place == At(l, p) <==> r == Found(Offset(lines, l) + p)
  {
    match place
    case At(l', p') =>
      if r == Found(Offset(lines, l) + p) {
        PlacesAreDistinct(lines, l, p, l', p');
      }
    case Nowhere(_) =>
  }

  lemma PlaceIsStart(lines: seq<string>, place: Place, text: string, marks: seq<Mark>, e: nat, l: nat, p: nat)
    requires Marked(text, marks) && Again !in marks && 0 < e <= |text|
    requires IsClose(text[e - 1]) || marks[e - 1] == ListEnd
    requires SamePlace(lines, place, StartScan(text, marks, e))
    requires place.At? ==> place.pos < |lines[place.linenum]|
    requires l < |lines| && p < |lines[l]|
    ensures place == At(l, p) <==> Bracketed(text, marks, Offset(lines, l) + p, e)
  {
    SameCharacterFound(lines, place, StartScan(text, marks, e), l, p);
    StartScanFinds(text, marks, Offset(lines, l) + p, e);
  }

  lemma OpenFromFinds(isWord: char -> bool, lines: seq<string>, n: nat, e: nat, l: nat, p: nat)
    requires n < |lines| && 0 < e <= |lines[n]| && EndsHere(isWord, lines[n], e - 1)
    requires l < |lines| && p < |lines[l]|
    ensures OpenFrom(isWord, lines, n, e, []) == At(l, p) <==> BracketedLines(Leftward, isWord, lines, l, p, n, e)
  {
    EndIsMarked(isWord, lines, n, e - 1);
    OpenFromEnd(isWord, lines, n, e - 1);
    OpenIsCharacter(isWord, lines, n, e, []);
    PlaceIsStart(lines, OpenFrom(isWord, lines, n, e, []), Flatten(lines), Marks(Leftward, isWord, lines),
                 Offset(lines, n) + e, l, p);
  }

  lemma OpenSkipsToEnd(isWord: char -> bool, lines: seq<string>, n: nat, q: nat)
    requires n < |lines| && q < |lines[n]|
    ensures var e := LastEnd(isWord, lines[n], q + 1);
            OpenOf(isWord, lines, n, q)
            == if (IsClose(lines[n][q]) || lines[n][q] == '>') && e > 0 then OpenFrom(isWord, lines, n, e, [])
               else Nowhere(n)
  {
    if IsClose(lines[n][q]) || lines[n][q] == '>' {
      BackFromNothing(isWord, lines[n], q + 1);
    }
  }

  /** From a closing bracket or ">", and from no other character,
      ReverseCloseExpression finds the start of the last group or list of the line up
      to there, over many lines. */
  lemma OpenFindsBracketed(isWord: char -> bool, lines: seq<string>, n: nat, q: nat, l: nat, p: nat)
    requires n < |lines| && q < |lines[n]| && l < |lines| && p < |lines[l]|
    ensures var e := LastEnd(isWord, lines[n], q + 1);
            OpenOf(isWord, lines, n, q) == At(l, p) <==>
              && (IsClose(lines[n][q]) || lines[n][q] == '>')
              && e > 0 && BracketedLines(Leftward, isWord, lines, l, p, n, e)
  {
    OpenSkipsToEnd(isWord, lines, n, q);
    var e := LastEnd(isWord, lines[n], q + 1);
    if e > 0 {
      OpenFromFinds(isWord, lines, n, e, l, p);
    }
  }

  /** Where both directions let the same angles count, they undo each other from
      angles too. */
  lemma ListsUndoEachOther(isWord: char -> bool, lines: seq<string>, l: nat, p: nat, n: nat, q: nat)
    requires Marks(Rightward, isWord, lines) == Marks(Leftward, isWord, lines)
    requires l < |lines| && p < |lines[l]| && RightMark(isWord, lines[l], p) == ListStart
    requires n < |lines| && q < |lines[n]| && LeftMark(isWord, lines[n], q) == ListEnd
    requires Accepts(lines[l], p)
    ensures CloseOf(isWord, lines, l, p) == At(n, q + 1) <==> OpenOf(isWord, lines, n, q) == At(l, p)
  {
    CloseFromFinds(isWord, lines, l, p, n, q + 1);
    OpenFromFinds(isWord, lines, n, q + 1, l, p);
  }
}
