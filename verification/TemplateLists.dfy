/**
 Lists of template arguments, from "<" to ">". The scanners of cpplint find them
 without a parser; here they are given by a grammar of their own, over marks that
 say which angles count. From an angle, a scanner finds exactly these lists.
 */
module TemplateLists {
  import opened Brackets
  import opened Delimiters
  import opened DelimiterLaws

  // ---------------------------------------------------------------------------
  // The angles that count

  /** What a character can be to a list: a real bracket, the start or the end of
      a list, an angle that ends an inner list only, a semicolon, anything else. */
  datatype Mark = Bracket | ListStart | ListEnd | Again | Stop | Ordinary

  predicate After(line: string, i: nat, c: char) {
    0 < i <= |line| && line[i - 1] == c
  }

  /** The keyword "operator" is at k, and only spaces are between it and i. */
  predicate OperatorAt(isWord: char -> bool, line: string, k: nat, i: nat) {
    && k + 8 <= i <= |line| && line[k..k + 8] == "operator"
    && (k > 0 ==> !isWord(line[k - 1]))
    && forall j :: k + 8 <= j < i ==> IsSpace(line[j])
  }

  ghost predicate OperatorBefore(isWord: char -> bool, line: string, i: nat) {
    exists k: nat :: OperatorAt(isWord, line, k, i)
  }

  /** This is what the regular expression says. */
  lemma {:induction false} OperatorIsFound(isWord: char -> bool, line: string, i: nat)
    requires i <= |line|
    ensures EndsWithOperator(isWord, line[..i]) <==> OperatorBefore(isWord, line, i)
  {
    if i > 0 {
      assert line[..i][..i - 1] == line[..i - 1];
      if IsSpace(line[i - 1]) {
        OperatorIsFound(isWord, line, i - 1);
        SpaceAfterOperator(isWord, line, i);
      } else {
        WordEndsHere(isWord, line, i);
      }
    }
  }

  lemma SpaceAfterOperator(isWord: char -> bool, line: string, i: nat)
    requires 0 < i <= |line| && IsSpace(line[i - 1])
    ensures OperatorBefore(isWord, line, i) <==> OperatorBefore(isWord, line, i - 1)
  {
    if k: nat :| OperatorAt(isWord, line, k, i) {
      assert line[k..k + 8][7] == 'r' == line[k + 7];
      assert OperatorAt(isWord, line, k, i - 1);
    }
    var h := i - 1;
    if k: nat :| OperatorAt(isWord, line, k, h) {
      assert OperatorAt(isWord, line, k, i);
    }
  }

  lemma WordEndsHere(isWord: char -> bool, line: string, i: nat)
    requires 0 < i <= |line| && !IsSpace(line[i - 1])
    ensures OperatorBefore(isWord, line, i) <==> i >= 8 && OperatorAt(isWord, line, i - 8, i)
    ensures EndsWithOperator(isWord, line[..i]) <==> i >= 8 && OperatorAt(isWord, line, i - 8, i)
  {
    if i >= 8 {
      assert line[..i][i - 8..] == line[i - 8..i];
    }
    if k: nat :| OperatorAt(isWord, line, k, i) {
      assert k + 8 == i;
    }
  }

  /** The first i characters end in the keyword "operator". */
  predicate AfterOperator(isWord: char -> bool, line: string, i: int) {
    0 < i <= |line| && EndsWithOperator(isWord, line[..i])
  }

  /** Read to the right, "<" starts a list, but for "operator<" and the second of
      "<<", which undoes the first; ">" ends one, but for "->" and ">" two past
      the keyword. */
  function RightMark(isWord: char -> bool, line: string, i: nat): Mark
    requires i < |line|
  {
    match line[i]
    case '<' => if After(line, i, '<') then Again else if AfterOperator(isWord, line, i) then Ordinary else ListStart
    case '>' => if After(line, i, '-') || AfterOperator(isWord, line, i - 1) then Ordinary else ListEnd
    case ';' => Stop
    case c => if IsOpen(c) || IsClose(c) then Bracket else Ordinary
  }

  /** Spaces are on both sides of i and what follows it, an equals sign. */
  predicate SpacedBefore(line: string, i: nat) {
    0 < i < |line| - 2 && IsSpace(line[i - 1]) && line[i + 1] == '=' && IsSpace(line[i + 2])
  }

  /** How many "<" follow each other from i on. */
  function RunOfLess(line: string, i: nat): nat
    decreases |line| - i
  {
    if i < |line| && line[i] == '<' then 1 + RunOfLess(line, i + 1) else 0
  }

  /** Read to the left, ">" ends a list, but for "->", " >= " and "operator>"; of
      "<" that follow each other, pairs cancel and a single one left over starts
      a list. */
  function LeftMark(isWord: char -> bool, line: string, i: nat): Mark
    requires i < |line|
  {
    match line[i]
    case '<' => if !After(line, i, '<') && RunOfLess(line, i) % 2 == 1 then ListStart else Ordinary
    case '>' =>
      if After(line, i, '-') || AfterOperator(isWord, line, i) || SpacedBefore(line, i) then Ordinary
      else ListEnd
    case ';' => Stop
    case c => if IsOpen(c) || IsClose(c) then Bracket else Ordinary
  }

  /** The direction of a scan. */
  datatype Side = Rightward | Leftward

  function MarkOf(side: Side, isWord: char -> bool, line: string, i: nat): Mark
    requires i < |line|
  {
    if side == Rightward then RightMark(isWord, line, i) else LeftMark(isWord, line, i)
  }

  function LineMarks(side: Side, isWord: char -> bool, line: string): (marks: seq<Mark>)
    ensures |marks| == |line| && forall i :: 0 <= i < |line| ==> marks[i] == MarkOf(side, isWord, line, i)
  {
    seq(|line|, i requires 0 <= i < |line| => MarkOf(side, isWord, line, i))
  }

  function MarksTo(side: Side, isWord: char -> bool, lines: seq<string>, n: nat): seq<Mark>
    requires n <= |lines|
  {
    if n == 0 then [] else MarksTo(side, isWord, lines, n - 1) + LineMarks(side, isWord, lines[n - 1])
  }

  /** The marks of the characters of all lines. */
  function Marks(side: Side, isWord: char -> bool, lines: seq<string>): seq<Mark> {
    MarksTo(side, isWord, lines, |lines|)
  }

  predicate Marked(text: string, marks: seq<Mark>) {
    && |marks| == |text|
    && forall i :: 0 <= i < |text| ==> (marks[i] == Bracket <==> IsOpen(text[i]) || IsClose(text[i]))
  }

  // ---------------------------------------------------------------------------
  // The grammar of argument lists

  /** What a list holds: nothing, or an ordinary character, a group of real
      brackets up to its end or an inner list up to its last angle, then more. */
  datatype Args =
    | NoArgs
    | Letter(rest: Args)
    | Real(end: nat, rest: Args)
    | Inner(args: Args, last: nat, rest: Args)
  {
    /** text[i..j] is of this shape. */
    ghost predicate Derives(text: string, marks: seq<Mark>, i: nat, j: nat)
      requires |marks| == |text|
    {
      && i <= j <= |text|
      && match this
         case NoArgs => i == j
         case Letter(rest) => i < j && marks[i] == Ordinary && rest.Derives(text, marks, i + 1, j)
         case Real(end, rest) => Group(text, i, end) && rest.Derives(text, marks, end, j)
         case Inner(args, last, rest) =>
           && i < last < j && marks[i] == ListStart && (marks[last] == ListEnd || marks[last] == Again)
           && args.Derives(text, marks, i + 1, last) && rest.Derives(text, marks, last + 1, j)
    }
  }

  ghost predicate AreArgs(text: string, marks: seq<Mark>, i: nat, j: nat)
    requires |marks| == |text|
  {
    exists t: Args :: t.Derives(text, marks, i, j)
  }

  /** text[p..e] is a list of template arguments. */
  ghost predicate ArgumentList(text: string, marks: seq<Mark>, p: nat, e: nat)
    requires |marks| == |text|
  {
    && p + 1 < e <= |text|
    && marks[p] == ListStart && marks[e - 1] == ListEnd
    && AreArgs(text, marks, p + 1, e - 1)
  }

  // ---------------------------------------------------------------------------
  // Stacks of angles

  function Angles(angle: char, d: nat): string {
    if d == 0 then [] else Angles(angle, d - 1) + [angle]
  }

  lemma {:induction false} AnglesOnly(angle: char, d: nat)
    ensures |Angles(angle, d)| == d && DropAngles(angle, Angles(angle, d)) == []
    ensures d > 0 ==> TopIs(Angles(angle, d), angle) && Pop(Angles(angle, d)) == Angles(angle, d - 1)
  {
    if d > 0 {
      AnglesOnly(angle, d - 1);
      assert Pop(Angles(angle, d)) == Angles(angle, d - 1);
    }
  }

  lemma OneAngle(angle: char)
    ensures Angles(angle, 1) == [angle]
  {
    assert Angles(angle, 0) + [angle] == [angle];
  }

  lemma {:induction false} DropAboveReal(angle: char, below: string, stack: string)
    requires Rooted(angle, stack)
    ensures DropAngles(angle, below + stack) == below + DropAngles(angle, stack)
    ensures Rooted(angle, DropAngles(angle, stack))
    ensures TopIs(below + stack, angle) == TopIs(stack, angle) && Pop(below + stack) == below + Pop(stack)
  {
    assert Pop(below + stack) == below + Pop(stack);
    if TopIs(stack, angle) {
      DropAboveReal(angle, below, Pop(stack));
    }
  }

  /** What the part of a character is. */
  function RoleOf(mark: Mark, c: char): Role {
    match mark
    case Bracket => if IsOpen(c) then Opening else Closing
    case ListStart => AngleStart
    case ListEnd => AngleEnd
    case Again => Shift
    case Stop => Semicolon
    case Ordinary => Ignored
  }

  // ---------------------------------------------------------------------------
  // Rightward, on one text

  function MarkScan(text: string, marks: seq<Mark>, i: nat, stack: string): Scan
    requires |marks| == |text|
    decreases |text| - i
  {
    if i >= |text| then Pending(stack)
    else
      match ForwardStep(RoleOf(marks[i], text[i]), text[i], i, stack)
      case Pending(s) => MarkScan(text, marks, i + 1, s)
      case r => r
  }

  /** One character above a real bracket: what is below it waits. */
  lemma StepAboveReal(role: Role, c: char, i: nat, below: string, stack: string)
    requires below != [] && Rooted('<', stack)
    ensures ForwardStep(role, c, i, below + stack)
         == match ForwardStep(role, c, i, stack)
            case Pending(s) => Pending(below + s)
            case Found(e) => Pending(below)
            case Broken => Broken
    ensures ForwardStep(role, c, i, stack).Found? ==> ForwardStep(role, c, i, stack).pos == i + 1
  {
    DropAboveReal('<', below, stack);
    var s := DropAngles('<', stack);
    assert Pop(below + s) == below + Pop(s);
    assert |s| == 1 ==> below + Pop(s) == below;
    assert (below + stack) + [c] == below + (stack + [c]);
    assert (below + stack) + ['<'] == below + (stack + ['<']);
  }

  /** Inside a real bracket, whatever the angles, the scan goes on below it past
      the end of its group, if it has one, and else finds nothing. */
  ghost predicate GoesOnBelow(text: string, marks: seq<Mark>, i: nat, below: string, stack: string, group: Scan)
    requires |marks| == |text|
  {
    if group.Found? then
      i < group.pos <= |text| && MarkScan(text, marks, i, below + stack) == MarkScan(text, marks, group.pos, below)
    else
      !MarkScan(text, marks, i, below + stack).Found?
  }

  lemma ScanStep(text: string, marks: seq<Mark>, i: nat, below: string, stack: string)
    requires Marked(text, marks) && i < |text| && below != [] && Rooted('<', stack)
    ensures var step := ForwardStep(RoleOf(marks[i], text[i]), text[i], i, stack);
            if step.Pending? then
              && Rooted('<', step.stack)
              && MarkScan(text, marks, i, below + stack) == MarkScan(text, marks, i + 1, below + step.stack)
              && PlainForward(text, i, Erase('<', stack)) == PlainForward(text, i + 1, Erase('<', step.stack))
            else if step.Found? then
              && MarkScan(text, marks, i, below + stack) == MarkScan(text, marks, i + 1, below)
              && PlainForward(text, i, Erase('<', stack)) == Found(i + 1)
            else
              && MarkScan(text, marks, i, below + stack) == Broken
              && PlainForward(text, i, Erase('<', stack)) == Broken
  {
    EraseForwardStep(RoleOf(marks[i], text[i]), text[i], i, stack);
    StepAboveReal(RoleOf(marks[i], text[i]), text[i], i, below, stack);
  }

  lemma {:induction false} ScanAboveReal(text: string, marks: seq<Mark>, i: nat, below: string, stack: string)
    requires Marked(text, marks) && below != [] && Rooted('<', stack)
    ensures GoesOnBelow(text, marks, i, below, stack, PlainForward(text, i, Erase('<', stack)))
    decreases |text| - i
  {
    if i < |text| {
      ScanStep(text, marks, i, below, stack);
      var step := ForwardStep(RoleOf(marks[i], text[i]), text[i], i, stack);
      if step.Pending? {
        ScanAboveReal(text, marks, i + 1, below, step.stack);
      }
    }
  }

  /** The scan inside d lists. */
  function ListScan(text: string, marks: seq<Mark>, i: nat, d: nat): Scan
    requires |marks| == |text|
  {
    MarkScan(text, marks, i, Angles('<', d))
  }

  /** A character that is no real bracket, inside d lists. */
  lemma StepInList(text: string, marks: seq<Mark>, i: nat, d: nat)
    requires |marks| == |text| && i < |text| && d > 0 && marks[i] != Bracket
    ensures ListScan(text, marks, i, d)
         == match marks[i]
            case ListStart => ListScan(text, marks, i + 1, d + 1)
            case Ordinary => ListScan(text, marks, i + 1, d)
            case ListEnd => if d == 1 then Found(i + 1) else ListScan(text, marks, i + 1, d - 1)
            case Again => if d == 1 then Broken else ListScan(text, marks, i + 1, d - 1)
            case _ => Broken
  {
    AnglesOnly('<', d);
    AnglesOnly('<', d + 1);
  }

  /** A real bracket among angles. */
  lemma ScanOverReal(text: string, marks: seq<Mark>, i: nat, d: nat)
    requires Marked(text, marks) && i < |text| && IsOpen(text[i]) && d > 0
    ensures var group := PlainForward(text, i, []);
            if group.Found? then
              i + 1 < group.pos <= |text| && ListScan(text, marks, i, d) == ListScan(text, marks, group.pos, d)
            else !ListScan(text, marks, i, d).Found?
  {
    AnglesOnly('<', d);
    EraseOne('<', text[i]);
    PlainPushesOpen(text, i);
    ScanAboveReal(text, marks, i + 1, Angles('<', d), [text[i]]);
  }

  lemma ScanOverGroup(text: string, marks: seq<Mark>, i: nat, e: nat, d: nat)
    requires Marked(text, marks) && d > 0 && i < |text| && Group(text, i, e)
    ensures ListScan(text, marks, i, d) == ListScan(text, marks, e, d)
  {
    ForwardFindsGroup(text, i, e);
    ScanOverReal(text, marks, i, d);
  }

  /** Over an inner list and what follows it. */
  lemma ScanOverInner(text: string, marks: seq<Mark>, i: nat, m: nat, d: nat)
    requires |marks| == |text| && d > 0 && i < m < |text|
    requires marks[i] == ListStart && (marks[m] == ListEnd || marks[m] == Again)
    requires ListScan(text, marks, i + 1, d + 1) == ListScan(text, marks, m, d + 1)
    ensures ListScan(text, marks, i, d) == ListScan(text, marks, m + 1, d)
  {
    StepInList(text, marks, i, d);
    StepInList(text, marks, m, d + 1);
  }

  /** Scanning over the arguments of a list changes nothing. */
  lemma {:induction false} ScanOverArgs(text: string, marks: seq<Mark>, i: nat, j: nat, t: Args, d: nat)
    requires Marked(text, marks) && t.Derives(text, marks, i, j) && d > 0
    ensures ListScan(text, marks, i, d) == ListScan(text, marks, j, d)
    decreases t, 0
  {
    match t
    case NoArgs =>
    case Letter(rest) =>
      StepInList(text, marks, i, d);
      ScanOverArgs(text, marks, i + 1, j, rest, d);
    case Real(end, rest) =>
      ScanOverGroup(text, marks, i, end, d);
      ScanOverArgs(text, marks, end, j, rest, d);
    case Inner(args, last, rest) =>
      ScanOverInnerArgs(text, marks, i, last, args, d);
      ScanOverArgs(text, marks, last + 1, j, rest, d);
  }

  lemma {:induction false} ScanOverInnerArgs(text: string, marks: seq<Mark>, i: nat, last: nat, args: Args, d: nat)
    requires Marked(text, marks) && d > 0 && i < last < |text|
    requires args.Derives(text, marks, i + 1, last)
    requires marks[i] == ListStart && (marks[last] == ListEnd || marks[last] == Again)
    ensures ListScan(text, marks, i, d) == ListScan(text, marks, last + 1, d)
    decreases args, 1
  {
    ScanOverArgs(text, marks, i + 1, last, args, d + 1);
    ScanOverInner(text, marks, i, last, d);
  }

  lemma GroupParsed(text: string, marks: seq<Mark>, i: nat, d: nat) returns (e: nat)
    requires Marked(text, marks) && i < |text| && marks[i] == Bracket && d > 0 && ListScan(text, marks, i, d).Found?
    ensures Group(text, i, e) && ListScan(text, marks, i, d) == ListScan(text, marks, e, d)
  {
    AnglesOnly('<', d);
    ScanOverReal(text, marks, i, d);
    e := PlainForward(text, i, []).pos;
    ForwardFindsGroup(text, i, e);
  }

  /** From i the scan crosses the arguments t, up to the angle at j that ends the
      innermost list. */
  ghost predicate Crosses(text: string, marks: seq<Mark>, i: nat, d: nat, j: nat, t: Args)
    requires |marks| == |text| && d > 0
  {
    && t.Derives(text, marks, i, j) && j < |text|
    && (marks[j] == ListEnd || (marks[j] == Again && d > 1))
    && ListScan(text, marks, i, d) == if d == 1 then Found(j + 1) else ListScan(text, marks, j + 1, d - 1)
  }

  lemma CrossesInner(text: string, marks: seq<Mark>, i: nat, d: nat, last: nat, args: Args, j: nat, rest: Args)
    requires |marks| == |text| && d > 0 && i < last && i < |text| && marks[i] == ListStart
    requires Crosses(text, marks, i + 1, d + 1, last, args) && Crosses(text, marks, last + 1, d, j, rest)
    ensures Crosses(text, marks, i, d, j, Inner(args, last, rest))
  {
    StepInList(text, marks, i, d);
  }

  lemma CrossesLetter(text: string, marks: seq<Mark>, i: nat, d: nat, j: nat, rest: Args)
    requires |marks| == |text| && d > 0 && i < |text| && marks[i] == Ordinary
    requires Crosses(text, marks, i + 1, d, j, rest)
    ensures Crosses(text, marks, i, d, j, Letter(rest))
  {
    StepInList(text, marks, i, d);
  }

  lemma CrossesNothing(text: string, marks: seq<Mark>, i: nat, d: nat)
    requires |marks| == |text| && d > 0 && i < |text| && ListScan(text, marks, i, d).Found?
    requires marks[i] != Bracket && marks[i] != ListStart && marks[i] != Ordinary
    ensures Crosses(text, marks, i, d, i, NoArgs)
  {
    StepInList(text, marks, i, d);
  }

  /** Every successful scan does. */
  lemma {:induction false} ScanParses(text: string, marks: seq<Mark>, i: nat, d: nat) returns (j: nat, t: Args)
    requires Marked(text, marks) && d > 0 && ListScan(text, marks, i, d).Found?
    ensures Crosses(text, marks, i, d, j, t)
    decreases |text| - i
  {
    if marks[i] == Bracket {
      var end := GroupParsed(text, marks, i, d);
      var rest;
      j, rest := ScanParses(text, marks, end, d);
      t := Real(end, rest);
    } else if marks[i] == ListStart {
      StepInList(text, marks, i, d);
      var last, args := ScanParses(text, marks, i + 1, d + 1);
      var rest;
      j, rest := ScanParses(text, marks, last + 1, d);
      CrossesInner(text, marks, i, d, last, args, j, rest);
      t := Inner(args, last, rest);
    } else if marks[i] == Ordinary {
      StepInList(text, marks, i, d);
      var rest;
      j, rest := ScanParses(text, marks, i + 1, d);
      CrossesLetter(text, marks, i, d, j, rest);
      t := Letter(rest);
    } else {
      CrossesNothing(text, marks, i, d);
      j, t := i, NoArgs;
    }
  }

  lemma ListIsFound(text: string, marks: seq<Mark>, p: nat, e: nat, t: Args)
    requires Marked(text, marks) && 0 < e <= |text| && t.Derives(text, marks, p + 1, e - 1)
    requires marks[e - 1] == ListEnd
    ensures ListScan(text, marks, p + 1, 1) == Found(e)
  {
    ScanOverArgs(text, marks, p + 1, e - 1, t, 1);
    StepInList(text, marks, e - 1, 1);
  }

  /** From the start of a list, the scan finds exactly the end of the list. */
  lemma ScanFindsList(text: string, marks: seq<Mark>, p: nat, e: nat)
    requires Marked(text, marks) && p < |text| && marks[p] == ListStart
    ensures ListScan(text, marks, p + 1, 1) == Found(e) <==> ArgumentList(text, marks, p, e)
  {
    if ListScan(text, marks, p + 1, 1) == Found(e) {
      var j, t := ScanParses(text, marks, p + 1, 1);
    }
    if ArgumentList(text, marks, p, e) {
      var t: Args :| t.Derives(text, marks, p + 1, e - 1);
      ListIsFound(text, marks, p, e, t);
    }
  }

  // ---------------------------------------------------------------------------
  // Leftward, on one text

  function MarkBack(text: string, marks: seq<Mark>, i: nat, stack: string): Scan
    requires |marks| == |text| && i <= |text|
  {
    if i == 0 then Pending(stack)
    else
      match BackwardStep(RoleOf(marks[i - 1], text[i - 1]), text[i - 1], i - 1, stack)
      case Pending(s) => MarkBack(text, marks, i - 1, s)
      case r => r
  }

  lemma BackStepAboveReal(role: Role, c: char, i: nat, below: string, stack: string)
    requires below != [] && Rooted('>', stack)
    ensures BackwardStep(role, c, i, below + stack)
         == match BackwardStep(role, c, i, stack)
            case Pending(s) => Pending(below + s)
            case Found(p) => Pending(below)
            case Broken => Broken
    ensures BackwardStep(role, c, i, stack).Found? ==> BackwardStep(role, c, i, stack).pos == i
  {
    DropAboveReal('>', below, stack);
    var s := DropAngles('>', stack);
    assert Pop(below + s) == below + Pop(s);
    assert |s| == 1 ==> below + Pop(s) == below;
    assert (below + stack) + [c] == below + (stack + [c]);
    assert (below + stack) + ['>'] == below + (stack + ['>']);
  }

  ghost predicate GoesBackBelow(text: string, marks: seq<Mark>, i: nat, below: string, stack: string, group: Scan)
    requires |marks| == |text| && i <= |text|
  {
    if group.Found? then
      group.pos < i && MarkBack(text, marks, i, below + stack) == MarkBack(text, marks, group.pos, below)
    else
      !MarkBack(text, marks, i, below + stack).Found?
  }

  lemma BackStep(text: string, marks: seq<Mark>, i: nat, below: string, stack: string)
    requires Marked(text, marks) && 0 < i <= |text| && below != [] && Rooted('>', stack)
    ensures var step := BackwardStep(RoleOf(marks[i - 1], text[i - 1]), text[i - 1], i - 1, stack);
            if step.Pending? then
              && Rooted('>', step.stack)
              && MarkBack(text, marks, i, below + stack) == MarkBack(text, marks, i - 1, below + step.stack)
              && PlainBackward(text, i, Erase('>', stack)) == PlainBackward(text, i - 1, Erase('>', step.stack))
            else if step.Found? then
              && MarkBack(text, marks, i, below + stack) == MarkBack(text, marks, i - 1, below)
              && PlainBackward(text, i, Erase('>', stack)) == Found(i - 1)
            else
              && MarkBack(text, marks, i, below + stack) == Broken
              && PlainBackward(text, i, Erase('>', stack)) == Broken
  {
    EraseBackwardStep(RoleOf(marks[i - 1], text[i - 1]), text[i - 1], i - 1, stack);
    BackStepAboveReal(RoleOf(marks[i - 1], text[i - 1]), text[i - 1], i - 1, below, stack);
  }

  lemma {:induction false} BackAboveReal(text: string, marks: seq<Mark>, i: nat, below: string, stack: string)
    requires Marked(text, marks) && i <= |text| && below != [] && Rooted('>', stack)
    ensures GoesBackBelow(text, marks, i, below, stack, PlainBackward(text, i, Erase('>', stack)))
  {
    if i > 0 {
      BackStep(text, marks, i, below, stack);
      var step := BackwardStep(RoleOf(marks[i - 1], text[i - 1]), text[i - 1], i - 1, stack);
      if step.Pending? {
        BackAboveReal(text, marks, i - 1, below, step.stack);
      }
    }
  }

  function ListBack(text: string, marks: seq<Mark>, i: nat, d: nat): Scan
    requires |marks| == |text| && i <= |text|
  {
    MarkBack(text, marks, i, Angles('>', d))
  }

  lemma BackOverReal(text: string, marks: seq<Mark>, i: nat, d: nat)
    requires Marked(text, marks) && 0 < i <= |text| && IsClose(text[i - 1]) && d > 0
    ensures var group := PlainBackward(text, i, []);
            if group.Found? then
              group.pos < i - 1 && ListBack(text, marks, i, d) == ListBack(text, marks, group.pos, d)
            else !ListBack(text, marks, i, d).Found?
  {
    AnglesOnly('>', d);
    EraseOne('>', text[i - 1]);
    PlainPushesClose(text, i - 1);
    BackAboveReal(text, marks, i - 1, Angles('>', d), [text[i - 1]]);
  }

  lemma BackStepInList(text: string, marks: seq<Mark>, i: nat, d: nat)
    requires |marks| == |text| && 0 < i <= |text| && d > 0 && marks[i - 1] != Bracket
    ensures ListBack(text, marks, i, d)
         == match marks[i - 1]
            case ListEnd => ListBack(text, marks, i - 1, d + 1)
            case Ordinary => ListBack(text, marks, i - 1, d)
            case ListStart => if d == 1 then Found(i - 1) else ListBack(text, marks, i - 1, d - 1)
            case Again => ListBack(text, marks, i - 1, d)
            case _ => Broken
  {
    AnglesOnly('>', d);
    AnglesOnly('>', d + 1);
  }

  lemma BackOverGroup(text: string, marks: seq<Mark>, i: nat, e: nat, d: nat)
    requires Marked(text, marks) && d > 0 && Group(text, i, e)
    ensures ListBack(text, marks, e, d) == ListBack(text, marks, i, d)
  {
    BackwardFindsGroup(text, i, e);
    BackOverReal(text, marks, e, d);
  }

  lemma BackOverInner(text: string, marks: seq<Mark>, i: nat, m: nat, d: nat)
    requires |marks| == |text| && d > 0 && i < m < |text| && marks[i] == ListStart && marks[m] == ListEnd
    requires ListBack(text, marks, m, d + 1) == ListBack(text, marks, i + 1, d + 1)
    ensures ListBack(text, marks, m + 1, d) == ListBack(text, marks, i, d)
  {
    BackStepInList(text, marks, m + 1, d);
    BackStepInList(text, marks, i + 1, d + 1);
  }

  lemma {:induction false} BackOverArgs(text: string, marks: seq<Mark>, i: nat, j: nat, t: Args, d: nat)
    requires Marked(text, marks) && Again !in marks && t.Derives(text, marks, i, j) && d > 0
    ensures ListBack(text, marks, j, d) == ListBack(text, marks, i, d)
    decreases t, 0
  {
    match t
    case NoArgs =>
    case Letter(rest) =>
      BackOverArgs(text, marks, i + 1, j, rest, d);
      BackStepInList(text, marks, i + 1, d);
    case Real(end, rest) =>
      BackOverArgs(text, marks, end, j, rest, d);
      BackOverGroup(text, marks, i, end, d);
    case Inner(args, last, rest) =>
      BackOverArgs(text, marks, last + 1, j, rest, d);
      BackOverInnerArgs(text, marks, i, last, args, d);
  }

  lemma {:induction false} BackOverInnerArgs(text: string, marks: seq<Mark>, i: nat, last: nat, args: Args, d: nat)
    requires Marked(text, marks) && Again !in marks && d > 0 && i < last < |text|
    requires args.Derives(text, marks, i + 1, last) && marks[i] == ListStart && marks[last] == ListEnd
    ensures ListBack(text, marks, last + 1, d) == ListBack(text, marks, i, d)
    decreases args, 1
  {
    BackOverArgs(text, marks, i + 1, last, args, d + 1);
    BackOverInner(text, marks, i, last, d);
  }

  lemma {:induction false} Append(text: string, marks: seq<Mark>, i: nat, j: nat, k: nat, t: Args, u: Args)
    returns (v: Args)
    requires |marks| == |text| && t.Derives(text, marks, i, j) && u.Derives(text, marks, j, k)
    ensures v.Derives(text, marks, i, k)
    decreases t
  {
    match t {
      case NoArgs =>
        v := u;
      case Letter(rest) =>
        var more := Append(text, marks, i + 1, j, k, rest, u);
        v := Letter(more);
      case Real(end, rest) =>
        var more := Append(text, marks, end, j, k, rest, u);
        v := Real(end, more);
      case Inner(args, last, rest) =>
        var more := Append(text, marks, last + 1, j, k, rest, u);
        v := Inner(args, last, more);
    }
  }

  /** From i the scan crosses arguments leftward, from a on, up to the angle that
      starts the innermost list. */
  ghost predicate CrossesBack(text: string, marks: seq<Mark>, i: nat, d: nat, a: nat)
    requires |marks| == |text| && i <= |text| && d > 0
  {
    && 0 < a <= i && marks[a - 1] == ListStart && AreArgs(text, marks, a, i)
    && ListBack(text, marks, i, d) == if d == 1 then Found(a - 1) else ListBack(text, marks, a - 1, d - 1)
  }

  /** One more item, from m to i, after the arguments crossed. */
  lemma CrossesMore(text: string, marks: seq<Mark>, i: nat, d: nat, a: nat, m: nat, item: Args)
    requires |marks| == |text| && m <= i <= |text| && d > 0 && CrossesBack(text, marks, m, d, a)
    requires item.Derives(text, marks, m, i) && ListBack(text, marks, i, d) == ListBack(text, marks, m, d)
    ensures CrossesBack(text, marks, i, d, a)
  {
    var t: Args :| t.Derives(text, marks, a, m);
    var v := Append(text, marks, a, m, i, t, item);
  }

  lemma GroupParsedBack(text: string, marks: seq<Mark>, i: nat, d: nat) returns (m: nat)
    requires Marked(text, marks) && 0 < i <= |text| && marks[i - 1] == Bracket && d > 0
    requires ListBack(text, marks, i, d).Found?
    ensures Group(text, m, i) && ListBack(text, marks, i, d) == ListBack(text, marks, m, d)
  {
    AnglesOnly('>', d);
    BackOverReal(text, marks, i, d);
    m := PlainBackward(text, i, []).pos;
    BackwardFindsGroup(text, m, i);
  }

  lemma CrossesReal(text: string, marks: seq<Mark>, i: nat, d: nat, a: nat, m: nat)
    requires |marks| == |text| && m <= i <= |text| && d > 0 && CrossesBack(text, marks, m, d, a)
    requires Group(text, m, i) && ListBack(text, marks, i, d) == ListBack(text, marks, m, d)
    ensures CrossesBack(text, marks, i, d, a)
  {
    assert NoArgs.Derives(text, marks, i, i);
    CrossesMore(text, marks, i, d, a, m, Real(i, NoArgs));
  }

  lemma CrossesLetterBack(text: string, marks: seq<Mark>, i: nat, d: nat, a: nat)
    requires |marks| == |text| && 0 < i <= |text| && d > 0 && CrossesBack(text, marks, i - 1, d, a)
    requires marks[i - 1] == Ordinary
    ensures CrossesBack(text, marks, i, d, a)
  {
    BackStepInList(text, marks, i, d);
    assert NoArgs.Derives(text, marks, i, i);
    CrossesMore(text, marks, i, d, a, i - 1, Letter(NoArgs));
  }

  lemma CrossesInnerBack(text: string, marks: seq<Mark>, i: nat, d: nat, a: nat, b: nat)
    requires |marks| == |text| && 0 < i <= |text| && d > 0 && marks[i - 1] == ListEnd
    requires CrossesBack(text, marks, i - 1, d + 1, b) && CrossesBack(text, marks, b - 1, d, a)
    ensures CrossesBack(text, marks, i, d, a)
  {
    BackStepInList(text, marks, i, d);
    var args: Args :| args.Derives(text, marks, b, i - 1);
    assert NoArgs.Derives(text, marks, i, i);
    CrossesMore(text, marks, i, d, a, b - 1, Inner(args, i - 1, NoArgs));
  }

  lemma CrossesNothingBack(text: string, marks: seq<Mark>, i: nat, d: nat)
    requires |marks| == |text| && 0 < i <= |text| && d > 0 && ListBack(text, marks, i, d).Found?
    requires marks[i - 1] == ListStart || marks[i - 1] == Stop
    ensures CrossesBack(text, marks, i, d, i)
  {
    BackStepInList(text, marks, i, d);
    assert NoArgs.Derives(text, marks, i, i);
  }

  /** Every successful scan does. */
  lemma {:induction false} BackParses(text: string, marks: seq<Mark>, i: nat, d: nat) returns (a: nat)
    requires Marked(text, marks) && Again !in marks && i <= |text| && d > 0 && ListBack(text, marks, i, d).Found?
    ensures CrossesBack(text, marks, i, d, a)
    decreases i
  {
    if marks[i - 1] == Bracket {
      var m := GroupParsedBack(text, marks, i, d);
      a := BackParses(text, marks, m, d);
      CrossesReal(text, marks, i, d, a, m);
    } else if marks[i - 1] == ListEnd {
      BackStepInList(text, marks, i, d);
      var b := BackParses(text, marks, i - 1, d + 1);
      a := BackParses(text, marks, b - 1, d);
      CrossesInnerBack(text, marks, i, d, a, b);
    } else if marks[i - 1] == Ordinary {
      BackStepInList(text, marks, i, d);
      a := BackParses(text, marks, i - 1, d);
      CrossesLetterBack(text, marks, i, d, a);
    } else {
      assert marks[i - 1] in marks;
      CrossesNothingBack(text, marks, i, d);
      a := i;
    }
  }

  /** From the end of a list, the scan to the left finds exactly its start. */
  lemma BackFindsList(text: string, marks: seq<Mark>, p: nat, e: nat)
    requires Marked(text, marks) && Again !in marks && 0 < e <= |text| && marks[e - 1] == ListEnd
    ensures ListBack(text, marks, e - 1, 1) == Found(p) <==> ArgumentList(text, marks, p, e)
  {
    if ListBack(text, marks, e - 1, 1) == Found(p) {
      var a := BackParses(text, marks, e - 1, 1);
    }
    if ArgumentList(text, marks, p, e) {
      var t: Args :| t.Derives(text, marks, p + 1, e - 1);
      BackOverArgs(text, marks, p + 1, e - 1, t, 1);
      BackStepInList(text, marks, p + 1, 1);
    }
  }
}
