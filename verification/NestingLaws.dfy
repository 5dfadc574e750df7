/**
 Lines from "else" or "elif" to "endif" do not affect the nesting stacks: a run
 over any lines simulates the run over the lines that are left when those are
 taken out, at every depth, whether or not the directives nest properly.
 */
module NestingLaws {
  import opened Wrappers
  import opened Nesting

  /** For each open "if", whether its "else" or "elif" has been seen. */
  type Flags = seq<bool>

  function FlagsOf(ppStack: seq<Checkpoint>): Flags {
    seq(|ppStack|, i requires 0 <= i < |ppStack| => ppStack[i].seenElse)
  }

  function FlagsAfter(directive: Directive, flags: Flags): Flags {
    match directive
    case NoDirective => flags
    case If => flags + [false]
    case Else => if flags == [] then flags else flags[|flags| - 1 := true]
    case Endif => if flags == [] then flags else flags[..|flags| - 1]
  }

  /** A line is kept when no open "if" is past its "else": directives outside
      any "if" are kept, a first "else" is not, and the "endif" that ends the
      outermost skipped part is. */
  predicate Kept(directive: Directive, flags: Flags) {
    match directive
    case NoDirective => true !in flags
    case If => true !in flags
    case Else => flags == []
    case Endif => flags == [] || true !in flags[..|flags| - 1]
  }

  function Strip(lines: seq<Line>, flags: Flags): seq<Line> {
    if lines == [] then []
    else
      var rest := Strip(lines[1..], FlagsAfter(lines[0].directive, flags));
      if Kept(lines[0].directive, flags) then [lines[0]] + rest else rest
  }

  /** The outermost open "if" that is past its "else". */
  ghost predicate FirstSeen(ppStack: seq<Checkpoint>, k: nat) {
    && k < |ppStack| && ppStack[k].seenElse
    && forall i :: 0 <= i < k ==> !ppStack[i].seenElse
  }

  /** How the full run and the stripped run correspond. Outside skipped parts
      they are in the same state; inside one, the stripped run still is where
      the outermost skipped part began. */
  ghost predicate Corresponds(full: State, kept: State) {
    if true !in FlagsOf(full.ppStack) then full == kept
    else
      exists k: nat ::
        && FirstSeen(full.ppStack, k)
        && |kept.ppStack| == k + 1
        && kept.ppStack[..k] == full.ppStack[..k]
        && !kept.ppStack[k].seenElse
        && kept.stack == full.ppStack[k].beforeElse
  }

  lemma StepFlags(line: Line, s: State)
    ensures FlagsOf(Step(line, s).ppStack) == FlagsAfter(line.directive, FlagsOf(s.ppStack))
  {
  }

  lemma NoneSeen(ppStack: seq<Checkpoint>)
    requires true !in FlagsOf(ppStack)
    ensures forall i :: 0 <= i < |ppStack| ==> !ppStack[i].seenElse
  {
    forall i | 0 <= i < |ppStack| ensures !ppStack[i].seenElse {
      assert FlagsOf(ppStack)[i] in FlagsOf(ppStack);
    }
  }

  /** Outside skipped parts both runs take the same step, or a first "else" opens
      a skipped part. */
  lemma StepOutside(line: Line, s: State)
    requires true !in FlagsOf(s.ppStack)
    ensures Corresponds(Step(line, s), if Kept(line.directive, FlagsOf(s.ppStack)) then Step(line, s) else s)
  {
    NoneSeen(s.ppStack);
    var flags, after := FlagsOf(s.ppStack), FlagsOf(Step(line, s).ppStack);
    StepFlags(line, s);
    if line.directive == Else && flags != [] {
      var k := |s.ppStack| - 1;
      assert after[k] == true;
      assert FirstSeen(Step(line, s).ppStack, k);
    } else {
      assert true !in after;
    }
  }

  /** A directive inside a skipped part, other than the "endif" that ends it. */
  lemma StillInside(directive: Directive, full: State, k: nat)
    requires FirstSeen(full.ppStack, k) && !(directive == Endif && |full.ppStack| == k + 1)
    ensures var after := AfterDirective(directive, full).ppStack;
            FirstSeen(after, k) && after[..k] == full.ppStack[..k] && after[k] == full.ppStack[k]
    ensures !Kept(directive, FlagsOf(full.ppStack))
  {
    var flags := FlagsOf(full.ppStack);
    assert flags[k] == true;
    assert directive == Endif ==> flags[..|flags| - 1][k] == true;
  }

  /** The "endif" that ends a skipped part brings both runs to the same state. */
  lemma EndOfSkipped(full: State, kept: State, k: nat)
    requires FirstSeen(full.ppStack, k) && |full.ppStack| == |kept.ppStack| == k + 1
    requires kept.ppStack[..k] == full.ppStack[..k]
    requires !kept.ppStack[k].seenElse && kept.stack == full.ppStack[k].beforeElse
    ensures AfterDirective(Endif, full) == AfterDirective(Endif, kept)
    ensures true !in FlagsOf(AfterDirective(Endif, full).ppStack) && Kept(Endif, FlagsOf(full.ppStack))
  {
    var flags := FlagsOf(full.ppStack);
    assert forall i :: 0 <= i < k ==> flags[i] == false;
    assert FlagsOf(AfterDirective(Endif, full).ppStack) == flags[..k];
  }

  /** Inside a skipped part the stripped run waits for its end. */
  lemma StepInside(line: Line, full: State, kept: State, k: nat)
    requires FirstSeen(full.ppStack, k) && |kept.ppStack| == k + 1 && kept.ppStack[..k] == full.ppStack[..k]
    requires !kept.ppStack[k].seenElse && kept.stack == full.ppStack[k].beforeElse
    ensures Corresponds(Step(line, full),
                        if Kept(line.directive, FlagsOf(full.ppStack)) then Step(line, kept) else kept)
  {
    if line.directive == Endif && |full.ppStack| == k + 1 {
      EndOfSkipped(full, kept, k);
    } else {
      StillInside(line.directive, full, k);
      var after := Step(line, full).ppStack;
      assert FlagsOf(after)[k] == true;
      assert FirstSeen(after, k);
    }
  }

  /** The full run and the stripped run correspond after any lines. */
  lemma {:induction false} StripSimulates(lines: seq<Line>, full: State, kept: State)
    requires Corresponds(full, kept)
    ensures Corresponds(Run(lines, full), Run(Strip(lines, FlagsOf(full.ppStack)), kept))
    decreases |lines|
  {
    if lines != [] {
      var line, flags := lines[0], FlagsOf(full.ppStack);
      var kept' := if Kept(line.directive, flags) then Step(line, kept) else kept;
      if true !in flags {
        StepOutside(line, full);
      } else {
        var k: nat :| FirstSeen(full.ppStack, k) && |kept.ppStack| == k + 1 && kept.ppStack[..k] == full.ppStack[..k]
                      && !kept.ppStack[k].seenElse && kept.stack == full.ppStack[k].beforeElse;
        StepInside(line, full, kept, k);
      }
      StepFlags(line, full);
      StripSimulates(lines[1..], Step(line, full), kept');
      assert Strip(lines, flags) == (if Kept(line.directive, flags) then [line] else [])
                                    + Strip(lines[1..], FlagsAfter(line.directive, flags));
    }
  }

  /** "endif" never lacks its "if", "else" neither, and every "if" is ended. */
  predicate WellNested(lines: seq<Line>, depth: nat) {
    if lines == [] then depth == 0
    else
      match lines[0].directive
      case NoDirective => WellNested(lines[1..], depth)
      case If => WellNested(lines[1..], depth + 1)
      case Else => depth > 0 && WellNested(lines[1..], depth)
      case Endif => depth > 0 && WellNested(lines[1..], depth - 1)
  }

  /** Well nested lines never look below the checkpoints they make themselves,
      and drop all of those. */
  lemma {:induction false} OuterCheckpointsUntouched(lines: seq<Line>, stack: Blocks, outer: seq<Checkpoint>,
                                                     own: seq<Checkpoint>)
    requires WellNested(lines, |own|)
    ensures Run(lines, State(stack, own)).ppStack == []
    ensures Run(lines, State(stack, outer + own)) == State(Run(lines, State(stack, own)).stack, outer)
    decreases |lines|
  {
    if lines == [] {
      assert outer + own == outer;
    } else {
      var after := Step(lines[0], State(stack, own));
      var n := |own| - 1;
      assert Step(lines[0], State(stack, outer + own)) == State(after.stack, outer + after.ppStack) by {
        match lines[0].directive
        case NoDirective =>
        case If =>
          var checkpoint := Checkpoint(stack, [], false);
          assert (outer + own) + [checkpoint] == outer + (own + [checkpoint]);
        case Else =>
          assert (outer + own)[|outer| + n] == own[n];
          assert (outer + own)[|outer| + n := after.ppStack[n]] == outer + own[n := after.ppStack[n]];
        case Endif =>
          assert (outer + own)[|outer| + n] == own[n];
          assert (outer + own)[..|outer| + n] == outer + own[..n];
      }
      OuterCheckpointsUntouched(lines[1..], after.stack, outer, after.ppStack);
    }
  }

  /** Taking the skipped parts out of well nested lines takes directives out in
      pairs, so what is left is well nested too. */
  lemma {:induction false} StripKeepsNesting(lines: seq<Line>, flags: Flags, k: nat)
    requires WellNested(lines, |flags|)
    requires k <= |flags| && (forall i :: 0 <= i < k ==> !flags[i]) && (k < |flags| ==> flags[k])
    ensures WellNested(Strip(lines, flags), if k < |flags| then k + 1 else k)
    decreases |lines|
  {
    if lines != [] {
      var directive, n := lines[0].directive, |flags| - 1;
      var after := FlagsAfter(directive, flags);
      assert k < |flags| ==> true in flags;
      assert k == |flags| ==> true !in flags;
      assert k < n ==> flags[..n][k] == true;
      assert k >= n && flags != [] ==> true !in flags[..n];
      var k' := if directive == If && k == |flags| then k + 1
                else if directive == Endif && k >= n then n
                else if directive == Else && k == |flags| then n
                else k;
      StripKeepsNesting(lines[1..], after, k');
      if Kept(directive, flags) {
        assert Strip(lines, flags)[0] == lines[0] && Strip(lines, flags)[1..] == Strip(lines[1..], after);
      }
    }
  }

  /** Main result. From any state, well nested lines leave exactly the stacks
      that the lines outside their "else" parts leave, and the checkpoint stack
      returns to what it was. */
  lemma SkippedBranchesDoNotMatter(lines: seq<Line>, s: State)
    requires WellNested(lines, 0)
    ensures Run(lines, s) == Run(Strip(lines, []), s)
    ensures Run(lines, s).ppStack == s.ppStack
  {
    var inner := State(s.stack, []);
    StripSimulates(lines, inner, inner);
    OuterCheckpointsUntouched(lines, s.stack, s.ppStack, []);
    StripKeepsNesting(lines, [], 0);
    OuterCheckpointsUntouched(Strip(lines, []), s.stack, s.ppStack, []);
    assert s.ppStack + [] == s.ppStack && FlagsOf([]) == [];
  }

  // ---------------------------------------------------------------------------
  // Every branch starts where the "if" did

  /** The part of a line that comes after its directive. */
  datatype Branch = Branch(head: Line, body: seq<Line>)

  /** An "else" or "elif" line, and well nested lines after it. */
  predicate IsBranch(b: Branch) {
    b.head.directive == Else && WellNested(b.body, 0)
  }

  function LinesOf(branches: seq<Branch>): seq<Line> {
    if branches == [] then [] else LineOf(branches[0]) + LinesOf(branches[1..])
  }

  function LineOf(b: Branch): seq<Line> {
    [b.head] + b.body
  }

  lemma {:induction false} RunAppended(first: seq<Line>, second: seq<Line>, s: State)
    ensures Run(first + second, s) == Run(second, Run(first, s))
    decreases |first|
  {
    if first == [] {
      assert first + second == second;
    } else {
      assert (first + second)[1..] == first[1..] + second;
      RunAppended(first[1..], second, Step(first[0], s));
    }
  }

  /** A directive line, then well nested lines: the checkpoints are those that
      the directive left. */
  lemma RunBranch(b: Branch, s: State)
    requires WellNested(b.body, 0)
    ensures Run(LineOf(b), s).ppStack == AfterDirective(b.head.directive, s).ppStack
  {
    var next := Step(b.head, s);
    assert LineOf(b)[1..] == b.body;
    assert next.ppStack + [] == next.ppStack;
    OuterCheckpointsUntouched(b.body, next.stack, next.ppStack, []);
  }

  /** The checkpoint of an "if" past its first branch, and past others or not. */
  function CheckpointOf(beforeIf: Blocks, afterFirst: Blocks, pastElse: bool): Checkpoint {
    Checkpoint(beforeIf, if pastElse then afterFirst else [], pastElse)
  }

  lemma ElseOnTop(outer: seq<Checkpoint>, beforeIf: Blocks, afterFirst: Blocks, pastElse: bool, stack: Blocks)
    requires !pastElse ==> stack == afterFirst
    ensures AfterDirective(Else, State(stack, outer + [CheckpointOf(beforeIf, afterFirst, pastElse)]))
         == State(beforeIf, outer + [CheckpointOf(beforeIf, afterFirst, true)])
  {
  }

  lemma EndifOnTop(outer: seq<Checkpoint>, beforeIf: Blocks, afterFirst: Blocks, pastElse: bool, stack: Blocks)
    requires !pastElse ==> stack == afterFirst
    ensures AfterDirective(Endif, State(stack, outer + [CheckpointOf(beforeIf, afterFirst, pastElse)]))
         == State(afterFirst, outer)
  {
    var c := CheckpointOf(beforeIf, afterFirst, pastElse);
    assert (outer + [c])[..|outer|] == outer && (outer + [c])[|outer|] == c;
  }

  /** The lines lead from s inside an "if": the stack before the "if" is on top of
      the checkpoints and, past an "else", the stack at the end of the first branch. */
  ghost predicate Inside(s: State, lines: seq<Line>, afterFirst: Blocks, pastElse: bool) {
    Run(lines, s).ppStack == s.ppStack + [CheckpointOf(s.stack, afterFirst, pastElse)]
  }

  lemma FirstBranch(s: State, first: Branch)
    requires first.head.directive == If && WellNested(first.body, 0)
    ensures Inside(s, LineOf(first), Run(LineOf(first), s).stack, false)
  {
    RunBranch(first, s);
  }

  lemma NextBranch(s: State, lines: seq<Line>, afterFirst: Blocks, pastElse: bool, next: Branch)
    requires Inside(s, lines, afterFirst, pastElse) && (!pastElse ==> Run(lines, s).stack == afterFirst)
    requires IsBranch(next)
    ensures Inside(s, lines + LineOf(next), afterFirst, true)
  {
    var at := Run(lines, s);
    RunAppended(lines, LineOf(next), s);
    RunBranch(next, at);
    ElseOnTop(s.ppStack, s.stack, afterFirst, pastElse, at.stack);
    assert at == State(at.stack, at.ppStack);
  }

  lemma {:induction false} InsideIf(s: State, lines: seq<Line>, afterFirst: Blocks, pastElse: bool,
                                    later: seq<Branch>)
    requires Inside(s, lines, afterFirst, pastElse) && (!pastElse ==> Run(lines, s).stack == afterFirst)
    requires forall b <- later :: IsBranch(b)
    ensures Inside(s, lines + LinesOf(later), afterFirst, pastElse || later != [])
    decreases |later|
  {
    if later == [] {
      assert lines + LinesOf(later) == lines;
    } else {
      var next, rest := later[0], later[1..];
      assert forall b <- rest :: b in later;
      NextBranch(s, lines, afterFirst, pastElse, next);
      InsideIf(s, lines + LineOf(next), afterFirst, true, rest);
      Regrouped(lines, later);
    }
  }

  lemma Regrouped(lines: seq<Line>, later: seq<Branch>)
    requires later != []
    ensures (lines + LineOf(later[0])) + LinesOf(later[1..]) == lines + LinesOf(later)
  {
  }

  /** Every "else" and "elif" starts with the blocks open before its "if",
      whatever the branches before it left open; the "endif" continues with the
      blocks open at the end of the first branch. */
  lemma BranchesStartBeforeIf(s: State, first: Branch, later: seq<Branch>)
    requires first.head.directive == If && WellNested(first.body, 0)
    requires forall b <- later :: IsBranch(b)
    ensures AfterDirective(Else, Run(LineOf(first) + LinesOf(later), s)).stack == s.stack
    ensures AfterDirective(Endif, Run(LineOf(first) + LinesOf(later), s))
         == State(Run(LineOf(first), s).stack, s.ppStack)
  {
    var at, afterFirst := Run(LineOf(first) + LinesOf(later), s), Run(LineOf(first), s).stack;
    FirstBranch(s, first);
    InsideIf(s, LineOf(first), afterFirst, false, later);
    assert later == [] ==> LineOf(first) + LinesOf(later) == LineOf(first);
    assert at == State(at.stack, at.ppStack);
    ElseOnTop(s.ppStack, s.stack, afterFirst, later != [], at.stack);
    EndifOnTop(s.ppStack, s.stack, afterFirst, later != [], at.stack);
  }

  // ---------------------------------------------------------------------------
  // Heads and parentheses

  /** The block of a namespace head, complete exactly if its brace is on the line. */
  predicate IsNamespace(b: Block, linenum: nat, decl: NamespaceDecl) {
    && b.kind == Namespace(decl.name) && b.startingLine == linenum && b.seenOpenBrace == decl.hasBrace
    && b.openParentheses == 0 && b.inlineAsm == NoAsm
  }

  /** The namespaces of a line are pushed on top of the others, in order. */
  lemma {:induction false} NamespacesPushed(line: Line, k: nat, stack: Blocks)
    requires k <= |line.namespaces|
    ensures var after := PushNamespaces(line, k, stack);
            && |after| == |stack| + |line.namespaces| - k && after[..|stack|] == stack
            && forall j :: |stack| <= j < |after| ==>
                 IsNamespace(after[j], line.linenum, line.namespaces[j - |stack| + k])
    decreases |line.namespaces| - k
  {
    if k < |line.namespaces| {
      var decl := line.namespaces[k];
      var pushed := stack + [NewBlock(Namespace(decl.name), line.linenum, decl.hasBrace)];
      NamespacesPushed(line, k + 1, pushed);
      var after := PushNamespaces(line, k, stack);
      assert after[..|stack|] == after[..|pushed|][..|stack|] == stack;
      assert after[|stack|] == after[..|pushed|][|stack|] == pushed[|stack|];
      forall j | |stack| <= j < |after|
        ensures IsNamespace(after[j], line.linenum, line.namespaces[j - |stack| + k])
      {
        assert j > |stack| ==> j - |pushed| + k + 1 == j - |stack| + k;
      }
    }
  }

  /** A line without directives, heads, braces and the like. */
  predicate Quiet(line: Line) {
    && line.directive == NoDirective && line.namespaces == [] && line.classDecl == None
    && line.rest.tokens == []
  }

  function Deltas(lines: seq<Line>): int {
    if lines == [] then 0 else lines[0].parenDelta + Deltas(lines[1..])
  }

  /** The last access specifier of the lines, or the one before them. */
  function LastAccess(lines: seq<Line>, before: string): string {
    if lines == [] then before
    else LastAccess(lines[1..], if lines[0].rest.access.Some? then lines[0].rest.access.value else before)
  }

  ghost predicate SomeColon(lines: seq<Line>) {
    exists line :: line in lines && line.bareColon
  }

  /** What a block counts over the lines: the parentheses left open and, for a class,
      the last access specifier, and whether a colon is seen before its brace. */
  ghost predicate Counted(lines: seq<Line>, before: Block, after: Block) {
    && after.startingLine == before.startingLine && after.seenOpenBrace == before.seenOpenBrace
    && after.openParentheses == before.openParentheses + Deltas(lines)
    && if before.kind.Class? then
         after.kind == Class(before.kind.className, LastAccess(lines, before.kind.access),
                             before.kind.isDerived || (!before.seenOpenBrace && SomeColon(lines)))
       else
         after.kind == before.kind
  }

  function Top(stack: Blocks): Block
    requires stack != []
  {
    stack[|stack| - 1]
  }

  predicate SameBelow(a: Blocks, b: Blocks) {
    |a| == |b| > 0 && a[..|a| - 1] == b[..|b| - 1]
  }

  lemma QuietStep(line: Line, s: State)
    requires Quiet(line) && s.stack != []
    ensures var after := Step(line, s);
            && after.ppStack == s.ppStack && SameBelow(after.stack, s.stack)
            && Counted([line], Top(s.stack), Top(after.stack))
            && Top(after.stack).inlineAsm == Top(CountParentheses(line, s.stack)).inlineAsm
  {
    var counted := CountParentheses(line, s.stack);
    assert Step(line, s).stack == ConsumeTokens(line.linenum, [], MarkClass(line, line.rest, counted));
    assert [line][1..] == [] && line in [line];
  }

  lemma CountedMore(lines: seq<Line>, before: Block, next: Block, after: Block)
    requires lines != [] && Counted([lines[0]], before, next) && Counted(lines[1..], next, after)
    ensures Counted(lines, before, after)
  {
    var one, rest := [lines[0]], lines[1..];
    assert one[1..] == [] && lines == one + rest && lines[0] in one && lines[0] in lines;
    assert Deltas(one) == lines[0].parenDelta;
    if before.kind.Class? {
      assert LastAccess(one, before.kind.access)
          == if lines[0].rest.access.Some? then lines[0].rest.access.value else before.kind.access;
      assert SomeColon(one) <==> lines[0].bareColon;
      if line :| line in lines && line.bareColon {
        assert line in one || line in rest;
      }
    }
  }

  /** Over such lines only the innermost block changes, by what it counts. */
  lemma {:induction false} QuietLines(lines: seq<Line>, s: State)
    requires s.stack != [] && forall line <- lines :: Quiet(line)
    ensures var after := Run(lines, s);
            && after.ppStack == s.ppStack && SameBelow(after.stack, s.stack)
            && Counted(lines, Top(s.stack), Top(after.stack))
    decreases |lines|
  {
    if lines == [] {
      assert Run(lines, s) == s && !SomeColon(lines);
    } else {
      QuietStep(lines[0], s);
      QuietLines(lines[1..], Step(lines[0], s));
      CountedMore(lines, Top(s.stack), Top(Step(lines[0], s).stack), Top(Run(lines, s).stack));
    }
  }

  /** Every line but the last leaves parentheses open. */
  predicate StaysOpen(lines: seq<Line>, open: int) {
    |lines| > 1 ==> open + lines[0].parenDelta != 0 && StaysOpen(lines[1..], open + lines[0].parenDelta)
  }

  /** An asm head that opens a parenthesis starts an asm block, unless it is inside
      one. */
  lemma AsmStarts(line: Line, s: State)
    requires Quiet(line) && s.stack != [] && (Top(s.stack).inlineAsm == NoAsm || Top(s.stack).inlineAsm == EndAsm)
    ensures Top(Step(line, s).stack).inlineAsm
         == if line.asmHead && line.parenDelta != 0 && Top(s.stack).openParentheses + line.parenDelta == 1 then InsideAsm
            else NoAsm
  {
    QuietStep(line, s);
  }

  /** It ends with the first line that closes all parentheses. */
  lemma {:induction false} AsmUntilClosed(lines: seq<Line>, s: State)
    requires s.stack != [] && Top(s.stack).inlineAsm == InsideAsm && lines != []
    requires (forall line <- lines :: Quiet(line)) && StaysOpen(lines, Top(s.stack).openParentheses)
    ensures Run(lines, s).stack != []
    ensures Top(Run(lines, s).stack).inlineAsm
         == if Top(s.stack).openParentheses + Deltas(lines) == 0 then EndAsm else InsideAsm
    decreases |lines|
  {
    var next := Step(lines[0], s);
    QuietStep(lines[0], s);
    assert [lines[0]][1..] == [];
    if |lines| == 1 {
      assert Run(lines[1..], next) == next && Deltas(lines) == lines[0].parenDelta;
    } else {
      AsmUntilClosed(lines[1..], next);
    }
  }

  /** A class head after such lines is pushed exactly if their parentheses and
      its own are closed; else it is taken for an argument, and the blocks stay. */
  lemma ClassHeadOutsideParentheses(lines: seq<Line>, line: Line, s: State)
    requires s.stack != [] && (forall l <- lines :: Quiet(l)) && line.namespaces == []
    requires line.directive == NoDirective && line.classDecl.Some?
    ensures var before := CountParentheses(line, Run(lines, s).stack);
            var (after, rest) := PushClass(line, PushNamespaces(line, 0, before));
            var decl := line.classDecl.value;
            if Top(s.stack).openParentheses + Deltas(lines) + line.parenDelta == 0 then
              && rest == decl.rest && |after| == |before| + 1 && after[..|before|] == before
              && !after[|before|].seenOpenBrace && after[|before|].startingLine == line.linenum
              && after[|before|].kind == Class(decl.name, if decl.isStruct then "public" else "private", false)
            else
              after == before && rest == line.rest
  {
    QuietLines(lines, s);
  }

  /** A class with its body on one line: the block of the class is complete, derived
      exactly if there is a colon, and has the access specifier of the line. */
  lemma ClassWithBody(line: Line, decl: ClassDecl, externC: bool, asm: bool, s: State)
    requires line.directive == NoDirective && line.namespaces == [] && line.classDecl == Some(decl)
    requires decl.rest.tokens == [OpenBrace(externC, asm)]
    requires s.stack != [] ==> Top(s.stack).openParentheses + line.parenDelta == 0
    ensures var access := if decl.rest.access.Some? then decl.rest.access.value
                          else if decl.isStruct then "public" else "private";
            Step(line, s) == State(CountParentheses(line, s.stack)
                                   + [Block(Class(decl.name, access, line.bareColon), line.linenum, true, 0, NoAsm)],
                                   s.ppStack)
  {
    var before := CountParentheses(line, s.stack);
    var tokens := decl.rest.tokens;
    assert tokens[1..] == [];
    var heads := before + [NewBlock(Class(decl.name, if decl.isStruct then "public" else "private", false),
                                    line.linenum, false)];
    assert PushClass(line, before) == (heads, decl.rest);
    var marked := MarkClass(line, decl.rest, heads);
    assert marked[..|before|] == before && marked == before + [Top(marked)];
    assert ConsumeTokens(line.linenum, tokens, marked) == ConsumeToken(line.linenum, tokens[0], marked);
  }

  // ---------------------------------------------------------------------------
  // Braces

  /** Braces close in order down to the given depth; other tokens are free. */
  predicate BalancedBraces(tokens: seq<Token>, depth: nat) {
    if tokens == [] then depth == 0
    else
      match tokens[0]
      case OpenBrace(_, _) => BalancedBraces(tokens[1..], depth + 1)
      case CloseBrace => depth > 0 && BalancedBraces(tokens[1..], depth - 1)
      case _ => BalancedBraces(tokens[1..], depth)
  }

  /** One token of a body, when the innermost block has its opening brace. */
  lemma BodyToken(linenum: nat, token: Token, stack: Blocks, inner: Blocks) returns (inner': Blocks)
    requires SeenOpenBrace(stack) && (forall b <- inner :: b.seenOpenBrace) && (token.CloseBrace? ==> inner != [])
    ensures ConsumeToken(linenum, token, stack + inner) == stack + inner'
    ensures forall b <- inner' :: b.seenOpenBrace
    ensures |inner'| == |inner| + (if token.OpenBrace? then 1 else 0) - (if token.CloseBrace? then 1 else 0)
  {
    var n := |inner| - 1;
    InnermostSeen(stack, inner);
    match token {
      case OpenBrace(externC, asm) =>
        var after := ConsumeToken(linenum, token, stack + inner);
        inner' := inner + [after[|after| - 1]];
        assert after == (stack + inner) + [after[|after| - 1]] == stack + inner';
      case CloseBrace =>
        inner' := inner[..n];
        assert (stack + inner)[..|stack| + n] == stack + inner';
      case _ =>
        inner' := inner;
    }
  }

  lemma InnermostSeen(stack: Blocks, inner: Blocks)
    requires SeenOpenBrace(stack) && forall b <- inner :: b.seenOpenBrace
    ensures SeenOpenBrace(stack + inner)
  {
    if inner == [] {
      assert stack + inner == stack;
    } else {
      assert inner[|inner| - 1] in inner;
    }
  }

  /** Balanced braces restore the block stack, whatever other tokens are between
      them, once the innermost block has its opening brace. */
  lemma {:induction false} BalancedBracesRestore(linenum: nat, tokens: seq<Token>, stack: Blocks, inner: Blocks)
    requires BalancedBraces(tokens, |inner|) && SeenOpenBrace(stack)
    requires forall b <- inner :: b.seenOpenBrace
    ensures ConsumeTokens(linenum, tokens, stack + inner) == stack
    decreases |tokens|
  {
    if tokens == [] {
      assert stack + inner == stack;
    } else {
      var inner' := BodyToken(linenum, tokens[0], stack, inner);
      BalancedBracesRestore(linenum, tokens[1..], stack, inner');
    }
  }

  /** The opening braces that wait for theirs to close, after one more token. */
  function OpenAfter(token: Token, open: seq<Token>): seq<Token> {
    match token
    case OpenBrace(_, _) => open + [token]
    case CloseBrace => if open == [] then [] else open[..|open| - 1]
    case _ => open
  }

  function LeftOpen(tokens: seq<Token>, open: seq<Token>): seq<Token> {
    if tokens == [] then open else LeftOpen(tokens[1..], OpenAfter(tokens[0], open))
  }

  /** No brace among the tokens closes one from before them. */
  predicate ClosesOwn(tokens: seq<Token>, open: seq<Token>) {
    tokens == []
    || ((tokens[0].CloseBrace? ==> open != []) && ClosesOwn(tokens[1..], OpenAfter(tokens[0], open)))
  }

  /** The block that an opening brace starts. */
  predicate IsBraceBlock(b: Block, linenum: nat, token: Token) {
    && token.OpenBrace? && b.seenOpenBrace && b.startingLine == linenum && b.openParentheses == 0
    && b.kind == (if token.externC then ExternC else Brace)
    && b.inlineAsm == (if !token.externC && token.asm then BlockAsm else NoAsm)
  }

  predicate AreBraceBlocks(blocks: Blocks, linenum: nat, open: seq<Token>) {
    && |blocks| == |open|
    && forall i :: 0 <= i < |open| ==> IsBraceBlock(blocks[i], linenum, open[i])
  }

  lemma AllSeen(linenum: nat, inner: Blocks, open: seq<Token>)
    requires AreBraceBlocks(inner, linenum, open)
    ensures forall b <- inner :: b.seenOpenBrace
  {
    forall b | b in inner ensures b.seenOpenBrace {
      var i :| 0 <= i < |inner| && inner[i] == b;
      assert IsBraceBlock(inner[i], linenum, open[i]);
    }
  }

  lemma BraceToken(linenum: nat, token: Token, stack: Blocks, inner: Blocks, open: seq<Token>)
    returns (inner': Blocks)
    requires SeenOpenBrace(stack) && AreBraceBlocks(inner, linenum, open) && (token.CloseBrace? ==> open != [])
    ensures ConsumeToken(linenum, token, stack + inner) == stack + inner'
    ensures AreBraceBlocks(inner', linenum, OpenAfter(token, open))
  {
    AllSeen(linenum, inner, open);
    InnermostSeen(stack, inner);
    match token {
      case OpenBrace(externC, asm) =>
        var after := ConsumeToken(linenum, token, stack + inner);
        var b := after[|after| - 1];
        assert IsBraceBlock(b, linenum, token);
        inner' := inner + [b];
        assert after == stack + inner';
      case CloseBrace =>
        inner' := inner[..|inner| - 1];
        assert (stack + inner)[..|stack| + |inner| - 1] == stack + inner';
      case _ =>
        inner' := inner;
    }
  }

  /** The blocks that tokens leave on a stack are those of the braces they leave
      open, in order, each with what its brace says. */
  lemma {:induction false} BlocksOfOpenBraces(linenum: nat, tokens: seq<Token>, stack: Blocks, inner: Blocks,
                                              open: seq<Token>)
    requires ClosesOwn(tokens, open) && SeenOpenBrace(stack) && AreBraceBlocks(inner, linenum, open)
    ensures var after := ConsumeTokens(linenum, tokens, stack + inner);
            && |after| >= |stack| && after[..|stack|] == stack
            && AreBraceBlocks(after[|stack|..], linenum, LeftOpen(tokens, open))
    decreases |tokens|
  {
    if tokens == [] {
      assert (stack + inner)[..|stack|] == stack && (stack + inner)[|stack|..] == inner;
    } else {
      var inner' := BraceToken(linenum, tokens[0], stack, inner, open);
      BlocksOfOpenBraces(linenum, tokens[1..], stack, inner', OpenAfter(tokens[0], open));
    }
  }

  /** The head of a class and of a namespace: the first opening brace completes
      the head, and the brace that matches it removes the block again. */
  lemma HeadThenBody(linenum: nat, tokens: seq<Token>, stack: Blocks, head: Block, externC: bool, asm: bool)
    requires !head.seenOpenBrace && SeenOpenBrace(stack) && BalancedBraces(tokens, 0)
    ensures ConsumeTokens(linenum, [OpenBrace(externC, asm)] + tokens + [CloseBrace], stack + [head]) == stack
    ensures ConsumeTokens(linenum, [Semicolon], stack + [head]) == stack
  {
    var all := [OpenBrace(externC, asm)] + tokens + [CloseBrace];
    var body := stack + [head.(seenOpenBrace := true)];
    assert (stack + [head])[..|stack|] == stack && body[..|stack|] == stack;
    assert all[1..] == tokens + [CloseBrace];
    assert ConsumeToken(linenum, all[0], stack + [head]) == body;
    ConsumeAppended(linenum, tokens, CloseBrace, body);
    BalancedBracesRestore(linenum, tokens, body, []);
    assert body + [] == body;
  }

  lemma {:induction false} ConsumeAppended(linenum: nat, tokens: seq<Token>, last: Token, stack: Blocks)
    ensures ConsumeTokens(linenum, tokens + [last], stack)
         == ConsumeToken(linenum, last, ConsumeTokens(linenum, tokens, stack))
    decreases |tokens|
  {
    if tokens == [] {
      assert [] + [last] == [last] && [last][1..] == [];
    } else {
      assert (tokens + [last])[0] == tokens[0] && (tokens + [last])[1..] == tokens[1..] + [last];
      ConsumeAppended(linenum, tokens[1..], last, ConsumeToken(linenum, tokens[0], stack));
    }
  }
}
