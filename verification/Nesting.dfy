/**
 NestingState of cpplint: the stack of open blocks, line by line, and the
 checkpoints that "if", "else" and "endif" directives make of it.

 A line is given by what the regular expressions of Update read off it, in the
 order Update reads it; the two stacks are updated exactly as Update does.
 */
module Nesting {
  import opened Wrappers

  // ---------------------------------------------------------------------------
  // Blocks and lines

  datatype Asm = NoAsm | InsideAsm | EndAsm | BlockAsm

  datatype Kind =
    | Brace
    | ExternC
    | Namespace(name: string)
    | Class(className: string, access: string, isDerived: bool)

  datatype Block = Block(kind: Kind, startingLine: nat, seenOpenBrace: bool, openParentheses: int, inlineAsm: Asm)

  function NewBlock(kind: Kind, linenum: nat, seenOpenBrace: bool): Block {
    Block(kind, linenum, seenOpenBrace, 0, NoAsm)
  }

  datatype Directive = If | Else | Endif | NoDirective

  /** The characters the last loop of Update consumes; an opening brace may end
      an extern "C" head or an asm head. */
  datatype Token = OpenBrace(externC: bool, asm: bool) | Semicolon | CloseParen | CloseBrace

  /** What is left of a line: its access specifier, if any, and its tokens. */
  datatype Rest = Rest(access: Option<string>, tokens: seq<Token>)

  datatype NamespaceDecl = NamespaceDecl(name: string, hasBrace: bool)

  /** A class head that is not a template argument, and the rest of the line
      once the head is consumed. */
  datatype ClassDecl = ClassDecl(name: string, isStruct: bool, rest: Rest)

  datatype Line = Line(
    linenum: nat,
    directive: Directive,
    parenDelta: int,
    asmHead: bool,
    namespaces: seq<NamespaceDecl>,
    classDecl: Option<ClassDecl>,
    bareColon: bool,
    rest: Rest)

  type Blocks = seq<Block>

  // ---------------------------------------------------------------------------
  // The block stack over one line

  predicate SeenOpenBrace(stack: Blocks) {
    stack == [] || stack[|stack| - 1].seenOpenBrace
  }

  function WithTop(stack: Blocks, top: Block): Blocks
    requires stack != []
  {
    stack[|stack| - 1 := top]
  }

  function CountParentheses(line: Line, stack: Blocks): Blocks {
    if stack == [] then stack
    else
      var top := stack[|stack| - 1];
      var parens := top.openParentheses + line.parenDelta;
      var asm :=
        match top.inlineAsm
        case NoAsm | EndAsm => if line.parenDelta != 0 && parens == 1 && line.asmHead then InsideAsm else NoAsm
        case InsideAsm => if parens == 0 then EndAsm else InsideAsm
        case BlockAsm => BlockAsm;
      WithTop(stack, top.(openParentheses := parens, inlineAsm := asm))
  }

  function PushNamespaces(line: Line, k: nat, stack: Blocks): Blocks
    requires k <= |line.namespaces|
    decreases |line.namespaces| - k
  {
    if k == |line.namespaces| then stack
    else
      var decl := line.namespaces[k];
      PushNamespaces(line, k + 1, stack + [NewBlock(Namespace(decl.name), line.linenum, decl.hasBrace)])
  }

  /** The stack with the class head pushed, and what is left of the line. */
  function PushClass(line: Line, stack: Blocks): (Blocks, Rest) {
    match line.classDecl
    case None => (stack, line.rest)
    case Some(decl) =>
      if stack != [] && stack[|stack| - 1].openParentheses != 0 then (stack, line.rest)
      else
        var access := if decl.isStruct then "public" else "private";
        (stack + [NewBlock(Class(decl.name, access, false), line.linenum, false)], decl.rest)
  }

  /** CheckBegin of an unopened class, then the access specifier of a class. */
  function MarkClass(line: Line, rest: Rest, stack: Blocks): Blocks {
    if stack == [] || !stack[|stack| - 1].kind.Class? then stack
    else
      var top := stack[|stack| - 1];
      var kind := top.kind;
      var derived := if !top.seenOpenBrace && line.bareColon then kind.(isDerived := true) else kind;
      var marked := if rest.access.Some? then derived.(access := rest.access.value) else derived;
      WithTop(stack, top.(kind := marked))
  }

  function ConsumeToken(linenum: nat, token: Token, stack: Blocks): Blocks {
    match token
    case OpenBrace(externC, asm) =>
      if !SeenOpenBrace(stack) then WithTop(stack, stack[|stack| - 1].(seenOpenBrace := true))
      else if externC then stack + [NewBlock(ExternC, linenum, true)]
      else stack + [NewBlock(Brace, linenum, true).(inlineAsm := if asm then BlockAsm else NoAsm)]
    case Semicolon | CloseParen => if !SeenOpenBrace(stack) then stack[..|stack| - 1] else stack
    case CloseBrace => if stack != [] then stack[..|stack| - 1] else stack
  }

  function ConsumeTokens(linenum: nat, tokens: seq<Token>, stack: Blocks): Blocks {
    if tokens == [] then stack
    else ConsumeTokens(linenum, tokens[1..], ConsumeToken(linenum, tokens[0], stack))
  }

  /** Everything Update does to the block stack after the preprocessor. */
  function UpdateBlocks(line: Line, stack: Blocks): Blocks {
    var (heads, rest) := PushClass(line, PushNamespaces(line, 0, CountParentheses(line, stack)));
    ConsumeTokens(line.linenum, rest.tokens, MarkClass(line, rest, heads))
  }

  // ---------------------------------------------------------------------------
  // The preprocessor checkpoints

  datatype Checkpoint = Checkpoint(beforeIf: Blocks, beforeElse: Blocks, seenElse: bool)

  datatype State = State(stack: Blocks, ppStack: seq<Checkpoint>)

  function AfterDirective(directive: Directive, s: State): State {
    match directive
    case NoDirective => s
    case If => s.(ppStack := s.ppStack + [Checkpoint(s.stack, [], false)])
    case Else =>
      if s.ppStack == [] then s
      else
        var n := |s.ppStack| - 1;
        var top := s.ppStack[n];
        var seen := if top.seenElse then top else top.(seenElse := true, beforeElse := s.stack);
        State(top.beforeIf, s.ppStack[n := seen])
    case Endif =>
      if s.ppStack == [] then s
      else
        var n := |s.ppStack| - 1;
        State(if s.ppStack[n].seenElse then s.ppStack[n].beforeElse else s.stack, s.ppStack[..n])
  }

  function Step(line: Line, s: State): State {
    var s' := AfterDirective(line.directive, s);
    s'.(stack := UpdateBlocks(line, s'.stack))
  }

  function Run(lines: seq<Line>, s: State): State {
    if lines == [] then s else Run(lines[1..], Step(lines[0], s))
  }

  class NestingState {
    var stack: seq<Block>
    var ppStack: seq<Checkpoint>

    ghost function View(): State
      reads this
    {
      State(stack, ppStack)
    }

    constructor ()
      ensures View() == State([], [])
    {
      stack, ppStack := [], [];
    }

    method UpdatePreprocessor(directive: Directive)
      modifies this
      ensures View() == AfterDirective(directive, old(View()))
    {
      match directive
      case NoDirective =>
      case If =>
        ppStack := ppStack + [Checkpoint(stack, [], false)];
      case Else =>
        if ppStack != [] {
          var n := |ppStack| - 1;
          if !ppStack[n].seenElse {
            ppStack := ppStack[n := ppStack[n].(seenElse := true, beforeElse := stack)];
          }
          stack := ppStack[n].beforeIf;
        }
      case Endif =>
        if ppStack != [] {
          var n := |ppStack| - 1;
          if ppStack[n].seenElse {
            stack := ppStack[n].beforeElse;
          }
          ppStack := ppStack[..n];
        }
    }

    method Update(line: Line)
      modifies this
      ensures View() == Step(line, old(View()))
    {
      UpdatePreprocessor(line.directive);
      UpdateParentheses(line);
      var rest := PushHeads(line);
      UpdateClassInfo(line, rest);
      Consume(line.linenum, rest.tokens);
    }

    method UpdateParentheses(line: Line)
      modifies this`stack
      ensures stack == CountParentheses(line, old(stack))
    {
      if stack != [] {
        var inner := stack[|stack| - 1];
        inner := inner.(openParentheses := inner.openParentheses + line.parenDelta);
        if inner.inlineAsm == NoAsm || inner.inlineAsm == EndAsm {
          var enters := line.parenDelta != 0 && inner.openParentheses == 1 && line.asmHead;
          inner := inner.(inlineAsm := if enters then InsideAsm else NoAsm);
        } else if inner.inlineAsm == InsideAsm && inner.openParentheses == 0 {
          inner := inner.(inlineAsm := EndAsm);
        }
        stack := stack[|stack| - 1 := inner];
      }
    }

    method PushHeads(line: Line) returns (rest: Rest)
      modifies this`stack
      ensures (stack, rest) == PushClass(line, PushNamespaces(line, 0, old(stack)))
    {
      for k := 0 to |line.namespaces|
        invariant PushNamespaces(line, 0, old(stack)) == PushNamespaces(line, k, stack)
      {
        var decl := line.namespaces[k];
        stack := stack + [NewBlock(Namespace(decl.name), line.linenum, decl.hasBrace)];
      }
      rest := line.rest;
      if line.classDecl.Some? && (stack == [] || stack[|stack| - 1].openParentheses == 0) {
        var decl := line.classDecl.value;
        var access := if decl.isStruct then "public" else "private";
        stack := stack + [NewBlock(Class(decl.name, access, false), line.linenum, false)];
        rest := decl.rest;
      }
    }

    method UpdateClassInfo(line: Line, rest: Rest)
      modifies this`stack
      ensures stack == MarkClass(line, rest, old(stack))
    {
      if stack != [] && stack[|stack| - 1].kind.Class? {
        var info := stack[|stack| - 1];
        if !info.seenOpenBrace && line.bareColon {
          info := info.(kind := info.kind.(isDerived := true));
        }
        if rest.access.Some? {
          info := info.(kind := info.kind.(access := rest.access.value));
        }
        stack := stack[|stack| - 1 := info];
      }
    }

    method Consume(linenum: nat, tokens: seq<Token>)
      modifies this`stack
      ensures stack == ConsumeTokens(linenum, tokens, old(stack))
    {
      var left := tokens;
      while left != []
        invariant ConsumeTokens(linenum, tokens, old(stack)) == ConsumeTokens(linenum, left, stack)
        decreases |left|
      {
        match left[0] {
          case OpenBrace(externC, asm) =>
            if !SeenOpenBrace(stack) {
              stack := stack[|stack| - 1 := stack[|stack| - 1].(seenOpenBrace := true)];
            } else if externC {
              stack := stack + [NewBlock(ExternC, linenum, true)];
            } else {
              stack := stack + [NewBlock(Brace, linenum, true).(inlineAsm := if asm then BlockAsm else NoAsm)];
            }
          case Semicolon | CloseParen =>
            if !SeenOpenBrace(stack) {
              stack := stack[..|stack| - 1];
            }
          case CloseBrace =>
            if stack != [] {
              stack := stack[..|stack| - 1];
            }
        }
        left := left[1..];
      }
    }

    /** The lines of a file, one Update each. */
    method UpdateAll(lines: seq<Line>)
      modifies this
      ensures View() == Run(lines, old(View()))
    {
      for k := 0 to |lines|
        invariant Run(lines, old(View())) == Run(lines[k..], View())
      {
        Update(lines[k]);
        assert lines[k..][1..] == lines[k + 1..];
      }
    }
  }
}
