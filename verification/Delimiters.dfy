/**
 The delimiter scanners of cpplint: FindEndOfExpressionInLine and
 FindStartOfExpressionInLine with their heuristics for angle brackets,
 CloseExpression and ReverseCloseExpression over many lines, and the second,
 independent matcher _GetTextInside.
 */
module Delimiters {
  import opened Wrappers
  import opened Brackets

  // ---------------------------------------------------------------------------
  // The regular expressions the heuristics rely on

  /** What \s matches. */
  predicate IsSpace(c: char) {
    || c == ' ' || '\t' <= c <= '\r' || '\U{1c}' <= c <= '\U{1f}' || c == '\U{85}' || c == '\U{a0}'
    || c == '\U{1680}' || '\U{2000}' <= c <= '\U{200a}' || c == '\U{2028}' || c == '\U{2029}'
    || c == '\U{202f}' || c == '\U{205f}' || c == '\U{3000}'
  }

  /** \boperator\s*$ is found in s; isWord is the class of characters \w matches. */
  predicate EndsWithOperator(isWord: char -> bool, s: string) {
    if s == [] then false
    else if IsSpace(s[|s| - 1]) then EndsWithOperator(isWord, s[..|s| - 1])
    else |s| >= 8 && s[|s| - 8..] == "operator" && (|s| == 8 || !isWord(s[|s| - 9]))
  }

  /** \s>=\s matches at position i. */
  predicate SpacedGreaterEqual(line: string, i: nat) {
    i + 3 < |line| && IsSpace(line[i]) && line[i + 1] == '>' && line[i + 2] == '=' && IsSpace(line[i + 3])
  }

  // ---------------------------------------------------------------------------
  // Forward

  /** The stack without the run of angles on its top. */
  function DropAngles(angle: char, stack: string): (r: string) {
    if stack != [] && stack[|stack| - 1] == angle then DropAngles(angle, stack[..|stack| - 1]) else stack
  }

  function Pop(stack: string): string
    requires stack != []
  {
    stack[..|stack| - 1]
  }

  predicate TopIs(stack: string, c: char) {
    stack != [] && stack[|stack| - 1] == c
  }

  /** The part a character plays in a scan, once the regular expressions and the
      neighbouring characters have been looked at. */
  datatype Role = Opening | Closing | Ignored | AngleStart | AngleEnd | Shift | Semicolon

  function ForwardRole(isWord: char -> bool, line: string, i: nat): (r: Role)
    requires i < |line|
    ensures r == Opening <==> IsOpen(line[i])
    ensures r == Closing <==> IsClose(line[i])
  {
    var c := line[i];
    if IsOpen(c) then Opening
    else if c == '<' then
      if i > 0 && line[i - 1] == '<' then Shift
      else if i > 0 && EndsWithOperator(isWord, line[..i]) then Ignored
      else AngleStart
    else if IsClose(c) then Closing
    else if c == '>' then
      if i > 0 && (line[i - 1] == '-' || EndsWithOperator(isWord, line[..i - 1])) then Ignored else AngleEnd
    else if c == ';' then Semicolon
    else Ignored
  }

  /** What a character does to the pending stack, read left to right at i. */
  function ForwardStep(role: Role, c: char, i: nat, stack: string): Scan {
    match role
    case Opening => Pending(stack + [c])
    case AngleStart => Pending(stack + ['<'])
    case Ignored => Pending(stack)
    case Shift =>
      if !TopIs(stack, '<') then Pending(stack) else if |stack| == 1 then Broken else Pending(Pop(stack))
    case Closing =>
      var s := DropAngles('<', stack);
      if s == [] || !Pairs(s[|s| - 1], c) then Broken
      else if |s| == 1 then Found(i + 1)
      else Pending(Pop(s))
    case AngleEnd =>
      if !TopIs(stack, '<') then Pending(stack)
      else if |stack| == 1 then Found(i + 1)
      else Pending(Pop(stack))
    case Semicolon =>
      var s := DropAngles('<', stack);
      if s == [] then Broken else Pending(s)
  }

  function ScanForward(isWord: char -> bool, line: string, i: nat, stack: string): Scan
    decreases |line| - i
  {
    if i >= |line| then Pending(stack)
    else
      match ForwardStep(ForwardRole(isWord, line, i), line[i], i, stack)
      case Pending(s) => ScanForward(isWord, line, i + 1, s)
      case r => r
  }

  /** The pair a line scanner returns. */
  predicate Reports(endpos: int, stack: Option<string>, r: Scan) {
    match r
    case Found(e) => endpos == e && stack == None
    case Broken => endpos == -1 && stack == None
    case Pending(s) => endpos == -1 && stack == Some(s)
  }

  method FindEndOfExpressionInLine(isWord: char -> bool, line: string, startpos: nat, initial: string)
    returns (endpos: int, pending: Option<string>)
    ensures Reports(endpos, pending, ScanForward(isWord, line, startpos, initial))
  {
    var stack := initial;
    var i := startpos;
    while i < |line|
      invariant ScanForward(isWord, line, startpos, initial) == ScanForward(isWord, line, i, stack)
    {
      var c := line[i];
      if c in "([{" {
        stack := stack + [c];
      } else if c == '<' {
        if i > 0 && line[i - 1] == '<' {
          if TopIs(stack, '<') {
            stack := Pop(stack);
            if stack == [] {
              return -1, None;
            }
          }
        } else if i > 0 && EndsWithOperator(isWord, line[..i]) {
        } else {
          stack := stack + ['<'];
        }
      } else if c in ")]}" {
        ghost var before := stack;
        while TopIs(stack, '<')
          invariant DropAngles('<', stack) == DropAngles('<', before)
          decreases |stack|
        {
          stack := Pop(stack);
        }
        if stack == [] {
          return -1, None;
        }
        if Pairs(stack[|stack| - 1], c) {
          stack := Pop(stack);
          if stack == [] {
            return i + 1, None;
          }
        } else {
          return -1, None;
        }
      } else if c == '>' {
        if i > 0 && (line[i - 1] == '-' || EndsWithOperator(isWord, line[..i - 1])) {
        } else if TopIs(stack, '<') {
          stack := Pop(stack);
          if stack == [] {
            return i + 1, None;
          }
        }
      } else if c == ';' {
        ghost var before := stack;
        while TopIs(stack, '<')
          invariant DropAngles('<', stack) == DropAngles('<', before)
          decreases |stack|
        {
          stack := Pop(stack);
        }
        if stack == [] {
          return -1, None;
        }
      }
      i := i + 1;
    }
    return -1, Some(stack);
  }

  // ---------------------------------------------------------------------------
  // Backward

  function BackwardRole(isWord: char -> bool, line: string, i: nat): (r: Role)
    requires i < |line|
    ensures r == Opening <==> IsOpen(line[i])
    ensures r == Closing <==> IsClose(line[i])
    ensures r == Shift ==> i > 0
  {
    var c := line[i];
    if IsClose(c) then Closing
    else if c == '>' then
      if i > 0 && (line[i - 1] == '-' || SpacedGreaterEqual(line, i - 1) || EndsWithOperator(isWord, line[..i])) then
        Shift
      else AngleEnd
    else if c == '<' then
      if i > 0 && line[i - 1] == '<' then Shift else AngleStart
    else if IsOpen(c) then Opening
    else if c == ';' then Semicolon
    else Ignored
  }

  /** What a character does to the pending stack, read right to left at i. In
      this direction the role Shift covers every operator of two characters. */
  function BackwardStep(role: Role, c: char, i: nat, stack: string): Scan {
    match role
    case Closing => Pending(stack + [c])
    case AngleEnd => Pending(stack + ['>'])
    case Ignored => Pending(stack)
    case Shift => Pending(stack)
    case AngleStart =>
      if !TopIs(stack, '>') then Pending(stack)
      else if |stack| == 1 then Found(i)
      else Pending(Pop(stack))
    case Opening =>
      var s := DropAngles('>', stack);
      if s == [] || !Pairs(c, s[|s| - 1]) then Broken
      else if |s| == 1 then Found(i)
      else Pending(Pop(s))
    case Semicolon =>
      var s := DropAngles('>', stack);
      if s == [] then Broken else Pending(s)
  }

  /** The scan of line[..i] from right to left. */
  function ScanBackward(isWord: char -> bool, line: string, i: nat, stack: string): Scan
    requires i <= |line|
  {
    if i == 0 then Pending(stack)
    else
      var role := BackwardRole(isWord, line, i - 1);
      match BackwardStep(role, line[i - 1], i - 1, stack)
      case Pending(s) => ScanBackward(isWord, line, if role == Shift then i - 2 else i - 1, s)
      case r => r
  }

  method FindStartOfExpressionInLine(isWord: char -> bool, line: string, endpos: int, initial: string)
    returns (startpos: int, pending: Option<string>)
    requires -1 <= endpos < |line|
    ensures Reports(startpos, pending, ScanBackward(isWord, line, endpos + 1, initial))
  {
    var stack := initial;
    var i := endpos;
    while i >= 0
      invariant -1 <= i < |line|
      invariant ScanBackward(isWord, line, endpos + 1, initial) == ScanBackward(isWord, line, i + 1, stack)
    {
      var c := line[i];
      if c in ")]}" {
        stack := stack + [c];
      } else if c == '>' {
        if i > 0 && (line[i - 1] == '-' || SpacedGreaterEqual(line, i - 1) || EndsWithOperator(isWord, line[..i])) {
          i := i - 1;
        } else {
          stack := stack + ['>'];
        }
      } else if c == '<' {
        if i > 0 && line[i - 1] == '<' {
          i := i - 1;
        } else if TopIs(stack, '>') {
          stack := Pop(stack);
          if stack == [] {
            return i, None;
          }
        }
      } else if c in "([{" {
        ghost var before := stack;
        while TopIs(stack, '>')
          invariant DropAngles('>', stack) == DropAngles('>', before)
          decreases |stack|
        {
          stack := Pop(stack);
        }
        if stack == [] {
          return -1, None;
        }
        if Pairs(c, stack[|stack| - 1]) {
          stack := Pop(stack);
          if stack == [] {
            return i, None;
          }
        } else {
          return -1, None;
        }
      } else if c == ';' {
        ghost var before := stack;
        while TopIs(stack, '>')
          invariant DropAngles('>', stack) == DropAngles('>', before)
          decreases |stack|
        {
          stack := Pop(stack);
        }
        if stack == [] {
          return -1, None;
        }
      }
      i := i - 1;
    }
    return -1, Some(stack);
  }

  // ---------------------------------------------------------------------------
  // Many lines

  /** Where a scan over the lines of a file ends: at a place, or without success
      after giving up on a line. */
  datatype Place = At(linenum: nat, pos: nat) | Nowhere(lastLine: nat)

  function CloseFrom(isWord: char -> bool, lines: seq<string>, l: nat, i: nat, stack: string): Place
    requires l < |lines|
    decreases |lines| - l
  {
    match ScanForward(isWord, lines[l], i, stack)
    case Found(e) => At(l, e)
    case Broken => Nowhere(l)
    case Pending(s) => if s == [] || l + 1 == |lines| then Nowhere(l) else CloseFrom(isWord, lines, l + 1, 0, s)
  }

  /** The closing place of the character at (l, p). */
  function CloseOf(isWord: char -> bool, lines: seq<string>, l: nat, p: nat): Place
    requires l < |lines| && p < |lines[l]|
  {
    if lines[l][p] !in "({[<" || ShiftOrLessEqual(lines[l], p) then Nowhere(l)
    else CloseFrom(isWord, lines, l, p, [])
  }

  /** <[<=] matches at p. */
  predicate ShiftOrLessEqual(line: string, p: nat) {
    p + 1 < |line| && line[p] == '<' && (line[p + 1] == '<' || line[p + 1] == '=')
  }

  method CloseExpression(isWord: char -> bool, lines: seq<string>, linenum: nat, pos: nat)
    returns (line: string, closeline: nat, closepos: int)
    requires linenum < |lines| && pos < |lines[linenum]|
    ensures match CloseOf(isWord, lines, linenum, pos)
            case At(l, p) => l < |lines| && line == lines[l] && closeline == l && closepos == p
            case Nowhere(l) => l < |lines| && line == lines[l] && closeline == |lines| && closepos == -1
  {
    line := lines[linenum];
    if line[pos] !in "({[<" || ShiftOrLessEqual(line, pos) {
      return line, |lines|, -1;
    }
    var endpos, stack := FindEndOfExpressionInLine(isWord, line, pos, []);
    if endpos > -1 {
      return line, linenum, endpos;
    }
    var l := linenum;
    while stack.Some? && stack.value != [] && l < |lines| - 1
      invariant linenum <= l < |lines| && line == lines[l]
      invariant stack.Some? && stack.value != [] && l < |lines| - 1 ==>
          CloseFrom(isWord, lines, linenum, pos, []) == CloseFrom(isWord, lines, l + 1, 0, stack.value)
      invariant !(stack.Some? && stack.value != [] && l < |lines| - 1) ==>
          CloseFrom(isWord, lines, linenum, pos, []) == Nowhere(l)
      decreases |lines| - l
    {
      l := l + 1;
      line := lines[l];
      endpos, stack := FindEndOfExpressionInLine(isWord, line, 0, stack.value);
      if endpos > -1 {
        return line, l, endpos;
      }
    }
    return line, |lines|, -1;
  }

  /** The scan of lines[l][..i], then of the lines above. */
  function OpenFrom(isWord: char -> bool, lines: seq<string>, l: nat, i: nat, stack: string): Place
    requires l < |lines| && i <= |lines[l]|
    decreases l
  {
    match ScanBackward(isWord, lines[l], i, stack)
    case Found(p) => At(l, p)
    case Broken => Nowhere(l)
    case Pending(s) => if s == [] || l == 0 then Nowhere(l) else OpenFrom(isWord, lines, l - 1, |lines[l - 1]|, s)
  }

  /** The opening place of the character at (l, p). */
  function OpenOf(isWord: char -> bool, lines: seq<string>, l: nat, p: nat): Place
    requires l < |lines| && p < |lines[l]|
  {
    if lines[l][p] !in ")}]>" then Nowhere(l) else OpenFrom(isWord, lines, l, p + 1, [])
  }

  method ReverseCloseExpression(isWord: char -> bool, lines: seq<string>, linenum: nat, pos: nat)
    returns (line: string, openline: nat, openpos: int)
    requires linenum < |lines| && pos < |lines[linenum]|
    ensures match OpenOf(isWord, lines, linenum, pos)
            case At(l, p) => l < |lines| && line == lines[l] && openline == l && openpos == p
            case Nowhere(l) => l < |lines| && line == lines[l] && openline == 0 && openpos == -1
  {
    line := lines[linenum];
    if line[pos] !in ")}]>" {
      return line, 0, -1;
    }
    var startpos, stack := FindStartOfExpressionInLine(isWord, line, pos, []);
    if startpos > -1 {
      return line, linenum, startpos;
    }
    var l := linenum;
    while stack.Some? && stack.value != [] && l > 0
      invariant l <= linenum && line == lines[l]
      invariant stack.Some? && stack.value != [] && l > 0 ==>
          OpenFrom(isWord, lines, linenum, pos + 1, []) == OpenFrom(isWord, lines, l - 1, |lines[l - 1]|, stack.value)
      invariant !(stack.Some? && stack.value != [] && l > 0) ==>
          OpenFrom(isWord, lines, linenum, pos + 1, []) == Nowhere(l)
      decreases l
    {
      l := l - 1;
      line := lines[l];
      startpos, stack := FindStartOfExpressionInLine(isWord, line, |line| - 1, stack.value);
      if startpos > -1 {
        return line, l, startpos;
      }
    }
    return line, 0, -1;
  }
}
