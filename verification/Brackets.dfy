/**
 The reference the delimiter scanners of cpplint are measured against: what a
 bracketed group of text is, and two plain matchers, one per direction, which
 know the brackets ( ) [ ] { } and nothing else.
 */
module Brackets {

  predicate IsOpen(c: char) {
    c == '(' || c == '[' || c == '{'
  }

  predicate IsClose(c: char) {
    c == ')' || c == ']' || c == '}'
  }

  predicate Pairs(open: char, close: char) {
    (open == '(' && close == ')') || (open == '[' && close == ']') || (open == '{' && close == '}')
  }

  // ---------------------------------------------------------------------------
  // The grammar of balanced text

  /** Shapes of balanced text: nothing, an ordinary character followed by more,
      or a bracketed part followed by more. */
  datatype Tree =
    | Empty
    | Plain(rest: Tree)
    | Nest(inside: Tree, rest: Tree)
  {
    /** The position past the text of this shape when it starts at i. */
    ghost function End(i: nat): (j: nat)
      ensures i <= j
    {
      match this
      case Empty => i
      case Plain(rest) => rest.End(i + 1)
      case Nest(inside, rest) => rest.End(inside.End(i + 1) + 1)
    }

    /** text[i..End(i)] is balanced, with this shape. */
    ghost predicate Derives(text: string, i: nat) {
      && End(i) <= |text|
      && match this
         case Empty => true
         case Plain(rest) =>
           && !IsOpen(text[i]) && !IsClose(text[i])
           && rest.Derives(text, i + 1)
         case Nest(inside, rest) =>
           && inside.Derives(text, i + 1)
           && Pairs(text[i], text[inside.End(i + 1)])
           && rest.Derives(text, inside.End(i + 1) + 1)
    }
  }

  /** text[i..j] is balanced. */
  ghost predicate Balanced(text: string, i: nat, j: nat) {
    exists t: Tree :: t.Derives(text, i) && t.End(i) == j
  }

  /** text[p..e] is an opening bracket, balanced text, and its closing bracket. */
  ghost predicate Group(text: string, p: nat, e: nat) {
    && p + 1 < e <= |text|
    && Pairs(text[p], text[e - 1])
    && Balanced(text, p + 1, e - 1)
  }

  // ---------------------------------------------------------------------------
  // The two plain matchers

  /** How a scan ends: at a position, at a mismatch, or at the end of the text
      with brackets still pending. */
  datatype Scan = Found(pos: nat) | Broken | Pending(stack: string)

  function PlainStep(c: char, i: nat, stack: string): Scan {
    if IsOpen(c) then Pending(stack + [c])
    else if IsClose(c) then
      if stack == [] || !Pairs(stack[|stack| - 1], c) then Broken
      else if |stack| == 1 then Found(i + 1)
      else Pending(stack[..|stack| - 1])
    else Pending(stack)
  }

  /** Scans to the right from position i; Found is the position past the close. */
  function PlainForward(text: string, i: nat, stack: string): Scan
    decreases |text| - i
  {
    if i >= |text| then Pending(stack)
    else
      match PlainStep(text[i], i, stack)
      case Pending(s) => PlainForward(text, i + 1, s)
      case r => r
  }

  function PlainBackStep(c: char, i: nat, stack: string): Scan {
    if IsClose(c) then Pending(stack + [c])
    else if IsOpen(c) then
      if stack == [] || !Pairs(c, stack[|stack| - 1]) then Broken
      else if |stack| == 1 then Found(i)
      else Pending(stack[..|stack| - 1])
    else Pending(stack)
  }

  /** Scans to the left from position i - 1; Found is the position of the open. */
  function PlainBackward(text: string, i: nat, stack: string): Scan
    requires i <= |text|
  {
    if i == 0 then Pending(stack)
    else
      match PlainBackStep(text[i - 1], i - 1, stack)
      case Pending(s) => PlainBackward(text, i - 1, s)
      case r => r
  }

  // ---------------------------------------------------------------------------
  // The matchers find exactly the groups

  /** Scanning over balanced text changes nothing. */
  lemma Popped(stack: string, c: char)
    ensures (stack + [c])[..|stack|] == stack && (stack + [c])[|stack|] == c && |stack + [c]| == |stack| + 1
  {
  }

  lemma {:induction false} ForwardOverBalanced(text: string, i: nat, t: Tree, stack: string)
    requires t.Derives(text, i) && stack != []
    ensures PlainForward(text, i, stack) == PlainForward(text, t.End(i), stack)
    decreases t
  {
    match t
    case Empty =>
    case Plain(rest) => ForwardOverBalanced(text, i + 1, rest, stack);
    case Nest(inside, rest) =>
      var m := inside.End(i + 1);
      Popped(stack, text[i]);
      ForwardOverBalanced(text, i + 1, inside, stack + [text[i]]);
      ForwardOverBalanced(text, m + 1, rest, stack);
  }

  lemma {:induction false} BackwardOverBalanced(text: string, i: nat, t: Tree, stack: string)
    requires t.Derives(text, i) && stack != []
    ensures PlainBackward(text, t.End(i), stack) == PlainBackward(text, i, stack)
    decreases t
  {
    match t
    case Empty =>
    case Plain(rest) => BackwardOverBalanced(text, i + 1, rest, stack);
    case Nest(inside, rest) =>
      var m := inside.End(i + 1);
      BackwardOverBalanced(text, m + 1, rest, stack);
      Popped(stack, text[m]);
      BackwardOverBalanced(text, i + 1, inside, stack + [text[m]]);
  }

  /** A successful scan first crosses balanced text up to the bracket that closes
      the top of its stack. */
  lemma {:induction false} ForwardParses(text: string, i: nat, stack: string) returns (t: Tree)
    requires stack != [] && PlainForward(text, i, stack).Found?
    ensures t.Derives(text, i) && t.End(i) < |text|
    ensures Pairs(stack[|stack| - 1], text[t.End(i)])
    ensures PlainForward(text, i, stack)
         == if |stack| == 1 then Found(t.End(i) + 1)
            else PlainForward(text, t.End(i) + 1, stack[..|stack| - 1])
    decreases |text| - i
  {
    var c := text[i];
    if IsOpen(c) {
      Popped(stack, c);
      var inside := ForwardParses(text, i + 1, stack + [c]);
      var rest := ForwardParses(text, inside.End(i + 1) + 1, stack);
      t := Nest(inside, rest);
    } else if IsClose(c) {
      t := Empty;
    } else {
      var rest := ForwardParses(text, i + 1, stack);
      t := Plain(rest);
    }
  }

  ghost function Append(t: Tree, u: Tree): Tree {
    match t
    case Empty => u
    case Plain(rest) => Plain(Append(rest, u))
    case Nest(inside, rest) => Nest(inside, Append(rest, u))
  }

  lemma {:induction false} AppendDerives(text: string, i: nat, t: Tree, u: Tree)
    requires t.Derives(text, i) && u.Derives(text, t.End(i))
    ensures Append(t, u).End(i) == u.End(t.End(i))
    ensures Append(t, u).Derives(text, i)
    decreases t
  {
    match t
    case Empty =>
    case Plain(rest) => AppendDerives(text, i + 1, rest, u);
    case Nest(inside, rest) => AppendDerives(text, inside.End(i + 1) + 1, rest, u);
  }

  lemma OnePlain(text: string, i: nat)
    requires i < |text| && !IsOpen(text[i]) && !IsClose(text[i])
    ensures Plain(Empty).Derives(text, i) && Plain(Empty).End(i) == i + 1
  {
    assert Empty.Derives(text, i + 1) && Empty.End(i + 1) == i + 1;
  }

  lemma OneNest(text: string, i: nat, inside: Tree)
    requires i < |text| && inside.Derives(text, i + 1) && inside.End(i + 1) < |text|
    requires Pairs(text[i], text[inside.End(i + 1)])
    ensures Nest(inside, Empty).Derives(text, i) && Nest(inside, Empty).End(i) == inside.End(i + 1) + 1
  {
    var m := inside.End(i + 1);
    assert Empty.Derives(text, m + 1) && Empty.End(m + 1) == m + 1;
  }

  lemma {:induction false} BackwardParses(text: string, i: nat, stack: string) returns (a: nat, t: Tree)
    requires i <= |text| && stack != [] && PlainBackward(text, i, stack).Found?
    ensures 0 < a <= i && t.Derives(text, a) && t.End(a) == i
    ensures Pairs(text[a - 1], stack[|stack| - 1])
    ensures PlainBackward(text, i, stack)
         == if |stack| == 1 then Found(a - 1) else PlainBackward(text, a - 1, stack[..|stack| - 1])
  {
    var c := text[i - 1];
    if IsClose(c) {
      Popped(stack, c);
      var m, inside := BackwardParses(text, i - 1, stack + [c]);
      var before;
      a, before := BackwardParses(text, m - 1, stack);
      OneNest(text, m - 1, inside);
      AppendDerives(text, a, before, Nest(inside, Empty));
      t := Append(before, Nest(inside, Empty));
    } else if IsOpen(c) {
      a, t := i, Empty;
    } else {
      var before;
      a, before := BackwardParses(text, i - 1, stack);
      OnePlain(text, i - 1);
      AppendDerives(text, a, before, Plain(Empty));
      t := Append(before, Plain(Empty));
    }
  }

  lemma ForwardCrossesGroup(text: string, p: nat, e: nat)
    requires p < |text| && IsOpen(text[p]) && Group(text, p, e)
    ensures PlainForward(text, p, []) == Found(e)
  {
    assert [] + [text[p]] == [text[p]];
    var t: Tree :| t.Derives(text, p + 1) && t.End(p + 1) == e - 1;
    ForwardOverBalanced(text, p + 1, t, [text[p]]);
  }

  lemma BackwardCrossesGroup(text: string, p: nat, e: nat)
    requires 0 < e <= |text| && IsClose(text[e - 1]) && Group(text, p, e)
    ensures PlainBackward(text, e, []) == Found(p)
  {
    assert [] + [text[e - 1]] == [text[e - 1]];
    var t: Tree :| t.Derives(text, p + 1) && t.End(p + 1) == e - 1;
    BackwardOverBalanced(text, p + 1, t, [text[e - 1]]);
  }

  /** The forward matcher stops at e exactly when text[p..e] is a group; so the
      end of a group is unique, and a bracket opens no shorter or longer one. */
  lemma ForwardFindsGroup(text: string, p: nat, e: nat)
    requires p < |text| && IsOpen(text[p])
    ensures PlainForward(text, p, []) == Found(e) <==> Group(text, p, e)
  {
    assert [] + [text[p]] == [text[p]];
    if PlainForward(text, p, []) == Found(e) {
      var t := ForwardParses(text, p + 1, [text[p]]);
    }
    if Group(text, p, e) {
      ForwardCrossesGroup(text, p, e);
    }
  }

  /** The backward matcher stops at p exactly when text[p..e] is a group. */
  lemma BackwardFindsGroup(text: string, p: nat, e: nat)
    requires 0 < e <= |text| && IsClose(text[e - 1])
    ensures PlainBackward(text, e, []) == Found(p) <==> Group(text, p, e)
  {
    assert [] + [text[e - 1]] == [text[e - 1]];
    if PlainBackward(text, e, []) == Found(p) {
      var a, t := BackwardParses(text, e - 1, [text[e - 1]]);
    }
    if Group(text, p, e) {
      BackwardCrossesGroup(text, p, e);
    }
  }
}
