/**
 What the delimiter scanners promise. From a real bracket, the heuristics for
 angle brackets are invisible: over one line or many, in either direction, the
 scanners find exactly the bracketed groups of the flattened text, so the two
 directions undo each other and the third matcher agrees with them.
 */
module DelimiterLaws {
  import opened Brackets
  import opened Delimiters

  // ---------------------------------------------------------------------------
  // Erasing the angles

  function Erase(angle: char, stack: string): string {
    if stack == [] then []
    else if stack[|stack| - 1] == angle then Erase(angle, Pop(stack))
    else Erase(angle, Pop(stack)) + [stack[|stack| - 1]]
  }

  /** The outermost pending delimiter is not an angle. */
  predicate Rooted(angle: char, stack: string) {
    stack != [] && stack[0] != angle
  }

  function Erased(angle: char, r: Scan): Scan {
    match r
    case Pending(s) => Pending(Erase(angle, s))
    case _ => r
  }

  lemma {:induction false} EraseKeepsRoot(angle: char, stack: string)
    requires Rooted(angle, stack)
    ensures Erase(angle, stack) != []
  {
    if |stack| > 1 {
      EraseKeepsRoot(angle, Pop(stack));
    }
  }

  lemma {:induction false} EraseDropAngles(angle: char, stack: string)
    requires Rooted(angle, stack)
    ensures var s := DropAngles(angle, stack);
            && Rooted(angle, s)
            && Erase(angle, stack) == Erase(angle, s) == Erase(angle, Pop(s)) + [s[|s| - 1]]
            && (Erase(angle, Pop(s)) == [] <==> |s| == 1)
  {
    if stack[|stack| - 1] == angle {
      EraseDropAngles(angle, Pop(stack));
    } else if |stack| > 1 {
      EraseKeepsRoot(angle, Pop(stack));
    }
  }

  lemma ErasePush(angle: char, stack: string, c: char)
    ensures Erase(angle, stack + [c]) == if c == angle then Erase(angle, stack) else Erase(angle, stack) + [c]
  {
    assert Pop(stack + [c]) == stack;
  }

  lemma EraseOne(angle: char, c: char)
    requires c != angle
    ensures Rooted(angle, [c]) && Erase(angle, [c]) == [c]
  {
    assert Pop([c]) == [];
  }

  /** Taking an angle off the top of a stack that holds a real bracket. */
  lemma ErasePop(angle: char, stack: string)
    requires Rooted(angle, stack)
    ensures TopIs(stack, angle) ==>
              |stack| > 1 && Rooted(angle, Pop(stack)) && Erase(angle, stack) == Erase(angle, Pop(stack))
  {
  }

  /** The innermost real bracket of a stack, seen after erasing the angles. */
  lemma ErasedTop(angle: char, stack: string)
    requires Rooted(angle, stack)
    ensures var s, e := DropAngles(angle, stack), Erase(angle, stack);
            && s != [] && e != [] && s[|s| - 1] == e[|e| - 1] && (|s| == 1 <==> |e| == 1)
            && Erase(angle, Pop(s)) == e[..|e| - 1]
            && (|s| > 1 ==> Rooted(angle, Pop(s)))
  {
    EraseDropAngles(angle, stack);
  }

  lemma EraseForwardStep(role: Role, c: char, i: nat, stack: string)
    requires Rooted('<', stack)
    requires (role == Opening <==> IsOpen(c)) && (role == Closing <==> IsClose(c))
    ensures Erased('<', ForwardStep(role, c, i, stack)) == PlainStep(c, i, Erase('<', stack))
    ensures match ForwardStep(role, c, i, stack) case Pending(s) => Rooted('<', s) case _ => true
  {
    match role
    case Opening | Closing =>
      ErasePush('<', stack, c);
      ErasedTop('<', stack);
    case Semicolon => EraseDropAngles('<', stack);
    case _ =>
      ErasePush('<', stack, '<');
      ErasePop('<', stack);
  }

  /** The forward scan with the angles erased from its stack is the plain scan. */
  lemma {:induction false} EraseForward(isWord: char -> bool, line: string, i: nat, stack: string)
    requires Rooted('<', stack)
    ensures Erased('<', ScanForward(isWord, line, i, stack)) == PlainForward(line, i, Erase('<', stack))
    ensures match ScanForward(isWord, line, i, stack) case Pending(s) => Rooted('<', s) case _ => true
    decreases |line| - i
  {
    if i < |line| {
      var role := ForwardRole(isWord, line, i);
      EraseForwardStep(role, line[i], i, stack);
      match ForwardStep(role, line[i], i, stack)
      case Pending(s) => EraseForward(isWord, line, i + 1, s);
      case _ =>
    }
  }

  /** A heuristic that makes the backward scan skip a second character never
      skips a bracket. */
  lemma SkippedIsOrdinary(isWord: char -> bool, line: string, i: nat)
    requires i < |line| && BackwardRole(isWord, line, i) == Shift
    ensures i > 0 && !IsOpen(line[i - 1]) && !IsClose(line[i - 1])
  {
    if EndsWithOperator(isWord, line[..i]) && !IsSpace(line[i - 1]) {
      assert line[..i][i - 8..][7] == line[i - 1] == 'r';
    }
  }

  lemma EraseBackwardStep(role: Role, c: char, i: nat, stack: string)
    requires Rooted('>', stack)
    requires (role == Opening <==> IsOpen(c)) && (role == Closing <==> IsClose(c))
    ensures Erased('>', BackwardStep(role, c, i, stack)) == PlainBackStep(c, i, Erase('>', stack))
    ensures match BackwardStep(role, c, i, stack) case Pending(s) => Rooted('>', s) case _ => true
  {
    match role
    case Opening | Closing =>
      ErasePush('>', stack, c);
      ErasedTop('>', stack);
    case Semicolon => EraseDropAngles('>', stack);
    case _ =>
      ErasePush('>', stack, '>');
      ErasePop('>', stack);
  }

  /** The backward scan with the angles erased from its stack is the plain scan. */
  lemma {:induction false} EraseBackward(isWord: char -> bool, line: string, i: nat, stack: string)
    requires i <= |line| && Rooted('>', stack)
    ensures Erased('>', ScanBackward(isWord, line, i, stack)) == PlainBackward(line, i, Erase('>', stack))
    ensures match ScanBackward(isWord, line, i, stack) case Pending(s) => Rooted('>', s) case _ => true
  {
    if i > 0 {
      var role := BackwardRole(isWord, line, i - 1);
      EraseBackwardStep(role, line[i - 1], i - 1, stack);
      match BackwardStep(role, line[i - 1], i - 1, stack)
      case Pending(s) =>
        if role == Shift {
          SkippedIsOrdinary(isWord, line, i - 1);
          EraseBackward(isWord, line, i - 2, s);
        } else {
          EraseBackward(isWord, line, i - 1, s);
        }
      case _ =>
    }
  }

  // ---------------------------------------------------------------------------
  // Flattening the lines

  function FlattenTo(lines: seq<string>, n: nat): string
    requires n <= |lines|
  {
    if n == 0 then [] else FlattenTo(lines, n - 1) + lines[n - 1]
  }

  function Flatten(lines: seq<string>): string {
    FlattenTo(lines, |lines|)
  }

  /** The position of the first character of line l in the flattened text. */
  function Offset(lines: seq<string>, l: nat): nat
    requires l <= |lines|
  {
    if l == 0 then 0 else Offset(lines, l - 1) + |lines[l - 1]|
  }

  predicate Window(text: string, off: nat, line: string) {
    && off + |line| <= |text|
    && forall i :: 0 <= i < |line| ==> text[off + i] == line[i]
  }

  lemma {:induction false} FlattenLength(lines: seq<string>, n: nat)
    requires n <= |lines|
    ensures |FlattenTo(lines, n)| == Offset(lines, n)
  {
    if n > 0 {
      FlattenLength(lines, n - 1);
    }
  }

  lemma {:induction false} LineInText(lines: seq<string>, l: nat, n: nat)
    requires l < n <= |lines|
    ensures Window(FlattenTo(lines, n), Offset(lines, l), lines[l])
  {
    FlattenLength(lines, n - 1);
    if l < n - 1 {
      LineInText(lines, l, n - 1);
    }
  }

  lemma {:induction false} OffsetsIncrease(lines: seq<string>, l: nat, n: nat)
    requires l < n <= |lines|
    ensures Offset(lines, l) + |lines[l]| <= Offset(lines, n)
  {
    if l + 1 < n {
      OffsetsIncrease(lines, l, n - 1);
    }
  }

  lemma PlacesAreDistinct(lines: seq<string>, l: nat, p: nat, n: nat, q: nat)
    requires l < |lines| && p < |lines[l]| && n < |lines| && q < |lines[n]|
    requires Offset(lines, l) + p == Offset(lines, n) + q
    ensures l == n && p == q
  {
    if l < n {
      OffsetsIncrease(lines, l, n);
    } else if n < l {
      OffsetsIncrease(lines, n, l);
    }
  }

  function Shifted(off: nat, r: Scan): Scan {
    match r
    case Found(e) => Found(off + e)
    case _ => r
  }

  lemma {:induction false} PlainForwardWindow(text: string, off: nat, line: string, i: nat, stack: string)
    requires Window(text, off, line) && i <= |line|
    ensures PlainForward(text, off + i, stack)
         == match PlainForward(line, i, stack)
            case Pending(s) => PlainForward(text, off + |line|, s)
            case r => Shifted(off, r)
    decreases |line| - i
  {
    if i < |line| {
      assert text[off + i] == line[i];
      match PlainStep(line[i], i, stack)
      case Pending(s) => PlainForwardWindow(text, off, line, i + 1, s);
      case _ =>
    }
  }

  lemma {:induction false} PlainBackwardWindow(text: string, off: nat, line: string, i: nat, stack: string)
    requires Window(text, off, line) && i <= |line|
    ensures PlainBackward(text, off + i, stack)
         == match PlainBackward(line, i, stack)
            case Pending(s) => PlainBackward(text, off, s)
            case r => Shifted(off, r)
  {
    if i > 0 {
      assert text[off + (i - 1)] == line[i - 1];
      match PlainBackStep(line[i - 1], i - 1, stack)
      case Pending(s) => PlainBackwardWindow(text, off, line, i - 1, s);
      case _ =>
    }
  }

  // ---------------------------------------------------------------------------
  // The multi-line scans refine the plain matchers on the flattened text

  /** One line of a forward scan, seen as a stretch of the flattened text. */
  lemma LineForward(isWord: char -> bool, text: string, off: nat, line: string, i: nat, stack: string)
    requires Window(text, off, line) && i <= |line| && Rooted('<', stack)
    ensures var r := ScanForward(isWord, line, i, stack);
            PlainForward(text, off + i, Erase('<', stack)) ==
            if r.Pending? then PlainForward(text, off + |line|, Erase('<', r.stack)) else Shifted(off, r)
    ensures var r := ScanForward(isWord, line, i, stack);
            (r.Pending? ==> Rooted('<', r.stack)) && (r.Found? ==> i < r.pos <= |line|)
  {
    EraseForward(isWord, line, i, stack);
    PlainForwardWindow(text, off, line, i, Erase('<', stack));
    ScanStaysInLine(isWord, line, i, stack);
  }

  /** One line of a backward scan, seen as a stretch of the flattened text. */
  lemma LineBackward(isWord: char -> bool, text: string, off: nat, line: string, i: nat, stack: string)
    requires Window(text, off, line) && i <= |line| && Rooted('>', stack)
    ensures var r := ScanBackward(isWord, line, i, stack);
            PlainBackward(text, off + i, Erase('>', stack)) ==
            if r.Pending? then PlainBackward(text, off, Erase('>', r.stack)) else Shifted(off, r)
    ensures var r := ScanBackward(isWord, line, i, stack);
            (r.Pending? ==> Rooted('>', r.stack)) && (r.Found? ==> r.pos < i)
  {
    EraseBackward(isWord, line, i, stack);
    PlainBackwardWindow(text, off, line, i, Erase('>', stack));
    BackScanStaysInLine(isWord, line, i, stack);
  }

  lemma {:induction false} CloseFromIsFlat(isWord: char -> bool, lines: seq<string>, l: nat, i: nat, stack: string)
    requires l < |lines| && i <= |lines[l]| && Rooted('<', stack)
    ensures var r := PlainForward(Flatten(lines), Offset(lines, l) + i, Erase('<', stack));
            match CloseFrom(isWord, lines, l, i, stack)
            case At(n, e) => l <= n < |lines| && e <= |lines[n]| && r == Found(Offset(lines, n) + e)
            case Nowhere(_) => !r.Found?
    decreases |lines| - l
  {
    var text, off := Flatten(lines), Offset(lines, l);
    LineInText(lines, l, |lines|);
    LineForward(isWord, text, off, lines[l], i, stack);
    match ScanForward(isWord, lines[l], i, stack)
    case Pending(s) =>
      if l + 1 < |lines| {
        CloseFromIsFlat(isWord, lines, l + 1, 0, s);
      } else {
        FlattenLength(lines, |lines|);
        assert off + |lines[l]| == |text|;
      }
    case _ =>
  }

  lemma {:induction false} ScanStaysInLine(isWord: char -> bool, line: string, i: nat, stack: string)
    ensures match ScanForward(isWord, line, i, stack) case Found(e) => i < e <= |line| case _ => true
    decreases |line| - i
  {
    if i < |line| {
      match ForwardStep(ForwardRole(isWord, line, i), line[i], i, stack)
      case Pending(s) => ScanStaysInLine(isWord, line, i + 1, s);
      case _ =>
    }
  }

  lemma {:induction false} OpenFromIsFlat(isWord: char -> bool, lines: seq<string>, l: nat, i: nat, stack: string)
    requires l < |lines| && i <= |lines[l]| && Rooted('>', stack)
    requires Offset(lines, l) + i <= |Flatten(lines)|
    ensures var r := PlainBackward(Flatten(lines), Offset(lines, l) + i, Erase('>', stack));
            match OpenFrom(isWord, lines, l, i, stack)
            case At(n, p) => n <= l && p < |lines[n]| && r == Found(Offset(lines, n) + p)
            case Nowhere(_) => !r.Found?
    decreases l
  {
    LineInText(lines, l, |lines|);
    LineBackward(isWord, Flatten(lines), Offset(lines, l), lines[l], i, stack);
    match ScanBackward(isWord, lines[l], i, stack)
    case Pending(s) =>
      if l > 0 {
        OpenFromIsFlat(isWord, lines, l - 1, |lines[l - 1]|, s);
      }
    case _ =>
  }

  lemma {:induction false} BackScanStaysInLine(isWord: char -> bool, line: string, i: nat, stack: string)
    requires i <= |line|
    ensures match ScanBackward(isWord, line, i, stack) case Found(p) => p < i case _ => true
  {
    if i > 0 {
      var role := BackwardRole(isWord, line, i - 1);
      match BackwardStep(role, line[i - 1], i - 1, stack)
      case Pending(s) => BackScanStaysInLine(isWord, line, if role == Shift then i - 2 else i - 1, s);
      case _ =>
    }
  }

  // ---------------------------------------------------------------------------
  // Main results

  /** The position of a place in the flattened text. */
  function PlaceOffset(lines: seq<string>, place: Place): nat
    requires place.At? && place.linenum < |lines|
  {
    Offset(lines, place.linenum) + place.pos
  }

  /** Some group of the text starts at p. */
  ghost predicate OpensGroup(text: string, p: nat) {
    exists e: nat :: Group(text, p, e)
  }

  /** Some group of the text ends at e. */
  ghost predicate ClosesGroup(text: string, e: nat) {
    exists p: nat :: Group(text, p, e)
  }

  lemma PlaceInText(lines: seq<string>, l: nat, p: nat)
    requires l < |lines| && p < |lines[l]|
    ensures Offset(lines, l) + p < |Flatten(lines)| && Flatten(lines)[Offset(lines, l) + p] == lines[l][p]
  {
    LineInText(lines, l, |lines|);
  }

  lemma PlainPushesOpen(text: string, i: nat)
    requires i < |text| && IsOpen(text[i])
    ensures PlainForward(text, i, []) == PlainForward(text, i + 1, [text[i]])
  {
    assert [] + [text[i]] == [text[i]];
  }

  lemma PlainPushesClose(text: string, i: nat)
    requires i < |text| && IsClose(text[i])
    ensures PlainBackward(text, i + 1, []) == PlainBackward(text, i, [text[i]])
  {
    assert [] + [text[i]] == [text[i]];
  }

  lemma ScanPushesOpen(isWord: char -> bool, lines: seq<string>, l: nat, p: nat)
    requires l < |lines| && p < |lines[l]| && IsOpen(lines[l][p])
    ensures CloseOf(isWord, lines, l, p) == CloseFrom(isWord, lines, l, p + 1, [lines[l][p]])
  {
    assert [] + [lines[l][p]] == [lines[l][p]];
    assert ScanForward(isWord, lines[l], p, []) == ScanForward(isWord, lines[l], p + 1, [lines[l][p]]);
  }

  lemma ScanPushesClose(isWord: char -> bool, lines: seq<string>, n: nat, q: nat)
    requires n < |lines| && q < |lines[n]| && IsClose(lines[n][q])
    ensures OpenOf(isWord, lines, n, q) == OpenFrom(isWord, lines, n, q, [lines[n][q]])
  {
    assert [] + [lines[n][q]] == [lines[n][q]];
    assert ScanBackward(isWord, lines[n], q + 1, []) == ScanBackward(isWord, lines[n], q, [lines[n][q]]);
  }

  lemma CloseOfIsFlat(isWord: char -> bool, lines: seq<string>, l: nat, p: nat)
    requires l < |lines| && p < |lines[l]| && IsOpen(lines[l][p])
    ensures var r := PlainForward(Flatten(lines), Offset(lines, l) + p, []);
            match CloseOf(isWord, lines, l, p)
            case At(n, e) => l <= n < |lines| && e <= |lines[n]| && r == Found(Offset(lines, n) + e)
            case Nowhere(_) => !r.Found?
  {
    ScanPushesOpen(isWord, lines, l, p);
    AfterOpenIsFlat(isWord, lines, l, p);
  }

  lemma AfterOpenIsFlat(isWord: char -> bool, lines: seq<string>, l: nat, p: nat)
    requires l < |lines| && p < |lines[l]| && IsOpen(lines[l][p])
    ensures var r := PlainForward(Flatten(lines), Offset(lines, l) + p, []);
            match CloseFrom(isWord, lines, l, p + 1, [lines[l][p]])
            case At(n, e) => l <= n < |lines| && e <= |lines[n]| && r == Found(Offset(lines, n) + e)
            case Nowhere(_) => !r.Found?
  {
    PlaceInText(lines, l, p);
    PlainPushesOpen(Flatten(lines), Offset(lines, l) + p);
    EraseOne('<', lines[l][p]);
    CloseFromIsFlat(isWord, lines, l, p + 1, [lines[l][p]]);
  }

  lemma OpenOfIsFlat(isWord: char -> bool, lines: seq<string>, n: nat, q: nat)
    requires n < |lines| && q < |lines[n]| && IsClose(lines[n][q])
    requires Offset(lines, n) + q < |Flatten(lines)|
    ensures var r := PlainBackward(Flatten(lines), Offset(lines, n) + q + 1, []);
            match OpenOf(isWord, lines, n, q)
            case At(l, p) => l <= n && p < |lines[l]| && r == Found(Offset(lines, l) + p)
            case Nowhere(_) => !r.Found?
  {
    PlaceInText(lines, n, q);
    PlainPushesClose(Flatten(lines), Offset(lines, n) + q);
    ScanPushesClose(isWord, lines, n, q);
    EraseOne('>', lines[n][q]);
    OpenFromIsFlat(isWord, lines, n, q, [lines[n][q]]);
  }

  /** CloseExpression succeeds exactly when the bracket opens a group of the
      flattened text, and then returns the place past that group. */
  lemma CloseFindsGroup(isWord: char -> bool, lines: seq<string>, l: nat, p: nat)
    requires l < |lines| && p < |lines[l]| && IsOpen(lines[l][p])
    ensures CloseOf(isWord, lines, l, p).At? ==>
              && l <= CloseOf(isWord, lines, l, p).linenum < |lines|
              && 0 < CloseOf(isWord, lines, l, p).pos <= |lines[CloseOf(isWord, lines, l, p).linenum]|
              && Group(Flatten(lines), Offset(lines, l) + p, PlaceOffset(lines, CloseOf(isWord, lines, l, p)))
    ensures CloseOf(isWord, lines, l, p).Nowhere? ==> !OpensGroup(Flatten(lines), Offset(lines, l) + p)
  {
    CloseOfIsFlat(isWord, lines, l, p);
    PlaceInText(lines, l, p);
    var text, start := Flatten(lines), Offset(lines, l) + p;
    match CloseOf(isWord, lines, l, p)
    case At(n, e) =>
      CloseIsPastCharacter(isWord, lines, l, p, []);
      ForwardFindsGroup(text, start, Offset(lines, n) + e);
    case Nowhere(_) =>
      forall e: nat ensures !Group(text, start, e) {
        ForwardFindsGroup(text, start, e);
      }
  }

  lemma {:induction false} CloseIsPastCharacter(isWord: char -> bool, lines: seq<string>, l: nat, i: nat, stack: string)
    requires l < |lines|
    ensures match CloseFrom(isWord, lines, l, i, stack)
            case At(n, e) => l <= n < |lines| && 0 < e <= |lines[n]|
            case Nowhere(n) => n < |lines|
    decreases |lines| - l
  {
    ScanStaysInLine(isWord, lines[l], i, stack);
    match ScanForward(isWord, lines[l], i, stack)
    case Pending(s) =>
      if s != [] && l + 1 < |lines| {
        CloseIsPastCharacter(isWord, lines, l + 1, 0, s);
      }
    case _ =>
  }

  /** ReverseCloseExpression succeeds exactly when the bracket closes a group of
      the flattened text, and then returns the place of its opening bracket. */
  lemma OpenFindsGroup(isWord: char -> bool, lines: seq<string>, n: nat, q: nat)
    requires n < |lines| && q < |lines[n]| && IsClose(lines[n][q])
    ensures OpenOf(isWord, lines, n, q).At? ==>
              && OpenOf(isWord, lines, n, q).linenum <= n
              && OpenOf(isWord, lines, n, q).pos < |lines[OpenOf(isWord, lines, n, q).linenum]|
              && Group(Flatten(lines), PlaceOffset(lines, OpenOf(isWord, lines, n, q)), Offset(lines, n) + q + 1)
    ensures OpenOf(isWord, lines, n, q).Nowhere? ==> !ClosesGroup(Flatten(lines), Offset(lines, n) + q + 1)
  {
    PlaceInText(lines, n, q);
    OpenOfIsFlat(isWord, lines, n, q);
    var text, end := Flatten(lines), Offset(lines, n) + q + 1;
    match OpenOf(isWord, lines, n, q)
    case At(l, p) => BackwardFindsGroup(text, Offset(lines, l) + p, end);
    case Nowhere(_) =>
      forall p: nat ensures !Group(text, p, end) {
        BackwardFindsGroup(text, p, end);
      }
  }

  lemma OpenUndoesClose(isWord: char -> bool, lines: seq<string>, l: nat, p: nat, n: nat, q: nat)
    requires l < |lines| && p < |lines[l]| && IsOpen(lines[l][p])
    requires n < |lines| && q < |lines[n]| && IsClose(lines[n][q])
    requires Group(Flatten(lines), Offset(lines, l) + p, Offset(lines, n) + q + 1)
    ensures OpenOf(isWord, lines, n, q) == At(l, p)
  {
    PlaceInText(lines, n, q);
    OpenFindsGroup(isWord, lines, n, q);
    BackwardFindsGroup(Flatten(lines), Offset(lines, l) + p, Offset(lines, n) + q + 1);
    match OpenOf(isWord, lines, n, q)
    case At(l', p') =>
      BackwardFindsGroup(Flatten(lines), Offset(lines, l') + p', Offset(lines, n) + q + 1);
      PlacesAreDistinct(lines, l, p, l', p');
    case Nowhere(_) =>
  }

  lemma CloseUndoesOpen(isWord: char -> bool, lines: seq<string>, l: nat, p: nat, n: nat, q: nat)
    requires l < |lines| && p < |lines[l]| && IsOpen(lines[l][p])
    requires n < |lines| && q < |lines[n]| && IsClose(lines[n][q])
    requires Group(Flatten(lines), Offset(lines, l) + p, Offset(lines, n) + q + 1)
    ensures CloseOf(isWord, lines, l, p) == At(n, q + 1)
  {
    PlaceInText(lines, l, p);
    CloseFindsGroup(isWord, lines, l, p);
    ForwardFindsGroup(Flatten(lines), Offset(lines, l) + p, Offset(lines, n) + q + 1);
    match CloseOf(isWord, lines, l, p)
    case At(n', e') =>
      ForwardFindsGroup(Flatten(lines), Offset(lines, l) + p, Offset(lines, n') + e');
      PlacesAreDistinct(lines, n, q, n', e' - 1);
    case Nowhere(_) =>
  }

  /** Each direction undoes the other, between any real brackets of any file. */
  lemma ScannersUndoEachOther(isWord: char -> bool, lines: seq<string>, l: nat, p: nat, n: nat, q: nat)
    requires l < |lines| && p < |lines[l]| && IsOpen(lines[l][p])
    requires n < |lines| && q < |lines[n]| && IsClose(lines[n][q])
    ensures CloseOf(isWord, lines, l, p) == At(n, q + 1) <==> OpenOf(isWord, lines, n, q) == At(l, p)
  {
    if CloseOf(isWord, lines, l, p) == At(n, q + 1) {
      CloseFindsGroup(isWord, lines, l, p);
      OpenUndoesClose(isWord, lines, l, p, n, q);
    }
    if OpenOf(isWord, lines, n, q) == At(l, p) {
      OpenFindsGroup(isWord, lines, n, q);
      CloseUndoesOpen(isWord, lines, l, p, n, q);
    }
  }

  /** Whatever CloseExpression finds from a real bracket is a real bracket, and
      ReverseCloseExpression leads back from it to the start. */
  lemma RoundTrip(isWord: char -> bool, lines: seq<string>, l: nat, p: nat)
    requires l < |lines| && p < |lines[l]| && IsOpen(lines[l][p])
    ensures match CloseOf(isWord, lines, l, p)
            case At(n, e) => n < |lines| && 0 < e <= |lines[n]| && Pairs(lines[l][p], lines[n][e - 1])
                             && OpenOf(isWord, lines, n, e - 1) == At(l, p)
            case Nowhere(_) => true
  {
    CloseFindsGroup(isWord, lines, l, p);
    match CloseOf(isWord, lines, l, p)
    case At(n, e) =>
      PlaceInText(lines, l, p);
      PlaceInText(lines, n, e - 1);
      ScannersUndoEachOther(isWord, lines, l, p, n, e - 1);
    case Nowhere(_) =>
  }
}
