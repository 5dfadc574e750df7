/**
 _GetTextInside, the second matcher of cpplint: it works on one text, keeps a
 stack of the closing brackets it expects, and knows nothing of angle brackets.
 */
module TextInside {
  import opened Wrappers
  import opened Brackets
  import opened Delimiters
  import opened DelimiterLaws

  function CloserOf(open: char): char {
    if open == '(' then ')' else if open == '{' then '}' else ']'
  }

  function Closers(opens: string): string {
    seq(|opens|, k requires 0 <= k < |opens| => CloserOf(opens[k]))
  }

  /** The text strictly inside the group that the bracket before start opens.
      searchEnd is the end of the match of the start pattern, if there is one. */
  method GetTextInside(text: string, searchEnd: Option<nat>) returns (inside: Option<string>)
    requires searchEnd.Some? ==> 0 < searchEnd.value <= |text| && IsOpen(text[searchEnd.value - 1])
    ensures searchEnd == None ==> inside == None
    ensures searchEnd.Some? ==>
              match PlainForward(text, searchEnd.value - 1, [])
              case Found(e) => searchEnd.value < e <= |text| && inside == Some(text[searchEnd.value..e - 1])
              case _ => inside == None
  {
    if searchEnd == None {
      return None;
    }
    var start := searchEnd.value;
    var stack := [CloserOf(text[start - 1])];
    ghost var opens := [text[start - 1]];
    assert [] + opens == opens;
    var position := start;
    while stack != [] && position < |text|
      invariant start <= position <= |text|
      invariant stack == Closers(opens) && forall c <- opens :: IsOpen(c)
      invariant stack != [] ==> PlainForward(text, start - 1, []) == PlainForward(text, position, opens)
      invariant stack == [] ==> start < position && PlainForward(text, start - 1, []) == Found(position)
      decreases |text| - position
    {
      var c := text[position];
      assert opens[|opens| - 1] in opens && Pairs(opens[|opens| - 1], c) <==> c == stack[|stack| - 1];
      assert PlainForward(text, start - 1, []) == PlainForward(text, position, opens);
      if c == stack[|stack| - 1] {
        stack, opens := stack[..|stack| - 1], opens[..|opens| - 1];
      } else if IsClose(c) {
        return None;
      } else if IsOpen(c) {
        stack, opens := stack + [CloserOf(c)], opens + [c];
      }
      position := position + 1;
    }
    if stack != [] {
      return None;
    }
    return Some(text[start..position - 1]);
  }

  /** The two matchers agree: from an opening bracket of one text, the scan with
      heuristics finds a place exactly when the plain matcher does, and the same. */
  lemma MatchersAgree(isWord: char -> bool, text: string, p: nat)
    requires p < |text| && IsOpen(text[p])
    ensures forall e: nat :: ScanForward(isWord, text, p, []) == Found(e) <==> PlainForward(text, p, []) == Found(e)
    ensures forall e: nat :: ScanForward(isWord, text, p, []) == Found(e) <==> Group(text, p, e)
  {
    var c := text[p];
    assert [] + [c] == [c] && Erase('<', [c]) == [c];
    EraseForward(isWord, text, p + 1, [c]);
    forall e: nat ensures PlainForward(text, p, []) == Found(e) <==> Group(text, p, e) {
      ForwardFindsGroup(text, p, e);
    }
  }

  /** The text inside and the span of FindEndOfExpressionInLine are the same. */
  method BothMatchers(isWord: char -> bool, text: string, p: nat) returns (inside: Option<string>, endpos: int)
    requires p < |text| && IsOpen(text[p])
    ensures endpos == -1 <==> inside == None
    ensures inside.Some? ==> p + 1 < endpos <= |text| && inside == Some(text[p + 1..endpos - 1])
  {
    MatchersAgree(isWord, text, p);
    inside := GetTextInside(text, Some(p + 1));
    var pending;
    endpos, pending := FindEndOfExpressionInLine(isWord, text, p, []);
  }
}
