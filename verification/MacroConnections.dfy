/**
 The macro connections of a dynamic model, kept in a std::set ordered by
 MacroConnection::operator<, which compares concatenations.
 */
module MacroConnections {
  import opened Reachability

  datatype ElementType = NODE | LINE | TFO | SHUNT

  datatype MacroConnection = MacroConnection(id: Id, elementType: ElementType, connectedElementId: Id)

  function Digit(t: ElementType): char {
    match t
    case NODE => '0'
    case LINE => '1'
    case TFO => '2'
    case SHUNT => '3'
  }

  /** The string the comparison looks at. */
  function Key(c: MacroConnection): string {
    c.id + [Digit(c.elementType)] + c.connectedElementId
  }

  /** operator< of strings. */
  predicate StringLess(s: string, t: string) {
    if t == [] then false
    else if s == [] then true
    else if s[0] == t[0] then StringLess(s[1..], t[1..])
    else s[0] < t[0]
  }

  predicate Less(a: MacroConnection, b: MacroConnection) {
    StringLess(Key(a), Key(b))
  }

  predicate LessOrEqual(a: MacroConnection, b: MacroConnection) {
    Less(a, b) || a == b
  }

  predicate Greater(a: MacroConnection, b: MacroConnection) {
    !LessOrEqual(a, b)
  }

  predicate GreaterOrEqual(a: MacroConnection, b: MacroConnection) {
    Greater(a, b) || a == b
  }

  // ---------------------------------------------------------------------------
  // The order

  /** The strings are the same up to k, where the first ends or has the smaller
      character. */
  predicate DiffersAt(s: string, t: string, k: nat) {
    k <= |s| && k < |t| && s[..k] == t[..k] && (k < |s| ==> s[k] < t[k])
  }

  /** This is the lexicographic order. */
  lemma {:induction false} LessIsLexicographic(s: string, t: string)
    ensures StringLess(s, t) <==> exists k: nat :: DiffersAt(s, t, k)
    decreases |s|
  {
    if t != [] && (s == [] || s[0] < t[0]) {
      assert DiffersAt(s, t, 0);
    } else if s != [] && t != [] && s[0] == t[0] {
      LessIsLexicographic(s[1..], t[1..]);
      if k: nat :| DiffersAt(s[1..], t[1..], k) {
        OneLater(s, t, k);
      }
      if k: nat :| DiffersAt(s, t, k) {
        OneEarlier(s, t, k);
      }
    } else {
      forall k: nat ensures !DiffersAt(s, t, k) {
        assert k > 0 && k <= |s| && k < |t| ==> s[..k][0] == s[0] && t[..k][0] == t[0];
      }
    }
  }

  lemma OneLater(s: string, t: string, k: nat)
    requires s != [] && t != [] && s[0] == t[0] && DiffersAt(s[1..], t[1..], k)
    ensures DiffersAt(s, t, k + 1)
  {
    assert s[..k + 1] == [s[0]] + s[1..][..k] && t[..k + 1] == [t[0]] + t[1..][..k];
  }

  lemma OneEarlier(s: string, t: string, k: nat)
    requires s != [] && t != [] && s[0] == t[0] && DiffersAt(s, t, k)
    ensures k > 0 && DiffersAt(s[1..], t[1..], k - 1)
  {
    assert s[1..][..k - 1] == s[..k][1..] && t[1..][..k - 1] == t[..k][1..];
  }

  lemma {:induction false} StringOrder(s: string, t: string)
    ensures !(StringLess(s, t) && StringLess(t, s))
    ensures s == t <==> !StringLess(s, t) && !StringLess(t, s)
    decreases |s|
  {
    if s != [] && t != [] && s[0] == t[0] {
      StringOrder(s[1..], t[1..]);
      assert s == [s[0]] + s[1..] && t == [t[0]] + t[1..];
    }
  }

  lemma {:induction false} StringTransitive(s: string, t: string, u: string)
    requires StringLess(s, t) && StringLess(t, u)
    ensures StringLess(s, u)
    decreases |s|
  {
    if s != [] && s[0] == t[0] == u[0] {
      StringTransitive(s[1..], t[1..], u[1..]);
    }
  }

  /** operator< is a strict weak order whose ties are equal keys. */
  lemma StrictWeakOrder(a: MacroConnection, b: MacroConnection, c: MacroConnection)
    ensures !Less(a, a)
    ensures Less(a, b) && Less(b, c) ==> Less(a, c)
    ensures !Less(a, b) && !Less(b, a) <==> Key(a) == Key(b)
    ensures !(Less(a, b) && Less(b, a))
  {
    StringOrder(Key(a), Key(a));
    StringOrder(Key(a), Key(b));
    if Less(a, b) && Less(b, c) {
      StringTransitive(Key(a), Key(b), Key(c));
    }
  }

  /** The six operators are consistent on two connections, exactly one of <, ==
      and > holding and >= being the converse of <=, unless the connections are
      different but have one key. */
  lemma OperatorsConsistent(a: MacroConnection, b: MacroConnection)
    ensures ((Less(a, b) <==> Greater(b, a)) && (LessOrEqual(a, b) <==> GreaterOrEqual(b, a)))
       <==> (a == b || Key(a) != Key(b))
    ensures Key(a) == Key(b) && a != b ==> Greater(a, b) && Greater(b, a)
  {
    StringOrder(Key(a), Key(b));
    StringOrder(Key(a), Key(a));
  }

  // ---------------------------------------------------------------------------
  // When keys collide

  /** The id a continued by a type digit is a prefix of the id b. */
  predicate Extends(a: Id, b: Id) {
    && |a| < |b| && b[..|a|] == a
    && '0' <= b[|a|] <= '3'
  }

  ghost predicate CollisionFree(ids: set<Id>) {
    forall a, b :: a in ids && b in ids ==> !Extends(a, b)
  }

  ghost predicate KeysIdentify(ids: set<Id>) {
    forall c: MacroConnection, d: MacroConnection :: c.id in ids && d.id in ids && Key(c) == Key(d) ==> c == d
  }

  lemma EqualKeysExtend(c: MacroConnection, d: MacroConnection)
    requires Key(c) == Key(d) && |c.id| <= |d.id|
    ensures c == d || Extends(c.id, d.id)
  {
    var n := |c.id|;
    assert Key(c)[..n] == c.id && Key(d)[..n] == d.id[..n];
    assert Key(c)[n] == Digit(c.elementType);
    if n == |d.id| {
      assert c.id == d.id;
      assert Key(d)[n] == Digit(d.elementType);
      assert Key(c)[n + 1..] == c.connectedElementId && Key(d)[n + 1..] == d.connectedElementId;
    } else {
      assert Key(d)[n] == d.id[n];
    }
  }

  function TypeOf(digit: char): ElementType {
    if digit == '0' then NODE else if digit == '1' then LINE else if digit == '2' then TFO else SHUNT
  }

  /** Whatever the element, its connection through the longer of two extending ids
      shares its key with one through the shorter. */
  lemma ExtensionCollides(a: Id, b: Id, e: Id) returns (c: MacroConnection, d: MacroConnection)
    requires Extends(a, b)
    ensures c.id == a && d == MacroConnection(b, NODE, e) && Key(c) == Key(d)
    ensures c.connectedElementId == b[|a| + 1..] + ['0'] + e && Digit(c.elementType) == b[|a|]
  {
    var n := |a|;
    d := MacroConnection(b, NODE, e);
    c := MacroConnection(a, TypeOf(b[n]), b[n + 1..] + ['0'] + e);
    assert b == a + [b[n]] + b[n + 1..];
    assert Digit(TypeOf(b[n])) == b[n];
    assert Key(c) == b + ['0'] + e == Key(d);
  }

  /** Keys tell all connections through some macro ids apart exactly when no id,
      continued by a type digit, is a prefix of another. */
  lemma KeysIdentifyExactly(ids: set<Id>)
    ensures KeysIdentify(ids) <==> CollisionFree(ids)
  {
    if CollisionFree(ids) {
      forall c: MacroConnection, d: MacroConnection | c.id in ids && d.id in ids && Key(c) == Key(d) ensures c == d {
        if |c.id| <= |d.id| {
          EqualKeysExtend(c, d);
        } else {
          EqualKeysExtend(d, c);
        }
      }
    }
    if !CollisionFree(ids) {
      var a, b :| a in ids && b in ids && Extends(a, b);
      var c, d := ExtensionCollides(a, b, []);
      assert c.id != d.id;
    }
  }

  /** Through such ids, the operators form a total order. */
  lemma TotalOrder(ids: set<Id>, a: MacroConnection, b: MacroConnection, c: MacroConnection)
    requires CollisionFree(ids) && a.id in ids && b.id in ids && c.id in ids
    ensures LessOrEqual(a, b) || LessOrEqual(b, a)
    ensures LessOrEqual(a, b) && LessOrEqual(b, a) ==> a == b
    ensures LessOrEqual(a, b) && LessOrEqual(b, c) ==> LessOrEqual(a, c)
    ensures (Less(a, b) <==> LessOrEqual(a, b) && a != b)
         && (Greater(a, b) <==> Less(b, a)) && (GreaterOrEqual(a, b) <==> LessOrEqual(b, a))
  {
    KeysIdentifyExactly(ids);
    StrictWeakOrder(a, b, c);
    StrictWeakOrder(b, a, c);
  }

  // ---------------------------------------------------------------------------
  // The set

  /** std::set::insert: an element with an equal key keeps its place. */
  function Insert(s: seq<MacroConnection>, c: MacroConnection): seq<MacroConnection> {
    if s == [] then [c]
    else if Less(c, s[0]) then [c] + s
    else if Less(s[0], c) then [s[0]] + Insert(s[1..], c)
    else s
  }

  ghost predicate Ordered(s: seq<MacroConnection>) {
    forall i, j :: 0 <= i < j < |s| ==> Less(s[i], s[j])
  }

  ghost predicate HasKey(s: seq<MacroConnection>, key: string) {
    exists c :: c in s && Key(c) == key
  }

  lemma {:induction false} InsertMembers(s: seq<MacroConnection>, c: MacroConnection, x: MacroConnection)
    ensures x in Insert(s, c) ==> x in s || x == c
    ensures x in s ==> x in Insert(s, c)
    ensures HasKey(Insert(s, c), Key(c))
    decreases |s|
  {
    if s == [] || Less(c, s[0]) {
      assert c in Insert(s, c);
    } else if Less(s[0], c) {
      InsertMembers(s[1..], c, x);
      var y :| y in Insert(s[1..], c) && Key(y) == Key(c);
      assert y in Insert(s, c);
    } else {
      StringOrder(Key(c), Key(s[0]));
      assert s[0] in Insert(s, c);
    }
  }

  lemma {:induction false} InsertOrdered(s: seq<MacroConnection>, c: MacroConnection)
    requires Ordered(s)
    ensures Ordered(Insert(s, c))
    decreases |s|
  {
    if s != [] && Less(c, s[0]) {
      forall j | 0 <= j < |s| ensures Less(c, s[j]) {
        StrictWeakOrder(c, s[0], s[j]);
      }
    } else if s != [] && Less(s[0], c) {
      InsertOrdered(s[1..], c);
      forall x <- Insert(s[1..], c) ensures Less(s[0], x) {
        InsertMembers(s[1..], c, x);
      }
    }
  }

  lemma OrderedIsDistinct(s: seq<MacroConnection>)
    requires Ordered(s)
    ensures NoDuplicates(s)
    ensures forall i, j :: 0 <= i < j < |s| ==> Key(s[i]) != Key(s[j])
  {
    forall i, j | 0 <= i < j < |s| ensures s[i] != s[j] && Key(s[i]) != Key(s[j]) {
      StrictWeakOrder(s[i], s[j], s[j]);
    }
  }
}
