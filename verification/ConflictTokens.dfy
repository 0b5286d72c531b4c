// Conflict tokens (internal/server/review/engine.go, addConflict) join their parts with ':'. This module says when a
// token identifies its conflict.
module ConflictTokens {
  import opened Wrappers
  import opened ThreeWayMerge

  /** The id is that of a node or an edge, as the kind says. */
  ghost predicate Identifies(nodes: set<string>, edges: set<string>, c: Conflict) {
    match c.element
    case NodeKind => c.id in nodes
    case EdgeKind => c.id in edges
    case SchemaKind => false
  }

  /** A conflict as the merge reports it, on an element with one of these ids. */
  ghost predicate Reported(nodes: set<string>, edges: set<string>, c: Conflict) {
    && c.token == Token(c.conflictType, c.element, c.id, c.property)
    && match c.conflictType
       case PropertyConflict => Identifies(nodes, edges, c)
       case DeleteUpdate => Identifies(nodes, edges, c) && c.property == ""
       case Structural => Identifies(nodes, edges, c) && c.property == ""
       case _ => c.element == SchemaKind && c.id == "" && c.property == ""
  }

  /** `other` starts with `id` and a colon. */
  predicate ColonPrefix(id: string, other: string) {
    |id| < |other| && other[..|id|] == id && other[|id|] == ':'
  }

  ghost predicate ColonSafe(ids: set<string>) {
    forall a, b :: a in ids && b in ids ==> !ColonPrefix(a, b)
  }

  ghost predicate Unambiguous(nodes: set<string>, edges: set<string>) {
    forall c, d :: Reported(nodes, edges, c) && Reported(nodes, edges, d) && c.token == d.token ==> c == d
  }

  lemma SuffixesDropped(a: string, b: string, x: string, y: string)
    requires a + x == b + y && |a| == |b|
    ensures a == b && x == y
  {
    assert (a + x)[..|a|] == a && (b + y)[..|b|] == b;
    assert (a + x)[|a|..] == x && (b + y)[|b|..] == y;
  }

  lemma SameType(t1: ConflictType, x: string, t2: ConflictType, y: string)
    requires TypeName(t1) + x == TypeName(t2) + y
    ensures t1 == t2 && x == y
  {
    var (n1, n2) := (TypeName(t1), TypeName(t2));
    assert (n1 + x)[0] == n1[0] && (n2 + y)[0] == n2[0];
    assert (n1 + x)[1] == n1[1] && (n2 + y)[1] == n2[1];
    SuffixesDropped(n1, n2, x, y);
  }

  lemma SameKind(k1: ElementKind, x: string, k2: ElementKind, y: string)
    requires KindName(k1) + x == KindName(k2) + y
    ensures k1 == k2 && x == y
  {
    var (n1, n2) := (KindName(k1), KindName(k2));
    assert (n1 + x)[0] == n1[0] && (n2 + y)[0] == n2[0];
    SuffixesDropped(n1, n2, x, y);
  }

  lemma ColonDropped(x: string, y: string)
    requires ":" + x == ":" + y
    ensures x == y
  {
    SuffixesDropped(":", ":", x, y);
  }

  /** Equal tokens have equal types, kinds and joined ids. */
  lemma TokenParts(t1: ConflictType, k1: ElementKind, id1: string, p1: string, t2: ConflictType, k2: ElementKind,
                   id2: string, p2: string)
    requires Token(t1, k1, id1, p1) == Token(t2, k2, id2, p2)
    ensures t1 == t2 && k1 == k2 && Suffix(id1) + Suffix(p1) == Suffix(id2) + Suffix(p2)
  {
    hide TypeName;
    hide KindName;
    hide Suffix;
    var (x, y) := (KindName(k1) + (Suffix(id1) + Suffix(p1)), KindName(k2) + (Suffix(id2) + Suffix(p2)));
    assert Token(t1, k1, id1, p1) == TypeName(t1) + (":" + x);
    assert Token(t2, k2, id2, p2) == TypeName(t2) + (":" + y);
    SameType(t1, ":" + x, t2, ":" + y);
    ColonDropped(x, y);
    SameKind(k1, Suffix(id1) + Suffix(p1), k2, Suffix(id2) + Suffix(p2));
  }

  /** Two different ways to cut the same joined id put a colon right after the shorter id. */
  lemma CutTwice(id1: string, p1: string, id2: string, p2: string)
    requires id1 + Suffix(p1) == id2 + Suffix(p2)
    ensures (id1 == id2 && p1 == p2) || ColonPrefix(id1, id2) || ColonPrefix(id2, id1)
  {
    var whole := id1 + Suffix(p1);
    if |id1| == |id2| {
      SuffixesDropped(id1, id2, Suffix(p1), Suffix(p2));
      if p1 != "" { ColonDropped(p1, p2); }
    } else if |id1| < |id2| {
      assert whole[..|id1|] == id1 && whole[..|id2|] == id2;
      assert id2[..|id1|] == id1;
      assert whole[|id1|] == id2[|id1|] && whole[|id1|] == Suffix(p1)[0];
    } else {
      assert whole[..|id1|] == id1 && whole[..|id2|] == id2;
      assert id1[..|id2|] == id2;
      assert whole[|id2|] == id1[|id2|] && whole[|id2|] == Suffix(p2)[0];
    }
  }

  lemma SafeUnambiguous(nodes: set<string>, edges: set<string>, c: Conflict, d: Conflict)
    requires "" !in nodes && "" !in edges && ColonSafe(nodes) && ColonSafe(edges)
    requires Reported(nodes, edges, c) && Reported(nodes, edges, d) && c.token == d.token
    ensures c == d
  {
    TokenParts(c.conflictType, c.element, c.id, c.property, d.conflictType, d.element, d.id, d.property);
    hide Token;
    hide Suffix;
    hide ColonPrefix;
    if c.element != SchemaKind {
      SuffixesAlike(c.id, c.property, d.id, d.property);
      CutTwice(c.id, c.property, d.id, d.property);
    }
  }

  lemma ColonJoined(id: string, rest: string)
    requires id != ""
    ensures Suffix(id) + rest == ":" + (id + rest)
  {
    assert Suffix(id) == ":" + id;
    assert (":" + id) + rest == ":" + (id + rest);
  }

  lemma SuffixesAlike(id1: string, p1: string, id2: string, p2: string)
    requires id1 != "" && id2 != "" && Suffix(id1) + Suffix(p1) == Suffix(id2) + Suffix(p2)
    ensures id1 + Suffix(p1) == id2 + Suffix(p2)
  {
    hide Suffix;
    ColonJoined(id1, Suffix(p1));
    ColonJoined(id2, Suffix(p2));
    ColonDropped(id1 + Suffix(p1), id2 + Suffix(p2));
  }

  lemma JoinedAlike(head: string, a: string, rest: string)
    ensures head + (":" + a) + (":" + (rest + ":p")) == head + (":" + (a + ":" + rest)) + (":" + "p")
  {
    assert (":" + a) + (":" + (rest + ":p")) == (":" + (a + ":" + rest)) + (":" + "p");
    assert head + (":" + a) + (":" + (rest + ":p")) == head + ((":" + a) + (":" + (rest + ":p")));
    assert head + (":" + (a + ":" + rest)) + (":" + "p") == head + ((":" + (a + ":" + rest)) + (":" + "p"));
  }

  lemma CutAtColon(a: string, b: string)
    requires ColonPrefix(a, b)
    ensures b == a + ":" + b[|a| + 1..]
  {
    assert b == b[..|a|] + [b[|a|]] + b[|a| + 1..];
  }

  /** Every id that another id of its kind extends after a colon gives two conflicts with one token. */
  lemma Collision(nodes: set<string>, edges: set<string>, kind: ElementKind, a: string, b: string)
    returns (c: Conflict, d: Conflict)
    requires kind != SchemaKind && ColonPrefix(a, b) && a != ""
    requires if kind == NodeKind then a in nodes && b in nodes else a in edges && b in edges
    ensures Reported(nodes, edges, c) && Reported(nodes, edges, d) && c.token == d.token && c != d
  {
    hide TypeName;
    hide KindName;
    var rest := b[|a| + 1..];
    c := ConflictOf(PropertyConflict, kind, a, rest + ":p");
    d := ConflictOf(PropertyConflict, kind, b, "p");
    CutAtColon(a, b);
    JoinedAlike(TypeName(PropertyConflict) + ":" + KindName(kind), a, rest);
    assert Suffix(rest + ":p") == ":" + (rest + ":p");
  }

  /** Tokens identify conflicts exactly when no node id is another node id followed by a colon and more, and the same
      holds of edge ids. */
  lemma TokensUnambiguous(nodes: set<string>, edges: set<string>)
    requires "" !in nodes && "" !in edges
    ensures Unambiguous(nodes, edges) <==> ColonSafe(nodes) && ColonSafe(edges)
  {
    hide Token;
    if ColonSafe(nodes) && ColonSafe(edges) {
      forall c, d | Reported(nodes, edges, c) && Reported(nodes, edges, d) && c.token == d.token ensures c == d {
        SafeUnambiguous(nodes, edges, c, d);
      }
    } else if !ColonSafe(nodes) {
      var a, b :| a in nodes && b in nodes && ColonPrefix(a, b);
      var c, d := Collision(nodes, edges, NodeKind, a, b);
    } else {
      var a, b :| a in edges && b in edges && ColonPrefix(a, b);
      var c, d := Collision(nodes, edges, EdgeKind, a, b);
    }
  }
}
