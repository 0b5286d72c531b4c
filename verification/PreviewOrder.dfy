// How a merge preview is laid out: what validation adds, each change once, the order of the changes, and the text of
// the conflict tokens.
module PreviewOrder {
  import opened Wrappers
  import opened Ordering
  import opened ThreeWayMerge
  import opened MergeLaws
  import opened PreviewLists

  // ----- what validation adds to a conflict-free merge ----------------------------------

  /** The only conflict of a merge whose sites do not conflict: one about the schema as a whole, which is about
      cardinality exactly if validation reports violations and each of their codes contains that word. */
  lemma ValidationListed(b: Snapshot, s: Snapshot, t: Snapshot, validate: Snapshot -> Validation)
    requires ConflictFree(b, s, t)
    ensures var listed := SortBy(ListedConflicts(b, s, t, validate), TokenOf);
            var verdict := validate(MergedSnapshot(b, s, t));
            && |listed| == (if verdict.Accepted? then 0 else 1)
            && (verdict.Violated? && (forall code :: code in verdict.codes ==> Contains(code, "cardinality")) ==>
                  listed == [Conflict("cardinality:schema", Cardinality, SchemaKind, "", "")])
            && (verdict.Failed? || (verdict.Violated? && exists code :: code in verdict.codes
                                                                        && !Contains(code, "cardinality")) ==>
                  listed == [Conflict("schema:schema", SchemaConflict, SchemaKind, "", "")])
  {
    hide ConflictFree;
    hide ListedConflicts;
    hide SortBy;
    hide MergedSnapshot;
    hide Contains;
    ConflictListExact(b, s, t, validate);
    var verdict := validate(MergedSnapshot(b, s, t));
    if verdict.Violated? {
      forall code | code in verdict.codes ensures Mentions(code, "cardinality") <==> Contains(code, "cardinality") {
        MentionsExactly(code, "cardinality");
      }
    }
    hide Mentions;
    SchemaTokens();
  }

  lemma SchemaTokens()
    ensures ConflictOf(Cardinality, SchemaKind, "", "") ==
            Conflict("cardinality:schema", Cardinality, SchemaKind, "", "")
    ensures ConflictOf(SchemaConflict, SchemaKind, "", "") ==
            Conflict("schema:schema", SchemaConflict, SchemaKind, "", "")
  {
    assert "cardinality" + ":" + "schema" + "" + "" == "cardinality:schema";
    assert "schema" + ":" + "schema" + "" + "" == "schema:schema";
  }

  /** A concrete verdict: two codes, of which only the first is about cardinality, make a schema conflict. */
  lemma MixedViolations(b: Snapshot, s: Snapshot, t: Snapshot, validate: Snapshot -> Validation)
    requires ConflictFree(b, s, t)
    requires validate(MergedSnapshot(b, s, t)) == Violated(["cardinality_max", "type"])
    ensures SortBy(ListedConflicts(b, s, t, validate), TokenOf) ==
            [Conflict("schema:schema", SchemaConflict, SchemaKind, "", "")]
  {
    hide ConflictFree;
    hide ListedConflicts;
    hide SortBy;
    hide MergedSnapshot;
    ValidationListed(b, s, t, validate);
    var codes := ["cardinality_max", "type"];
    assert codes[1] in codes;
    forall pre, post ensures "type" != pre + "cardinality" + post {
      assert |pre + "cardinality" + post| >= 11;
    }
  }

  // ----- the text of a token ------------------------------------------------------------

  /** Tokens name the type, the kind, the element and the property, joined with colons. */
  lemma PropertyTokenSpelled(id: string, name: string)
    requires id != "" && name != ""
    ensures ConflictOf(PropertyConflict, NodeKind, id, name).token == "property:node:" + id + ":" + name
    ensures ConflictOf(PropertyConflict, EdgeKind, id, name).token == "property:edge:" + id + ":" + name
  {
    PropertyHeads();
    hide TypeName;
    hide KindName;
    Joined(TypeName(PropertyConflict) + ":" + KindName(NodeKind), id, name);
    Joined(TypeName(PropertyConflict) + ":" + KindName(EdgeKind), id, name);
    hide Suffix;
  }

  lemma PropertyHeads()
    ensures TypeName(PropertyConflict) + ":" + KindName(NodeKind) + ":" == "property:node:"
    ensures TypeName(PropertyConflict) + ":" + KindName(EdgeKind) + ":" == "property:edge:"
  {}

  lemma ElementTokenSpelled(id: string)
    requires id != ""
    ensures ConflictOf(DeleteUpdate, NodeKind, id, "").token == "delete_update:node:" + id
    ensures ConflictOf(DeleteUpdate, EdgeKind, id, "").token == "delete_update:edge:" + id
    ensures ConflictOf(Structural, NodeKind, id, "").token == "structural:node:" + id
    ensures ConflictOf(Structural, EdgeKind, id, "").token == "structural:edge:" + id
  {
    ElementHeads();
    hide TypeName;
    hide KindName;
    Joined(TypeName(DeleteUpdate) + ":" + KindName(NodeKind), id, "");
    Joined(TypeName(DeleteUpdate) + ":" + KindName(EdgeKind), id, "");
    Joined(TypeName(Structural) + ":" + KindName(NodeKind), id, "");
    Joined(TypeName(Structural) + ":" + KindName(EdgeKind), id, "");
    hide Suffix;
  }

  lemma ElementHeads()
    ensures TypeName(DeleteUpdate) + ":" + KindName(NodeKind) + ":" == "delete_update:node:"
    ensures TypeName(DeleteUpdate) + ":" + KindName(EdgeKind) + ":" == "delete_update:edge:"
    ensures TypeName(Structural) + ":" + KindName(NodeKind) + ":" == "structural:node:"
    ensures TypeName(Structural) + ":" + KindName(EdgeKind) + ":" == "structural:edge:"
  {}

  lemma Joined(head: string, id: string, name: string)
    requires id != ""
    ensures head + Suffix(id) + Suffix(name) == if name == "" then (head + ":") + id else (head + ":") + id + ":" + name
  {
    assert head + (":" + id) == (head + ":") + id;
    if name != "" {
      assert (head + ":") + id + (":" + name) == (head + ":") + id + ":" + name;
    }
  }

  // ----- each change once ---------------------------------------------------------------

  ghost predicate DistinctSites(cs: seq<Change>) {
    forall i, j :: 0 <= i < j < |cs| ==> SiteOf(cs[i]) != SiteOf(cs[j])
  }

  /** All of these changes are about this kind of element and these ids. */
  ghost predicate About(cs: seq<Change>, kind: ElementKind, ids: seq<string>) {
    forall c :: c in cs ==> c.kind != SchemaChange && c.element == kind && c.id in ids
  }

  lemma SitesJoin(a: seq<Change>, b: seq<Change>)
    requires DistinctSites(a) && DistinctSites(b)
    requires forall c, d :: c in a && d in b ==> SiteOf(c) != SiteOf(d)
    ensures DistinctSites(a + b)
  {
    hide SiteOf;
    forall i, j | 0 <= i < j < |a + b| ensures SiteOf((a + b)[i]) != SiteOf((a + b)[j]) {
      if i < |a| <= j {
        assert a[i] in a && b[j - |a|] in b;
      }
    }
  }

  lemma {:induction false} PropertySites(kind: ElementKind, id: string, b: Properties, s: Properties, t: Properties,
                                         names: seq<string>)
    requires Distinct(names)
    ensures var notes := PropertyNotes(kind, id, b, s, t, names);
            && DistinctSites(notes)
            && forall c :: c in notes ==> c.kind == PropertyChange && c.element == kind && c.id == id
                                          && c.property in names
    decreases |names|
  {
    hide PropertyNote;
    if names != [] {
      var front, name := names[..|names| - 1], names[|names| - 1];
      PropertySites(kind, id, b, s, t, front);
      var note := PropertyNote(Get(b, name), Get(s, name), Get(t, name));
      var last := if note.Some? then [Change(PropertyChange, note.value.0, kind, id, name, note.value.1)] else [];
      assert name !in front;
      SitesJoin(PropertyNotes(kind, id, b, s, t, front), last);
      assert PropertyNotes(kind, id, b, s, t, names) == PropertyNotes(kind, id, b, s, t, front) + last;
    }
  }

  lemma NamesDistinct<V>(a: map<string, V>, b: map<string, V>, c: map<string, V>)
    ensures Distinct(Names(a, b, c))
  {
    var names := Names(a, b, c);
    forall i, j | 0 <= i < j < |names| ensures names[i] != names[j] {
      LessAsymmetric(names[i], names[j]);
    }
  }

  lemma ElementSites(kind: ElementKind, id: string, b: Option<Element>, s: Option<Element>, t: Option<Element>)
    ensures DistinctSites(ElementNotes(kind, id, b, s, t)) && About(ElementNotes(kind, id, b, s, t), kind, [id])
  {
    hide PropertyNotes;
    hide ElementNote;
    hide Names;
    var note := ElementNote(kind, b, s, t);
    var own := if note.Some? then [Change(ElementChange, note.value.0, kind, id, "", note.value.1)] else [];
    if MergedInside(b, s, t) {
      var (p, q, r) := (PropsOf(b), s.value.properties, t.value.properties);
      NamesDistinct(p, q, r);
      PropertySites(kind, id, p, q, r, Names(p, q, r));
      SitesJoin(own, PropertyNotes(kind, id, p, q, r, Names(p, q, r)));
    }
  }

  lemma {:induction false} ElementsSites(kind: ElementKind, b: Elements, s: Elements, t: Elements, ids: seq<string>)
    requires Distinct(ids)
    ensures DistinctSites(ElementsNotes(kind, b, s, t, ids)) && About(ElementsNotes(kind, b, s, t, ids), kind, ids)
    decreases |ids|
  {
    hide ElementNotes;
    hide DistinctSites;
    if ids != [] {
      var front, id := ids[..|ids| - 1], ids[|ids| - 1];
      ElementsSites(kind, b, s, t, front);
      ElementSites(kind, id, Get(b, id), Get(s, id), Get(t, id));
      assert id !in front;
      SitesJoin(ElementsNotes(kind, b, s, t, front), ElementNotes(kind, id, Get(b, id), Get(s, id), Get(t, id)));
    } else {
      NoSites();
    }
  }

  lemma NoSites()
    ensures DistinctSites([])
  {}

  /** No two changes of a preview are about the same place. */
  lemma ChangesOnce(b: Snapshot, s: Snapshot, t: Snapshot)
    ensures DistinctSites(AllNotes(b, s, t))
  {
    hide ElementsNotes;
    hide Names;
    NamesDistinct(b.nodes, s.nodes, t.nodes);
    NamesDistinct(b.edges, s.edges, t.edges);
    var nodes := ElementsNotes(NodeKind, b.nodes, s.nodes, t.nodes, Names(b.nodes, s.nodes, t.nodes));
    var edges := ElementsNotes(EdgeKind, b.edges, s.edges, t.edges, Names(b.edges, s.edges, t.edges));
    ElementsSites(NodeKind, b.nodes, s.nodes, t.nodes, Names(b.nodes, s.nodes, t.nodes));
    ElementsSites(EdgeKind, b.edges, s.edges, t.edges, Names(b.edges, s.edges, t.edges));
    var m := MergeValue(b.schema, s.schema, t.schema);
    var schema := if m.conflict || m.value == b.schema then []
      else [Change(SchemaChange, Updated, SchemaKind, "", "", m.branch)];
    SitesJoin(schema, nodes);
    SitesJoin(schema + nodes, edges);
  }

  // ----- the order of the changes -------------------------------------------------------

  ghost predicate NulFree(x: string) { forall i :: 0 <= i < |x| ==> x[i] > 0 as char }

  lemma {:induction false} FieldOrder(x: string, y: string, u: string, v: string)
    requires NulFree(x) && NulFree(y) && Leq(x + (NUL + u), y + (NUL + v))
    ensures Less(x, y) || (x == y && Leq(u, v))
    decreases |x|
  {
    var (p, q) := (x + (NUL + u), y + (NUL + v));
    assert p != "" && q != "";
    assert y == "" ==> q == NUL + v;
    if x == "" && y == "" {
      assert p[1..] == u && q[1..] == v;
    } else if x == "" {
      assert p[0] == 0 as char && q[0] == y[0];
    } else if y == "" {
      NothingBelow(x, u, v);
    } else {
      assert p[0] == x[0] && q[0] == y[0] && p[1..] == x[1..] + (NUL + u) && q[1..] == y[1..] + (NUL + v);
      if x[0] == y[0] {
        if p == q { assert p[1..] == q[1..]; }
        FieldOrder(x[1..], y[1..], u, v);
        assert x == [x[0]] + x[1..] && y == [y[0]] + y[1..];
      }
    }
  }

  lemma NothingBelow(x: string, u: string, v: string)
    requires x != "" && NulFree(x)
    ensures !Leq(x + (NUL + u), NUL + v)
  {
    var (p, q) := (x + (NUL + u), NUL + v);
    assert p[0] == x[0] && q[0] == 0 as char && x[0] > 0 as char;
  }

  function KindRank(k: ChangeKind): nat {
    match k case ElementChange => 0 case PropertyChange => 1 case SchemaChange => 2
  }

  function ElementRank(k: ElementKind): nat {
    match k case EdgeKind => 0 case NodeKind => 1 case SchemaKind => 2
  }

  /** Elements before properties before the schema; edges before nodes; then by id and by property name. */
  predicate InOrder(c: Change, d: Change) {
    || KindRank(c.kind) < KindRank(d.kind)
    || (c.kind == d.kind && ElementRank(c.element) < ElementRank(d.element))
    || (c.kind == d.kind && c.element == d.element && Less(c.id, d.id))
    || (c.kind == d.kind && c.element == d.element && c.id == d.id && Leq(c.property, d.property))
  }

  function KeyTail(c: Change): string { OperationName(c.operation) + NUL + BranchName(c.branch) }

  lemma KeyParts(c: Change)
    ensures ChangeKey(c) == ChangeKindName(c.kind) + (NUL + (KindName(c.element) + (NUL + (c.id + (NUL + (c.property
                              + (NUL + KeyTail(c))))))))
  {
    hide ChangeKindName;
    hide KindName;
    hide OperationName;
    hide BranchName;
    var (a, b, t) := (ChangeKindName(c.kind), KindName(c.element), KeyTail(c));
    assert a + NUL + b + NUL + c.id + NUL + c.property + NUL + OperationName(c.operation) + NUL + BranchName(c.branch)
           == a + NUL + b + NUL + c.id + NUL + c.property + NUL + t;
    assert a + NUL + b + NUL + c.id + NUL + c.property + NUL + t
           == a + (NUL + (b + (NUL + (c.id + (NUL + (c.property + (NUL + t)))))));
  }

  lemma NamesOrdered(c: Change, d: Change)
    ensures NulFree(ChangeKindName(c.kind)) && NulFree(KindName(c.element))
    ensures Less(ChangeKindName(c.kind), ChangeKindName(d.kind)) ==> KindRank(c.kind) < KindRank(d.kind)
    ensures ChangeKindName(c.kind) == ChangeKindName(d.kind) ==> c.kind == d.kind
    ensures Less(KindName(c.element), KindName(d.element)) ==> ElementRank(c.element) < ElementRank(d.element)
    ensures KindName(c.element) == KindName(d.element) ==> c.element == d.element
  {
    assert ChangeKindName(c.kind)[0] == (match c.kind case ElementChange => 'e' case PropertyChange => 'p'
                                                      case SchemaChange => 's');
    assert ChangeKindName(d.kind)[0] == (match d.kind case ElementChange => 'e' case PropertyChange => 'p'
                                                      case SchemaChange => 's');
    assert KindName(c.element)[0] == (match c.element case EdgeKind => 'e' case NodeKind => 'n' case SchemaKind => 's');
    assert KindName(d.element)[0] == (match d.element case EdgeKind => 'e' case NodeKind => 'n' case SchemaKind => 's');
    LessSelf(ChangeKindName(c.kind));
    LessSelf(KindName(c.element));
  }

  lemma LessSelf(x: string)
    ensures !Less(x, x)
  {
    if Less(x, x) { LessAsymmetric(x, x); }
  }

  lemma KeyOrder(c: Change, d: Change)
    requires NulFree(c.id) && NulFree(c.property) && NulFree(d.id) && NulFree(d.property)
    requires Leq(ChangeKey(c), ChangeKey(d))
    ensures InOrder(c, d)
  {
    hide ChangeKindName;
    hide KindName;
    hide ChangeKey;
    hide Less;
    hide Leq;
    hide NulFree;
    KeyParts(c);
    KeyParts(d);
    NamesOrdered(c, d);
    NamesOrdered(d, c);
    var (pc, pd) := (c.property + (NUL + KeyTail(c)), d.property + (NUL + KeyTail(d)));
    var (ic, id) := (c.id + (NUL + pc), d.id + (NUL + pd));
    FieldOrder(ChangeKindName(c.kind), ChangeKindName(d.kind), KindName(c.element) + (NUL + ic),
               KindName(d.element) + (NUL + id));
    if c.kind == d.kind {
      LessSelf(ChangeKindName(c.kind));
      FieldOrder(KindName(c.element), KindName(d.element), ic, id);
      if c.element == d.element {
        LessSelf(KindName(c.element));
        FieldOrder(c.id, d.id, pc, pd);
        if c.id == d.id {
          LessSelf(c.id);
          FieldOrder(c.property, d.property, KeyTail(c), KeyTail(d));
          LessOrEqual(c.property, d.property);
        }
      }
    }
  }

  lemma LessOrEqual(x: string, y: string)
    ensures Less(x, y) || x == y ==> Leq(x, y)
  {}

  /** The preview lists its changes in this order. */
  lemma ChangesInOrder(b: Snapshot, s: Snapshot, t: Snapshot, i: nat, j: nat)
    requires i < j < |SortBy(AllNotes(b, s, t), ChangeKey)|
    requires forall c :: c in AllNotes(b, s, t) ==> NulFree(c.id) && NulFree(c.property)
    ensures InOrder(SortBy(AllNotes(b, s, t), ChangeKey)[i], SortBy(AllNotes(b, s, t), ChangeKey)[j])
  {
    hide AllNotes;
    hide NulFree;
    hide InOrder;
    hide SortBy;
    var sorted := SortBy(AllNotes(b, s, t), ChangeKey);
    SortBySorted(AllNotes(b, s, t), ChangeKey);
    SortByMember(AllNotes(b, s, t), ChangeKey, sorted[i]);
    SortByMember(AllNotes(b, s, t), ChangeKey, sorted[j]);
    KeyOrder(sorted[i], sorted[j]);
  }
}
