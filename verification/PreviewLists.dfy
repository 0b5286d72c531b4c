// The two lists of a merge preview: the conflicts are those of the conflict sites, and the clean changes of a
// conflict-free merge are the difference between the base and the merge.
module PreviewLists {
  import opened Wrappers
  import opened Ordering
  import opened ThreeWayMerge
  import opened MergeLaws

  // ----- conflicts ----------------------------------------------------------------------

  lemma {:induction false} PropertyClashIn(kind: ElementKind, id: string, b: Properties, s: Properties, t: Properties,
                                           names: seq<string>, c: Conflict)
    ensures c in PropertyClashes(kind, id, b, s, t, names) <==>
            exists name :: name in names && Clash(Get(b, name), Get(s, name), Get(t, name))
                           && c == ConflictOf(PropertyConflict, kind, id, name)
    decreases |names|
  {
    hide Clash;
    hide ConflictOf;
    if names != [] {
      var front, last := names[..|names| - 1], names[|names| - 1];
      PropertyClashIn(kind, id, b, s, t, front, c);
      assert forall name :: name in names <==> name in front || name == last;
    }
  }

  lemma {:induction false} ElementsConflictIn(kind: ElementKind, b: Elements, s: Elements, t: Elements,
                                              ids: seq<string>, c: Conflict)
    ensures c in ElementsConflicts(kind, b, s, t, ids) <==>
            exists id :: id in ids && c in ElementConflicts(kind, id, Get(b, id), Get(s, id), Get(t, id))
    decreases |ids|
  {
    hide ElementConflicts;
    if ids != [] {
      var front, last := ids[..|ids| - 1], ids[|ids| - 1];
      ElementsConflictIn(kind, b, s, t, front, c);
      assert forall id :: id in ids <==> id in front || id == last;
    }
  }

  /** The conflict is the one of a conflict site of this element. */
  ghost predicate OfElement(b: Snapshot, s: Snapshot, t: Snapshot, kind: ElementKind, id: string, c: Conflict) {
    || (ConflictSite(b, s, t, ElementSite(kind, id)) && c == ConflictAt(b, s, t, ElementSite(kind, id)))
    || (exists name :: ConflictSite(b, s, t, PropertySite(kind, id, name))
                       && c == ConflictAt(b, s, t, PropertySite(kind, id, name)))
  }

  /** Lookups are in the key union whenever they clash. */
  lemma ClashNamed(b: Properties, s: Properties, t: Properties, name: string)
    requires Clash(Get(b, name), Get(s, name), Get(t, name))
    ensures name in Names(b, s, t)
  {}

  lemma ElementConflictIn(b: Snapshot, s: Snapshot, t: Snapshot, kind: ElementKind, id: string, c: Conflict)
    requires kind != SchemaKind
    ensures c in ElementConflicts(kind, id, ElementAt(b, kind, id), ElementAt(s, kind, id), ElementAt(t, kind, id))
            <==> OfElement(b, s, t, kind, id, c)
  {
    hide ConflictOf;
    var (x, y, z) := (ElementAt(b, kind, id), ElementAt(s, kind, id), ElementAt(t, kind, id));
    hide ElementAt;
    ClashIsConflict(kind, x, y, z);
    var inner := if MergedInside(x, y, z)
      then PropertyClashes(kind, id, PropsOf(x), PropsOf(y), PropsOf(z), Names(PropsOf(x), PropsOf(y), PropsOf(z)))
      else [];
    assert c in inner <==> exists name :: ConflictSite(b, s, t, PropertySite(kind, id, name))
                                          && c == ConflictAt(b, s, t, PropertySite(kind, id, name)) by {
      InnerConflictIn(b, s, t, kind, id, c);
    }
    hide PropertyClashes;
    hide ElementConflicted;
    hide ElementClash;
    hide MergedInside;
  }

  lemma InnerConflictIn(b: Snapshot, s: Snapshot, t: Snapshot, kind: ElementKind, id: string, c: Conflict)
    requires kind != SchemaKind
    ensures var (x, y, z) := (ElementAt(b, kind, id), ElementAt(s, kind, id), ElementAt(t, kind, id));
            c in (if MergedInside(x, y, z)
              then PropertyClashes(kind, id, PropsOf(x), PropsOf(y), PropsOf(z),
                                   Names(PropsOf(x), PropsOf(y), PropsOf(z))) else [])
            <==> exists name :: ConflictSite(b, s, t, PropertySite(kind, id, name))
                                && c == ConflictAt(b, s, t, PropertySite(kind, id, name))
  {
    hide ConflictOf;
    hide PropertyClashes;
    var (x, y, z) := (ElementAt(b, kind, id), ElementAt(s, kind, id), ElementAt(t, kind, id));
    var (p, q, r) := (PropsOf(x), PropsOf(y), PropsOf(z));
    PropertyClashIn(kind, id, p, q, r, Names(p, q, r), c);
    forall name ensures ConflictSite(b, s, t, PropertySite(kind, id, name))
                        <==> MergedInside(x, y, z) && name in Names(p, q, r)
                             && Clash(Get(p, name), Get(q, name), Get(r, name))
    {
      if Clash(Get(p, name), Get(q, name), Get(r, name)) { ClashNamed(p, q, r, name); }
    }
  }

  lemma ConflictedListed(b: Snapshot, s: Snapshot, t: Snapshot, kind: ElementKind, id: string, c: Conflict)
    requires kind != SchemaKind && OfElement(b, s, t, kind, id, c)
    ensures id in Names(ElementsOf(b, kind), ElementsOf(s, kind), ElementsOf(t, kind))
  {
    hide ConflictOf;
  }

  lemma KindConflictIn(b: Snapshot, s: Snapshot, t: Snapshot, kind: ElementKind, c: Conflict)
    requires kind != SchemaKind
    ensures var (x, y, z) := (ElementsOf(b, kind), ElementsOf(s, kind), ElementsOf(t, kind));
            c in ElementsConflicts(kind, x, y, z, Names(x, y, z)) <==> exists id :: OfElement(b, s, t, kind, id, c)
  {
    hide OfElement;
    hide ElementConflicts;
    var (x, y, z) := (ElementsOf(b, kind), ElementsOf(s, kind), ElementsOf(t, kind));
    ElementsConflictIn(kind, x, y, z, Names(x, y, z), c);
    forall id ensures c in ElementConflicts(kind, id, Get(x, id), Get(y, id), Get(z, id)) <==>
      OfElement(b, s, t, kind, id, c) {
      ElementConflictIn(b, s, t, kind, id, c);
      if OfElement(b, s, t, kind, id, c) { ConflictedListed(b, s, t, kind, id, c); }
    }
    forall id | OfElement(b, s, t, kind, id, c) ensures id in Names(x, y, z) {
      ConflictedListed(b, s, t, kind, id, c);
    }
  }

  /** The conflict is the one of a conflict site. */
  ghost predicate OfSite(b: Snapshot, s: Snapshot, t: Snapshot, c: Conflict) {
    exists site :: ConflictSite(b, s, t, site) && c == ConflictAt(b, s, t, site)
  }

  lemma OfSiteCases(b: Snapshot, s: Snapshot, t: Snapshot, c: Conflict)
    ensures OfSite(b, s, t, c) <==>
            || (ConflictSite(b, s, t, SchemaSite) && c == ConflictAt(b, s, t, SchemaSite))
            || (exists id :: OfElement(b, s, t, NodeKind, id, c))
            || (exists id :: OfElement(b, s, t, EdgeKind, id, c))
  {
    hide ConflictAt;
    if OfSite(b, s, t, c) {
      var site :| ConflictSite(b, s, t, site) && c == ConflictAt(b, s, t, site);
      if !site.SchemaSite? {
        assert OfElement(b, s, t, site.kind, site.id, c);
        assert site.kind == NodeKind || site.kind == EdgeKind;
      }
    }
  }

  /** The merge collects exactly the conflicts of its conflict sites. */
  lemma ConflictIn(b: Snapshot, s: Snapshot, t: Snapshot, c: Conflict)
    ensures c in AllConflicts(b, s, t) <==> OfSite(b, s, t, c)
  {
    hide OfElement;
    hide OfSite;
    hide ElementsConflicts;
    hide ConflictOf;
    KindConflictIn(b, s, t, NodeKind, c);
    KindConflictIn(b, s, t, EdgeKind, c);
    OfSiteCases(b, s, t, c);
  }

  lemma {:induction false} AddedOnce(more: seq<Conflict>)
    ensures DistinctTokens(AddAll([], more))
    ensures forall c :: c in AddAll([], more) ==> c in more
    ensures forall token :: token in TokensOf(AddAll([], more)) <==> exists c :: c in more && c.token == token
    decreases |more|
  {
    if more != [] {
      var front, last := more[..|more| - 1], more[|more| - 1];
      AddedOnce(front);
      var before := AddAll([], front);
      var after := AddAll([], more);
      assert forall c :: c in more <==> c in front || c == last;
      if after != before {
        assert TokensOf(after) == TokensOf(before) + [last.token];
      }
    }
  }

  lemma SomeMember(cs: seq<Conflict>)
    requires cs != []
    ensures exists c :: c in cs
  {
    assert cs[0] in cs;
  }

  /** A preview lists exactly the tokens of the conflict sites, once each, and only conflicts of such sites. A merge
      without conflict sites lists what its validation found, if anything. */
  lemma ConflictListExact(b: Snapshot, s: Snapshot, t: Snapshot, validate: Snapshot -> Validation)
    ensures var listed := SortBy(ListedConflicts(b, s, t, validate), TokenOf);
            if ConflictFree(b, s, t) then
              var late := ValidationConflict(validate(MergedSnapshot(b, s, t)));
              listed == if late.Some? then [ConflictOf(late.value, SchemaKind, "", "")] else []
            else
              && StrictlySorted(TokensOf(listed))
              && (forall token :: token in TokensOf(listed) <==>
                                  exists site :: ConflictSite(b, s, t, site)
                                                 && ConflictAt(b, s, t, site).token == token)
              && (forall c :: c in listed ==> OfSite(b, s, t, c))
  {
    hide ConflictAt;
    hide ConflictSite;
    hide AllConflicts;
    hide ValidationConflict;
    hide MergedSnapshot;
    hide AddAll;
    hide ConflictOf;
    var all := AllConflicts(b, s, t);
    var found := AddAll([], all);
    AddedOnce(all);
    forall c ensures c in all <==> OfSite(b, s, t, c) { ConflictIn(b, s, t, c); }
    if ConflictFree(b, s, t) {
      assert forall c :: c !in found;
      if found != [] { SomeMember(found); }
    } else {
      var site :| ConflictSite(b, s, t, site);
      assert OfSite(b, s, t, ConflictAt(b, s, t, site));
      assert ConflictAt(b, s, t, site).token in TokensOf(found);
      assert ListedConflicts(b, s, t, validate) == found;
      SortedTokens(found);
      forall c ensures c in SortBy(found, TokenOf) <==> c in found { SortByMember(found, TokenOf, c); }
    }
  }

  /** Swapping source and target gives the same conflict tokens in the same order. */
  lemma SwapListsSameTokens(b: Snapshot, s: Snapshot, t: Snapshot, validate: Snapshot -> Validation)
    ensures TokensOf(SortBy(ListedConflicts(b, s, t, validate), TokenOf)) ==
            TokensOf(SortBy(ListedConflicts(b, t, s, validate), TokenOf))
  {
    hide ConflictAt;
    hide ConflictSite;
    hide ListedConflicts;
    hide MergedSnapshot;
    hide ValidationConflict;
    hide ConflictOf;
    MergeSwap(b, s, t);
    ConflictListExact(b, s, t, validate);
    ConflictListExact(b, t, s, validate);
    if !ConflictFree(b, s, t) {
      StrictlySortedUnique(TokensOf(SortBy(ListedConflicts(b, s, t, validate), TokenOf)),
                           TokensOf(SortBy(ListedConflicts(b, t, s, validate), TokenOf)));
    }
  }

  // ----- clean changes ------------------------------------------------------------------

  function SiteOf(c: Change): Site {
    match c.kind
    case SchemaChange => SchemaSite
    case ElementChange => ElementSite(c.element, c.id)
    case PropertyChange => PropertySite(c.element, c.id, c.property)
  }

  /** The change a merge notes at a site. */
  ghost function NoteAt(b: Snapshot, s: Snapshot, t: Snapshot, site: Site): Option<Change> {
    match site
    case SchemaSite =>
      var m := MergeValue(b.schema, s.schema, t.schema);
      if m.conflict || m.value == b.schema then None
        else Some(Change(SchemaChange, Updated, SchemaKind, "", "", m.branch))
    case ElementSite(kind, id) =>
      var note := ElementNote(kind, ElementAt(b, kind, id), ElementAt(s, kind, id), ElementAt(t, kind, id));
      if kind == SchemaKind || note.None? then None
        else Some(Change(ElementChange, note.value.0, kind, id, "", note.value.1))
    case PropertySite(kind, id, name) =>
      var (x, y, z) := (ElementAt(b, kind, id), ElementAt(s, kind, id), ElementAt(t, kind, id));
      var note := PropertyNote(ValueOf(x, name), ValueOf(y, name), ValueOf(z, name));
      if kind == SchemaKind || !MergedInside(x, y, z) || note.None? then None
      else Some(Change(PropertyChange, note.value.0, kind, id, name, note.value.1))
  }

  lemma {:induction false} PropertyNoteIn(kind: ElementKind, id: string, b: Properties, s: Properties, t: Properties,
                                          names: seq<string>, c: Change)
    ensures c in PropertyNotes(kind, id, b, s, t, names) <==>
            exists name :: name in names && PropertyNoted(kind, id, b, s, t, name, c)
    decreases |names|
  {
    hide PropertyNote;
    if names != [] {
      var front, last := names[..|names| - 1], names[|names| - 1];
      PropertyNoteIn(kind, id, b, s, t, front, c);
      PropertyNoteLast(kind, id, b, s, t, names, c);
      hide PropertyNotes;
      hide PropertyNoted;
      assert forall name :: name in names <==> name in front || name == last;
    }
  }

  lemma PropertyNoteLast(kind: ElementKind, id: string, b: Properties, s: Properties, t: Properties,
                         names: seq<string>, c: Change)
    requires names != []
    ensures c in PropertyNotes(kind, id, b, s, t, names) <==>
            c in PropertyNotes(kind, id, b, s, t, names[..|names| - 1])
              || PropertyNoted(kind, id, b, s, t, names[|names| - 1], c)
  {
    hide PropertyNote;
    hide Get;
    var name := names[|names| - 1];
    var note := PropertyNote(Get(b, name), Get(s, name), Get(t, name));
    if note.Some? {
      assert PropertyNotes(kind, id, b, s, t, names)
             == PropertyNotes(kind, id, b, s, t, names[..|names| - 1])
               + [Change(PropertyChange, note.value.0, kind, id, name, note.value.1)];
    }
  }

  ghost predicate PropertyNoted(kind: ElementKind, id: string, b: Properties, s: Properties, t: Properties,
                                name: string, c: Change)
  {
    var note := PropertyNote(Get(b, name), Get(s, name), Get(t, name));
    note.Some? && c == Change(PropertyChange, note.value.0, kind, id, name, note.value.1)
  }

  lemma {:induction false} ElementsNoteIn(kind: ElementKind, b: Elements, s: Elements, t: Elements, ids: seq<string>,
                                          c: Change)
    ensures c in ElementsNotes(kind, b, s, t, ids) <==>
            exists id :: id in ids && c in ElementNotes(kind, id, Get(b, id), Get(s, id), Get(t, id))
    decreases |ids|
  {
    hide ElementNotes;
    if ids != [] {
      var front, last := ids[..|ids| - 1], ids[|ids| - 1];
      ElementsNoteIn(kind, b, s, t, front, c);
      assert forall id :: id in ids <==> id in front || id == last;
    }
  }

  ghost predicate NotedAt(b: Snapshot, s: Snapshot, t: Snapshot, kind: ElementKind, id: string, c: Change) {
    || NoteAt(b, s, t, ElementSite(kind, id)) == Some(c)
    || (exists name :: NoteAt(b, s, t, PropertySite(kind, id, name)) == Some(c))
  }

  lemma InnerNoteIn(b: Snapshot, s: Snapshot, t: Snapshot, kind: ElementKind, id: string, c: Change)
    requires kind != SchemaKind
    ensures var (x, y, z) := (ElementAt(b, kind, id), ElementAt(s, kind, id), ElementAt(t, kind, id));
            c in (if MergedInside(x, y, z)
              then PropertyNotes(kind, id, PropsOf(x), PropsOf(y), PropsOf(z),
                                 Names(PropsOf(x), PropsOf(y), PropsOf(z))) else [])
            <==> exists name :: NoteAt(b, s, t, PropertySite(kind, id, name)) == Some(c)
  {
    hide PropertyNotes;
    var (x, y, z) := (ElementAt(b, kind, id), ElementAt(s, kind, id), ElementAt(t, kind, id));
    var (p, q, r) := (PropsOf(x), PropsOf(y), PropsOf(z));
    PropertyNoteIn(kind, id, p, q, r, Names(p, q, r), c);
    forall name ensures NoteAt(b, s, t, PropertySite(kind, id, name)) == Some(c)
                        <==> MergedInside(x, y, z) && name in Names(p, q, r)
                             && PropertyNoted(kind, id, p, q, r, name, c)
    {
      NotedNamed(kind, id, p, q, r, name, c);
    }
  }

  lemma NotedNamed(kind: ElementKind, id: string, p: Properties, q: Properties, r: Properties, name: string, c: Change)
    ensures PropertyNoted(kind, id, p, q, r, name, c) ==> name in Names(p, q, r)
  {}

  lemma ElementNoteIn(b: Snapshot, s: Snapshot, t: Snapshot, kind: ElementKind, id: string, c: Change)
    requires kind != SchemaKind
    ensures c in ElementNotes(kind, id, ElementAt(b, kind, id), ElementAt(s, kind, id), ElementAt(t, kind, id)) <==>
            NotedAt(b, s, t, kind, id, c)
  {
    InnerNoteIn(b, s, t, kind, id, c);
    hide PropertyNotes;
    hide ElementNote;
    hide MergedInside;
    hide PropertyNote;
    hide ElementAt;
  }

  lemma NotedListed(b: Snapshot, s: Snapshot, t: Snapshot, kind: ElementKind, id: string, c: Change)
    requires kind != SchemaKind && NotedAt(b, s, t, kind, id, c)
    ensures id in Names(ElementsOf(b, kind), ElementsOf(s, kind), ElementsOf(t, kind))
  {}

  lemma KindNoteIn(b: Snapshot, s: Snapshot, t: Snapshot, kind: ElementKind, c: Change)
    requires kind != SchemaKind
    ensures var (x, y, z) := (ElementsOf(b, kind), ElementsOf(s, kind), ElementsOf(t, kind));
            c in ElementsNotes(kind, x, y, z, Names(x, y, z)) <==> exists id :: NotedAt(b, s, t, kind, id, c)
  {
    hide NotedAt;
    hide ElementNotes;
    var (x, y, z) := (ElementsOf(b, kind), ElementsOf(s, kind), ElementsOf(t, kind));
    ElementsNoteIn(kind, x, y, z, Names(x, y, z), c);
    forall id ensures c in ElementNotes(kind, id, Get(x, id), Get(y, id), Get(z, id)) <==>
      NotedAt(b, s, t, kind, id, c) {
      ElementNoteIn(b, s, t, kind, id, c);
    }
    forall id | NotedAt(b, s, t, kind, id, c) ensures id in Names(x, y, z) {
      NotedListed(b, s, t, kind, id, c);
    }
  }

  /** The merge lists exactly the changes noted at some site. */
  lemma NoteIn(b: Snapshot, s: Snapshot, t: Snapshot, c: Change)
    ensures c in AllNotes(b, s, t) <==> exists site :: NoteAt(b, s, t, site) == Some(c)
  {
    hide NoteAt;
    hide ElementsNotes;
    KindNoteIn(b, s, t, NodeKind, c);
    KindNoteIn(b, s, t, EdgeKind, c);
    SchemaNote(b, s, t, c);
    forall site | NoteAt(b, s, t, site) == Some(c)
      ensures site == SchemaSite || NotedAt(b, s, t, NodeKind, site.id, c) || NotedAt(b, s, t, EdgeKind, site.id, c)
    {
      NoteKind(b, s, t, site);
    }
  }

  lemma SchemaNote(b: Snapshot, s: Snapshot, t: Snapshot, c: Change)
    ensures var m := MergeValue(b.schema, s.schema, t.schema);
            c in (if m.conflict || m.value == b.schema then []
              else [Change(SchemaChange, Updated, SchemaKind, "", "", m.branch)])
            <==> NoteAt(b, s, t, SchemaSite) == Some(c)
  {}

  lemma NoteKind(b: Snapshot, s: Snapshot, t: Snapshot, site: Site)
    requires NoteAt(b, s, t, site).Some?
    ensures site == SchemaSite || site.kind == NodeKind || site.kind == EdgeKind
  {}

  /** What the branch of a change says: who made it. */
  ghost predicate BranchExplains(branch: Branch, base: Content, source: Content, target: Content, merged: Content) {
    match branch
    case FromSource => merged == source && target == base
    case FromTarget => merged == target && source == base
    case FromBoth => merged == source == target
  }

  ghost predicate Present(c: Content) {
    match c
    case SchemaContent(_) => true
    case ShapeContent(shape) => shape.Some?
    case ValueContent(value) => value.Some?
  }

  /** What the operation of a change says. An element added on both sides is noted as updated. */
  ghost predicate OperationExplains(operation: Operation, base: Content, merged: Content) {
    match operation
    case Added => !Present(base) && Present(merged)
    case Deleted => Present(base) && !Present(merged)
    case Updated => Present(merged) && (Present(base) || merged.ShapeContent?)
  }

  /** What a change noted as `(operation, branch)` says about the contents at its site. */
  ghost predicate Explains(note: (Operation, Branch), base: Content, source: Content, target: Content,
                           merged: Content)
  {
    base != merged && BranchExplains(note.1, base, source, target, merged) && OperationExplains(note.0, base, merged)
  }

  lemma ElementNoteFacts(kind: ElementKind, x: Option<Element>, y: Option<Element>, z: Option<Element>)
    requires ElementNote(kind, x, y, z).Some?
    ensures Explains(ElementNote(kind, x, y, z).value, ShapeContent(ShapeOf(x)), ShapeContent(ShapeOf(y)),
                     ShapeContent(ShapeOf(z)),
                     ShapeContent(ShapeOf(MergedElement(kind, x, y, z))))
  {
    hide MergedProperties;
  }

  lemma PropertyNoteFacts(kind: ElementKind, x: Option<Element>, y: Option<Element>, z: Option<Element>, name: string)
    requires MergedInside(x, y, z) && PropertyNote(ValueOf(x, name), ValueOf(y, name), ValueOf(z, name)).Some?
    ensures Explains(PropertyNote(ValueOf(x, name), ValueOf(y, name), ValueOf(z, name)).value,
                     ValueContent(ValueOf(x, name)), ValueContent(ValueOf(y, name)), ValueContent(ValueOf(z, name)),
                     ValueContent(ValueOf(MergedElement(kind, x, y, z), name)))
  {
    hide MergedShape;
    MergedPropertyValue(PropsOf(x), y.value.properties, z.value.properties, name);
    hide MergedProperties;
  }

  lemma NoteFacts(b: Snapshot, s: Snapshot, t: Snapshot, site: Site)
    requires NoteAt(b, s, t, site).Some?
    ensures var c := NoteAt(b, s, t, site).value;
            SiteOf(c) == site
            && Explains((c.operation, c.branch), Lookup(b, site), Lookup(s, site), Lookup(t, site),
                        Lookup(MergedSnapshot(b, s, t), site))
  {
    if !site.SchemaSite? {
      var (x, y, z) := (ElementAt(b, site.kind, site.id), ElementAt(s, site.kind, site.id),
                        ElementAt(t, site.kind, site.id));
      MergedElementAt(site.kind, ElementsOf(b, site.kind), ElementsOf(s, site.kind), ElementsOf(t, site.kind), site.id);
      hide MergedElements;
      hide MergedElement;
      hide Explains;
      hide ElementNote;
      hide PropertyNote;
      hide MergedInside;
      hide ShapeOf;
      hide ValueOf;
      if site.ElementSite? {
        ElementNoteFacts(site.kind, x, y, z);
      } else {
        PropertyNoteFacts(site.kind, x, y, z, site.name);
      }
    }
  }

  /** Soundness: at the site of every listed change base and merge really differ, and its operation and branch say how
      and because of whom. */
  lemma ChangesAreReal(b: Snapshot, s: Snapshot, t: Snapshot, c: Change)
    requires c in AllNotes(b, s, t)
    ensures var site := SiteOf(c);
            var (x, y, z, m) := (Lookup(b, site), Lookup(s, site), Lookup(t, site),
                                 Lookup(MergedSnapshot(b, s, t), site));
            Explains((c.operation, c.branch), x, y, z, m)
  {
    hide NoteAt;
    hide Explains;
    hide AllNotes;
    hide Lookup;
    hide MergedSnapshot;
    hide SiteOf;
    NoteIn(b, s, t, c);
    var site :| NoteAt(b, s, t, site) == Some(c);
    NoteFacts(b, s, t, site);
  }

  // ----- which operation an element change names ----------------------------------------

  /** The preview lists a change with this operation at the site. */
  ghost predicate Lists(b: Snapshot, s: Snapshot, t: Snapshot, site: Site, operation: Operation) {
    exists c :: c in AllNotes(b, s, t) && SiteOf(c) == site && c.operation == operation
  }

  /** Only the base lacks the element, and both sides hold it with one shape that is not Go's zero value. */
  ghost predicate AddedAlike(b: Snapshot, s: Snapshot, t: Snapshot, kind: ElementKind, id: string) {
    var (x, y, z) := (ElementAt(b, kind, id), ElementAt(s, kind, id), ElementAt(t, kind, id));
    x.None? && y.Some? && z.Some? && y.value.shape == z.value.shape
    && y.value.shape != if kind == NodeKind then NodeShape("", "", []) else EdgeShape("", "", "", "")
  }

  lemma ListsNote(b: Snapshot, s: Snapshot, t: Snapshot, kind: ElementKind, id: string, operation: Operation)
    requires kind != SchemaKind
    ensures Lists(b, s, t, ElementSite(kind, id), operation) <==>
              var note := ElementNote(kind, ElementAt(b, kind, id), ElementAt(s, kind, id), ElementAt(t, kind, id));
              note.Some? && note.value.0 == operation
  {
    hide AllNotes;
    hide ElementNote;
    hide ElementAt;
    var site := ElementSite(kind, id);
    var note := NoteAt(b, s, t, site);
    if note.Some? {
      NoteIn(b, s, t, note.value);
      NoteFacts(b, s, t, site);
    }
    forall c | c in AllNotes(b, s, t) && SiteOf(c) == site ensures note == Some(c) {
      NoteIn(b, s, t, c);
      var at :| NoteAt(b, s, t, at) == Some(c);
      NoteFacts(b, s, t, at);
    }
  }

  /** An element that the base lacks is listed as updated exactly if both sides added it with the same shape, and as
      added exactly if one side did. */
  lemma NewElementListed(b: Snapshot, s: Snapshot, t: Snapshot, kind: ElementKind, id: string)
    requires kind != SchemaKind
    ensures ElementAt(b, kind, id).None? && Lists(b, s, t, ElementSite(kind, id), Updated) <==>
            AddedAlike(b, s, t, kind, id)
    ensures Lists(b, s, t, ElementSite(kind, id), Added) <==>
              ElementAt(b, kind, id).None? && (ElementAt(s, kind, id).Some? <==> ElementAt(t, kind, id).None?)
  {
    ListsNote(b, s, t, kind, id, Updated);
    ListsNote(b, s, t, kind, id, Added);
    hide Lists;
    hide ElementAt;
  }

  const NO_ELEMENTS: Snapshot := Snapshot(Schema("schema"), map[], map[])
  const ONE_NODE: Snapshot := Snapshot(Schema("schema"), map["n" := Element(NodeShape("n", "title", []), map[])], map[])

  /** A concrete merge: both sides add the same node, the merge holds it, and the preview lists it as updated. */
  lemma AddedOnBothSides()
    ensures Lists(NO_ELEMENTS, ONE_NODE, ONE_NODE, ElementSite(NodeKind, "n"), Updated)
    ensures !Lists(NO_ELEMENTS, ONE_NODE, ONE_NODE, ElementSite(NodeKind, "n"), Added)
    ensures MergedSnapshot(NO_ELEMENTS, ONE_NODE, ONE_NODE) == ONE_NODE && "n" !in NO_ELEMENTS.nodes
  {
    NewElementListed(NO_ELEMENTS, ONE_NODE, ONE_NODE, NodeKind, "n");
    hide Lists;
    var properties: Properties := map[];
    assert MergedProperties(properties, properties, properties) == properties;
    assert MergedElement(NodeKind, None, Some(ONE_NODE.nodes["n"]), Some(ONE_NODE.nodes["n"])) ==
      Some(ONE_NODE.nodes["n"]);
    assert MergedElements(NodeKind, map[], ONE_NODE.nodes, ONE_NODE.nodes) == ONE_NODE.nodes;
  }

  /** Some listed change covers the site: its own, or the addition or removal of its whole element. */
  ghost predicate CoveredBy(c: Change, site: Site) {
    || SiteOf(c) == site
    || (site.PropertySite? && SiteOf(c) == ElementSite(site.kind, site.id) && c.operation != Updated)
  }

  /** Both sides added an element whose shape is Go's zero value. No snapshot with non-empty ids has one. */
  ghost predicate ZeroAdded(b: Snapshot, s: Snapshot, site: Site) {
    site.ElementSite? && ElementAt(b, site.kind, site.id).None?
      && ShapeOf(ElementAt(s, site.kind, site.id)) == Some(ZeroShape(site.kind))
  }

  lemma ElementNoteExists(kind: ElementKind, x: Option<Element>, y: Option<Element>, z: Option<Element>)
    requires !ElementConflicted(x, y, z) && ShapeOf(x) != Merge3(ShapeOf(x), ShapeOf(y), ShapeOf(z))
    ensures ElementNote(kind, x, y, z).Some? || (x.None? && ShapeOf(y) == Some(ZeroShape(kind)))
  {
    ClashIsConflict(kind, x, y, z);
  }

  lemma PropertyNoteExists(kind: ElementKind, x: Option<Element>, y: Option<Element>, z: Option<Element>, name: string)
    requires !ElementConflicted(x, y, z) && !ValueConflicted(x, y, z, name)
    requires ValueOf(x, name) != Merge3(ValueOf(x, name), ValueOf(y, name), ValueOf(z, name))
    ensures || (MergedInside(x, y, z) && PropertyNote(ValueOf(x, name), ValueOf(y, name), ValueOf(z, name)).Some?)
            || (ElementNote(kind, x, y, z).Some? && ElementNote(kind, x, y, z).value.0 != Updated)
  {
    ClashIsConflict(kind, x, y, z);
    hide MergedShape;
  }

  lemma NoteExists(b: Snapshot, s: Snapshot, t: Snapshot, site: Site)
    requires Settled(b, s, t, site) && Lookup(b, site) != Lookup(MergedSnapshot(b, s, t), site)
    ensures || NoteAt(b, s, t, site).Some?
            || (site.PropertySite? && NoteAt(b, s, t, ElementSite(site.kind, site.id)).Some?
                && NoteAt(b, s, t, ElementSite(site.kind, site.id)).value.operation != Updated)
            || ZeroAdded(b, s, site)
  {
    MergePointwise(b, s, t, site);
    hide MergedSnapshot;
    if !site.SchemaSite? {
      var (x, y, z) := (ElementAt(b, site.kind, site.id), ElementAt(s, site.kind, site.id),
                        ElementAt(t, site.kind, site.id));
      hide ElementNote;
      hide PropertyNote;
      hide ElementConflicted;
      hide ValueConflicted;
      hide MergedInside;
      hide ShapeOf;
      hide ValueOf;
      if site.ElementSite? {
        ElementNoteExists(site.kind, x, y, z);
      } else {
        PropertyNoteExists(site.kind, x, y, z, site.name);
      }
    }
  }

  /** Completeness: every settled site where base and merge differ is covered by a listed change. */
  lemma DifferencesAreListed(b: Snapshot, s: Snapshot, t: Snapshot, site: Site) returns (c: Change)
    requires Settled(b, s, t, site) && Lookup(b, site) != Lookup(MergedSnapshot(b, s, t), site)
             && !ZeroAdded(b, s, site)
    ensures c in AllNotes(b, s, t) && CoveredBy(c, site)
  {
    hide NoteAt;
    hide AllNotes;
    hide Lookup;
    hide MergedSnapshot;
    hide ZeroAdded;
    NoteExists(b, s, t, site);
    var at := if NoteAt(b, s, t, site).Some? then site else ElementSite(site.kind, site.id);
    c := NoteAt(b, s, t, at).value;
    NoteIn(b, s, t, c);
    NoteFacts(b, s, t, at);
  }
}
