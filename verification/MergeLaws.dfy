// What a three-way merge means, site by site: the schema, the shape of each element, each of its properties.
module MergeLaws {
  import opened Wrappers
  import opened Ordering
  import opened ThreeWayMerge

  datatype Site = SchemaSite | ElementSite(kind: ElementKind, id: string) | PropertySite(kind: ElementKind, id: string,
    name: string)

  /** What a snapshot holds at a site; an element that is absent has no shape and no properties. */
  datatype Content =
    | SchemaContent(schema: Schema)
    | ShapeContent(shape: Option<Shape>)
    | ValueContent(value: Option<PropertyValue>)

  function ElementsOf(snapshot: Snapshot, kind: ElementKind): Elements {
    if kind == NodeKind then snapshot.nodes else snapshot.edges
  }

  function ElementAt(snapshot: Snapshot, kind: ElementKind, id: string): Option<Element> {
    Get(ElementsOf(snapshot, kind), id)
  }

  function ShapeOf(e: Option<Element>): Option<Shape> {
    if e.Some? then Some(e.value.shape) else None
  }

  function ValueOf(e: Option<Element>, name: string): Option<PropertyValue> {
    Get(PropsOf(e), name)
  }

  function Lookup(snapshot: Snapshot, site: Site): Content {
    match site
    case SchemaSite => SchemaContent(snapshot.schema)
    case ElementSite(kind, id) => ShapeContent(ShapeOf(ElementAt(snapshot, kind, id)))
    case PropertySite(kind, id, name) => ValueContent(ValueOf(ElementAt(snapshot, kind, id), name))
  }

  // ----- which sites conflict -----------------------------------------------------------

  /** One side deleted an element the other side changed, or both sides changed its shape differently. */
  ghost predicate ElementConflicted(base: Option<Element>, source: Option<Element>, target: Option<Element>) {
    || (base.Some? && source.None? && target.Some? && target != base)
    || (base.Some? && target.None? && source.Some? && source != base)
    || (source.Some? && target.Some? && Clash(ShapeOf(base), ShapeOf(source), ShapeOf(target)))
  }

  ghost predicate ValueConflicted(base: Option<Element>, source: Option<Element>, target: Option<Element>,
                                  name: string)
  {
    && source.Some? && target.Some? && (base.Some? || source.value.shape == target.value.shape)
    && Clash(ValueOf(base, name), ValueOf(source, name), ValueOf(target, name))
  }

  ghost predicate ConflictSite(b: Snapshot, s: Snapshot, t: Snapshot, site: Site) {
    match site
    case SchemaSite => Clash(b.schema, s.schema, t.schema)
    case ElementSite(kind, id) => kind != SchemaKind
      && ElementConflicted(ElementAt(b, kind, id), ElementAt(s, kind, id), ElementAt(t, kind, id))
    case PropertySite(kind, id, name) =>
      kind != SchemaKind && ValueConflicted(ElementAt(b, kind, id), ElementAt(s, kind, id), ElementAt(t, kind, id),
                                            name)
  }

  ghost predicate ConflictFree(b: Snapshot, s: Snapshot, t: Snapshot) {
    forall site :: !ConflictSite(b, s, t, site)
  }

  /** The conflict a preview reports for a site. */
  ghost function ConflictAt(b: Snapshot, s: Snapshot, t: Snapshot, site: Site): Conflict {
    match site
    case SchemaSite => ConflictOf(SchemaConflict, SchemaKind, "", "")
    case ElementSite(kind, id) =>
      ConflictOf(if ElementAt(s, kind, id).None? || ElementAt(t, kind, id).None? then DeleteUpdate
        else Structural, kind, id, "")
    case PropertySite(kind, id, name) => ConflictOf(PropertyConflict, kind, id, name)
  }

  // ----- pointwise meaning --------------------------------------------------------------

  /** ElementClash finds exactly the declared element conflicts. */
  lemma ClashIsConflict(kind: ElementKind, base: Option<Element>, source: Option<Element>, target: Option<Element>)
    ensures ElementClash(kind, base, source, target).Some? <==> ElementConflicted(base, source, target)
    ensures ElementConflicted(base, source, target) ==>
              ElementClash(kind, base, source, target).value == if source.None? || target.None? then DeleteUpdate
                else Structural
  {}

  lemma MergedPropertyValue(base: Properties, source: Properties, target: Properties, name: string)
    ensures Get(MergedProperties(base, source, target), name) ==
            MergeValue(Get(base, name), Get(source, name), Get(target, name)).value
  {}

  lemma MergedElementAt(kind: ElementKind, base: Elements, source: Elements, target: Elements, id: string)
    ensures Get(MergedElements(kind, base, source, target), id) ==
            MergedElement(kind, Get(base, id), Get(source, id), Get(target, id))
  {}

  /** Shape and properties of one element that is not in conflict. */
  lemma ElementPointwise(kind: ElementKind, base: Option<Element>, source: Option<Element>, target: Option<Element>,
                         name: string)
    requires !ElementConflicted(base, source, target)
    ensures var m := MergedElement(kind, base, source, target);
            && ShapeOf(m) == Merge3(ShapeOf(base), ShapeOf(source), ShapeOf(target))
            && (!ValueConflicted(base, source, target, name) ==>
                  ValueOf(m, name) == Merge3(ValueOf(base, name), ValueOf(source, name), ValueOf(target, name)))
  {
    ClashIsConflict(kind, base, source, target);
    if MergedInside(base, source, target) {
      MergedPropertyValue(PropsOf(base), source.value.properties, target.value.properties, name);
    }
  }

  /** The element a site belongs to is not in conflict as a whole, and neither is the site itself. */
  ghost predicate Settled(b: Snapshot, s: Snapshot, t: Snapshot, site: Site) {
    && !ConflictSite(b, s, t, site)
    && (site.PropertySite? ==> !ConflictSite(b, s, t, ElementSite(site.kind, site.id)))
    && (site.SchemaSite? || site.kind != SchemaKind)
  }

  /** At every settled site the merge holds the value of the side that changed it. */
  lemma MergePointwise(b: Snapshot, s: Snapshot, t: Snapshot, site: Site)
    requires Settled(b, s, t, site)
    ensures Lookup(MergedSnapshot(b, s, t), site) == Merge3(Lookup(b, site), Lookup(s, site), Lookup(t, site))
  {
    if !site.SchemaSite? {
      MergedElementAt(site.kind, ElementsOf(b, site.kind), ElementsOf(s, site.kind), ElementsOf(t, site.kind), site.id);
      ElementPointwise(site.kind, ElementAt(b, site.kind, site.id), ElementAt(s, site.kind, site.id),
                       ElementAt(t, site.kind, site.id),
                       if site.PropertySite? then site.name else "");
    }
  }

  /** A conflict site provisionally holds the target's value. */
  lemma ConflictKeepsTarget(b: Snapshot, s: Snapshot, t: Snapshot, site: Site)
    requires ConflictSite(b, s, t, site)
    ensures Lookup(MergedSnapshot(b, s, t), site) == Lookup(t, site)
  {
    if !site.SchemaSite? {
      MergedElementAt(site.kind, ElementsOf(b, site.kind), ElementsOf(s, site.kind), ElementsOf(t, site.kind), site.id);
      var base, source, target := ElementAt(b, site.kind, site.id), ElementAt(s, site.kind, site.id),
        ElementAt(t, site.kind, site.id);
      ClashIsConflict(site.kind, base, source, target);
      if site.PropertySite? {
        MergedPropertyValue(PropsOf(base), source.value.properties, target.value.properties, site.name);
      }
    }
  }

  // ----- algebraic laws -----------------------------------------------------------------

  lemma ElementLaws(kind: ElementKind, b: Option<Element>, s: Option<Element>)
    ensures MergedElement(kind, b, b, s) == s && MergedElement(kind, b, s, b) == s && MergedElement(kind, b, s, s) == s
    ensures !ElementConflicted(b, b, s) && !ElementConflicted(b, s, b) && !ElementConflicted(b, s, s)
  {
    ClashIsConflict(kind, b, b, s);
    ClashIsConflict(kind, b, s, b);
    ClashIsConflict(kind, b, s, s);
    if s.Some? {
      var p := s.value.properties;
      forall name
        ensures Get(MergedProperties(PropsOf(b), PropsOf(b), p), name) == Get(p, name)
        ensures Get(MergedProperties(PropsOf(b), p, PropsOf(b)), name) == Get(p, name)
        ensures Get(MergedProperties(PropsOf(b), p, p), name) == Get(p, name)
      {
        MergedPropertyValue(PropsOf(b), PropsOf(b), p, name);
        MergedPropertyValue(PropsOf(b), p, PropsOf(b), name);
        MergedPropertyValue(PropsOf(b), p, p, name);
      }
      SameMap(MergedProperties(PropsOf(b), PropsOf(b), p), p);
      SameMap(MergedProperties(PropsOf(b), p, PropsOf(b)), p);
      SameMap(MergedProperties(PropsOf(b), p, p), p);
    }
  }

  lemma SameMap<V>(m: map<string, V>, n: map<string, V>)
    requires forall key :: Get(m, key) == Get(n, key)
    ensures m == n
  {
    forall key ensures (key in m <==> key in n) && (key in m ==> m[key] == n[key]) {
      assert Get(m, key) == Get(n, key);
    }
  }

  lemma ElementsLaws(kind: ElementKind, b: Elements, s: Elements)
    ensures MergedElements(kind, b, b, s) == s && MergedElements(kind, b, s, b) == s
            && MergedElements(kind, b, s, s) == s
  {
    hide MergedElement;
    hide MergedElements;
    forall id
      ensures Get(MergedElements(kind, b, b, s), id) == Get(s, id)
      ensures Get(MergedElements(kind, b, s, b), id) == Get(s, id)
      ensures Get(MergedElements(kind, b, s, s), id) == Get(s, id)
    {
      MergedElementAt(kind, b, b, s, id);
      MergedElementAt(kind, b, s, b, id);
      MergedElementAt(kind, b, s, s, id);
      ElementLaws(kind, Get(b, id), Get(s, id));
    }
    SameMap(MergedElements(kind, b, b, s), s);
    SameMap(MergedElements(kind, b, s, b), s);
    SameMap(MergedElements(kind, b, s, s), s);
  }

  /** A side that changed nothing takes over the other; equal sides merge to themselves; none of these conflicts. */
  lemma MergeIdentities(b: Snapshot, s: Snapshot)
    ensures MergedSnapshot(b, b, s) == s && MergedSnapshot(b, s, b) == s && MergedSnapshot(b, s, s) == s
    ensures ConflictFree(b, b, s) && ConflictFree(b, s, b) && ConflictFree(b, s, s)
  {
    ElementsLaws(NodeKind, b.nodes, s.nodes);
    ElementsLaws(EdgeKind, b.edges, s.edges);
  }

  lemma ElementSwap(kind: ElementKind, b: Option<Element>, s: Option<Element>, t: Option<Element>)
    requires !ElementConflicted(b, s, t) && forall name :: !ValueConflicted(b, s, t, name)
    ensures MergedElement(kind, b, s, t) == MergedElement(kind, b, t, s)
  {
    ClashIsConflict(kind, b, s, t);
    ClashIsConflict(kind, b, t, s);
    if MergedInside(b, s, t) {
      var (p, q, r) := (PropsOf(b), s.value.properties, t.value.properties);
      forall name ensures Get(MergedProperties(p, q, r), name) == Get(MergedProperties(p, r, q), name) {
        assert !ValueConflicted(b, s, t, name);
        MergedPropertyValue(p, q, r, name);
        MergedPropertyValue(p, r, q, name);
      }
      SameMap(MergedProperties(p, q, r), MergedProperties(p, r, q));
    }
  }

  lemma ElementsSwap(kind: ElementKind, b: Snapshot, s: Snapshot, t: Snapshot)
    requires ConflictFree(b, s, t) && kind != SchemaKind
    ensures MergedElements(kind, ElementsOf(b, kind), ElementsOf(s, kind), ElementsOf(t, kind))
            == MergedElements(kind, ElementsOf(b, kind), ElementsOf(t, kind), ElementsOf(s, kind))
  {
    hide MergedElement;
    hide MergedElements;
    hide ElementConflicted;
    hide ValueConflicted;
    var (x, y, z) := (ElementsOf(b, kind), ElementsOf(s, kind), ElementsOf(t, kind));
    forall id ensures Get(MergedElements(kind, x, y, z), id) == Get(MergedElements(kind, x, z, y), id) {
      MergedElementAt(kind, x, y, z, id);
      MergedElementAt(kind, x, z, y, id);
      assert !ConflictSite(b, s, t, ElementSite(kind, id));
      forall name ensures !ValueConflicted(Get(x, id), Get(y, id), Get(z, id), name) {
        assert !ConflictSite(b, s, t, PropertySite(kind, id, name));
      }
      ElementSwap(kind, Get(x, id), Get(y, id), Get(z, id));
    }
    SameMap(MergedElements(kind, x, y, z), MergedElements(kind, x, z, y));
  }

  /** Swapping source and target keeps the conflict sites and their tokens, and a conflict-free result. */
  lemma MergeSwap(b: Snapshot, s: Snapshot, t: Snapshot)
    ensures forall site :: ConflictSite(b, s, t, site) <==> ConflictSite(b, t, s, site)
    ensures forall site :: ConflictSite(b, s, t, site) ==> ConflictAt(b, s, t, site) == ConflictAt(b, t, s, site)
    ensures ConflictFree(b, s, t) ==> MergedSnapshot(b, s, t) == MergedSnapshot(b, t, s)
  {
    hide ConflictOf;
    hide MergedElements;
    if ConflictFree(b, s, t) {
      ElementsSwap(NodeKind, b, s, t);
      ElementsSwap(EdgeKind, b, s, t);
      assert !ConflictSite(b, s, t, SchemaSite);
    }
  }
}
