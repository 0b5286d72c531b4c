// Three-way graph merge previews (internal/server/review/engine.go). Schema validation, which the graph
// contract does, is a parameter.
module ThreeWayMerge {
  import opened Wrappers
  import opened Ordering

  datatype Schema = Schema(definition: string)
  datatype PropertyValue = Text(text: string) | Number(number: int) | Flag(flag: bool)
  type Properties = map<string, PropertyValue>

  /** A node or an edge without its properties. */
  datatype Shape =
    | NodeShape(id: string, title: string, labels: seq<string>)
    | EdgeShape(id: string, source: string, target: string, edgeType: string)

  datatype Element = Element(shape: Shape, properties: Properties)
  type Elements = map<string, Element>
  datatype Snapshot = Snapshot(schema: Schema, nodes: Elements, edges: Elements)

  datatype ElementKind = NodeKind | EdgeKind | SchemaKind
  datatype Branch = FromSource | FromTarget | FromBoth
  datatype ChangeKind = ElementChange | PropertyChange | SchemaChange
  datatype Operation = Added | Updated | Deleted
  datatype Change = Change(kind: ChangeKind, operation: Operation, element: ElementKind, id: string, property: string,
                           branch: Branch)
  datatype ConflictType = PropertyConflict | DeleteUpdate | Structural | SchemaConflict | Cardinality
  datatype Conflict = Conflict(token: string, conflictType: ConflictType, element: ElementKind, id: string,
                               property: string)

  /** The graph contract's verdict on a merged snapshot: violation codes, or an error of another kind. */
  datatype Validation = Accepted | Violated(codes: seq<string>) | Failed

  // ----- values -------------------------------------------------------------------------

  /** The side that changed wins. */
  function Merge3<T(==)>(base: T, source: T, target: T): T {
    if source == base then target else source
  }

  /** Both sides changed, differently. */
  predicate Clash<T(==)>(base: T, source: T, target: T) {
    source != base && target != base && source != target
  }

  datatype Merged<T> = Merged(value: T, branch: Branch, conflict: bool)

  /** mergeValue; on optional values it is mergeOptional. */
  function MergeValue<T(==)>(base: T, source: T, target: T): (m: Merged<T>)
    ensures m.conflict <==> Clash(base, source, target)
    ensures m.value == if m.conflict then target else Merge3(base, source, target)
    ensures !m.conflict && m.branch == FromSource ==> target == base != m.value
    ensures !m.conflict && m.branch == FromTarget ==> source == base
    ensures !m.conflict && m.branch == FromBoth ==> source == target != base
  {
    if source == base then Merged(target, FromTarget, false)
    else if target == base then Merged(source, FromSource, false)
    else if source == target then Merged(source, FromBoth, false)
    else Merged(target, FromBoth, true)
  }

  function Get<V>(m: map<string, V>, key: string): Option<V> {
    if key in m then Some(m[key]) else None
  }

  function PropsOf(e: Option<Element>): Properties {
    if e.Some? then e.value.properties else map[]
  }

  /** Go's zero value of the element type. */
  function ZeroShape(kind: ElementKind): Shape {
    if kind == NodeKind then NodeShape("", "", []) else EdgeShape("", "", "", "")
  }

  function BaseShape(kind: ElementKind, base: Option<Element>): Shape {
    if base.Some? then base.value.shape else ZeroShape(kind)
  }

  // ----- elements -----------------------------------------------------------------------

  /** Both sides have the element and agree on what it is, so it is merged field by field. */
  predicate MergedInside(base: Option<Element>, source: Option<Element>, target: Option<Element>) {
    source.Some? && target.Some? && (base.Some? || source.value.shape == target.value.shape)
  }

  function MergedProperties(base: Properties, source: Properties, target: Properties): Properties {
    map name | name in base.Keys + source.Keys + target.Keys
               && MergeValue(Get(base, name), Get(source, name), Get(target, name)).value.Some? ::
      MergeValue(Get(base, name), Get(source, name), Get(target, name)).value.value
  }

  function MergedShape(kind: ElementKind, base: Option<Element>, source: Element, target: Element): Merged<Shape> {
    MergeValue(BaseShape(kind, base), source.shape, target.shape)
  }

  /** The conflict about the element as a whole. */
  function ElementClash(kind: ElementKind, base: Option<Element>, source: Option<Element>,
                        target: Option<Element>): Option<ConflictType>
  {
    if base.Some? && source.None? && target.Some? && base != target then Some(DeleteUpdate)
    else if base.Some? && source.Some? && target.None? && base != source then Some(DeleteUpdate)
    else if base.None? && source.Some? && target.Some? && source.value.shape != target.value.shape then Some(Structural)
    else if MergedInside(base, source, target)
      && MergedShape(kind, base, source.value, target.value).conflict then Some(Structural)
    else None
  }

  function MergedElement(kind: ElementKind, base: Option<Element>, source: Option<Element>,
                         target: Option<Element>): Option<Element>
  {
    if MergedInside(base, source, target) then
      Some(Element(MergedShape(kind, base, source.value, target.value).value,
                   MergedProperties(PropsOf(base), source.value.properties, target.value.properties)))
    else if ElementClash(kind, base, source, target).Some? then target
    else Merge3(base, source, target)
  }

  /** What the preview lists about the element as a whole. */
  function ElementNote(kind: ElementKind, base: Option<Element>, source: Option<Element>,
                       target: Option<Element>): Option<(Operation, Branch)>
  {
    if ElementClash(kind, base, source, target).Some? then None
    else if base.None? && source.Some? && target.None? then Some((Added, FromSource))
    else if base.None? && source.None? && target.Some? then Some((Added, FromTarget))
    else if base.Some? && source.None? && target.None? then Some((Deleted, FromBoth))
    else if base.Some? && source.None? then Some((Deleted, FromSource))
    else if base.Some? && target.None? then Some((Deleted, FromTarget))
    else if MergedInside(base, source, target)
      && MergedShape(kind, base, source.value, target.value).value != BaseShape(kind, base) then
      Some((Updated, MergedShape(kind, base, source.value, target.value).branch))
    else None
  }

  function MergedElements(kind: ElementKind, base: Elements, source: Elements, target: Elements): Elements {
    map id | id in base.Keys + source.Keys + target.Keys
      && MergedElement(kind, Get(base, id), Get(source, id), Get(target, id)).Some? ::
      MergedElement(kind, Get(base, id), Get(source, id), Get(target, id)).value
  }

  function MergedSnapshot(base: Snapshot, source: Snapshot, target: Snapshot): Snapshot {
    Snapshot(MergeValue(base.schema, source.schema, target.schema).value,
             MergedElements(NodeKind, base.nodes, source.nodes, target.nodes),
             MergedElements(EdgeKind, base.edges, source.edges, target.edges))
  }

  // ----- tokens -------------------------------------------------------------------------

  function TypeName(t: ConflictType): string {
    match t
    case PropertyConflict => "property"
    case DeleteUpdate => "delete_update"
    case Structural => "structural"
    case SchemaConflict => "schema"
    case Cardinality => "cardinality"
  }

  function KindName(k: ElementKind): string {
    match k
    case NodeKind => "node"
    case EdgeKind => "edge"
    case SchemaKind => "schema"
  }

  function Suffix(part: string): string { if part == "" then "" else ":" + part }

  function Token(t: ConflictType, kind: ElementKind, id: string, property: string): string {
    TypeName(t) + ":" + KindName(kind) + Suffix(id) + Suffix(property)
  }

  function ConflictOf(t: ConflictType, kind: ElementKind, id: string, property: string): Conflict {
    Conflict(Token(t, kind, id, property), t, kind, id, property)
  }

  function TokenOf(c: Conflict): string { c.token }

  /** addConflict: a token that is already listed is not listed again. */
  function Add(cs: seq<Conflict>, c: Conflict): (r: seq<Conflict>)
    ensures cs <= r && (exists i :: 0 <= i < |r| && r[i].token == c.token)
  {
    if exists i | 0 <= i < |cs| :: cs[i].token == c.token then cs
    else
      assert (cs + [c])[|cs|].token == c.token;
      cs + [c]
  }

  function AddAll(cs: seq<Conflict>, more: seq<Conflict>): seq<Conflict> {
    if more == [] then cs else Add(AddAll(cs, more[..|more| - 1]), more[|more| - 1])
  }

  lemma {:induction false} AddAllConcat(cs: seq<Conflict>, a: seq<Conflict>, b: seq<Conflict>)
    ensures AddAll(cs, a + b) == AddAll(AddAll(cs, a), b)
    decreases |b|
  {
    if b == [] {
      assert a + b == a;
    } else {
      AddAllConcat(cs, a, b[..|b| - 1]);
      assert (a + b)[..|a + b| - 1] == a + b[..|b| - 1];
    }
  }

  lemma AddAllOne(cs: seq<Conflict>, c: Conflict)
    ensures AddAll(cs, [c]) == Add(cs, c)
  {
    assert [c][..0] == [];
  }

  // ----- what a preview lists -----------------------------------------------------------

  function PropertyNote(base: Option<PropertyValue>, source: Option<PropertyValue>,
                        target: Option<PropertyValue>): Option<(Operation, Branch)>
  {
    var m := MergeValue(base, source, target);
    if m.conflict || m.value == base then None
    else Some((if base.None? then Added else if m.value.None? then Deleted else Updated, m.branch))
  }

  /** The clean property changes of one element, over the first names of the sorted list. */
  function PropertyNotes(kind: ElementKind, id: string, base: Properties, source: Properties, target: Properties,
                         names: seq<string>): seq<Change>
  {
    if names == [] then []
    else
      var name := names[|names| - 1];
      var note := PropertyNote(Get(base, name), Get(source, name), Get(target, name));
      PropertyNotes(kind, id, base, source, target, names[..|names| - 1])
        + if note.Some? then [Change(PropertyChange, note.value.0, kind, id, name, note.value.1)] else []
  }

  function PropertyClashes(kind: ElementKind, id: string, base: Properties, source: Properties, target: Properties,
                           names: seq<string>): seq<Conflict>
  {
    if names == [] then []
    else
      var name := names[|names| - 1];
      PropertyClashes(kind, id, base, source, target, names[..|names| - 1])
        + if Clash(Get(base, name), Get(source, name), Get(target, name))
          then [ConflictOf(PropertyConflict, kind, id, name)] else []
  }

  ghost function Names<V>(a: map<string, V>, b: map<string, V>, c: map<string, V>): seq<string> {
    SortedList(a.Keys + b.Keys + c.Keys)
  }

  ghost function ElementNotes(kind: ElementKind, id: string, base: Option<Element>, source: Option<Element>,
                              target: Option<Element>): seq<Change>
  {
    (var note := ElementNote(kind, base, source, target);
     if note.Some? then [Change(ElementChange, note.value.0, kind, id, "", note.value.1)] else [])
      + if MergedInside(base, source, target) then
          var (b, s, t) := (PropsOf(base), source.value.properties, target.value.properties);
          PropertyNotes(kind, id, b, s, t, Names(b, s, t))
        else []
  }

  ghost function ElementConflicts(kind: ElementKind, id: string, base: Option<Element>, source: Option<Element>,
                                  target: Option<Element>): seq<Conflict>
  {
    (var clash := ElementClash(kind, base, source, target);
     if clash.Some? then [ConflictOf(clash.value, kind, id, "")] else [])
      + if MergedInside(base, source, target) then
          var (b, s, t) := (PropsOf(base), source.value.properties, target.value.properties);
          PropertyClashes(kind, id, b, s, t, Names(b, s, t))
        else []
  }

  ghost function ElementsNotes(kind: ElementKind, base: Elements, source: Elements, target: Elements,
                               ids: seq<string>): seq<Change>
  {
    if ids == [] then []
    else
      var id := ids[|ids| - 1];
      ElementsNotes(kind, base, source, target, ids[..|ids| - 1])
        + ElementNotes(kind, id, Get(base, id), Get(source, id), Get(target, id))
  }

  ghost function ElementsConflicts(kind: ElementKind, base: Elements, source: Elements, target: Elements,
                                   ids: seq<string>): seq<Conflict>
  {
    if ids == [] then []
    else
      var id := ids[|ids| - 1];
      ElementsConflicts(kind, base, source, target, ids[..|ids| - 1])
        + ElementConflicts(kind, id, Get(base, id), Get(source, id), Get(target, id))
  }

  ghost function AllNotes(base: Snapshot, source: Snapshot, target: Snapshot): seq<Change> {
    (var m := MergeValue(base.schema, source.schema, target.schema);
     if m.conflict || m.value == base.schema then [] else [Change(SchemaChange, Updated, SchemaKind, "", "", m.branch)])
      + ElementsNotes(NodeKind, base.nodes, source.nodes, target.nodes, Names(base.nodes, source.nodes, target.nodes))
      + ElementsNotes(EdgeKind, base.edges, source.edges, target.edges, Names(base.edges, source.edges, target.edges))
  }

  ghost function AllConflicts(base: Snapshot, source: Snapshot, target: Snapshot): seq<Conflict> {
    (if Clash(base.schema, source.schema, target.schema) then [ConflictOf(SchemaConflict, SchemaKind, "", "")] else [])
      + ElementsConflicts(NodeKind, base.nodes, source.nodes, target.nodes,
                          Names(base.nodes, source.nodes, target.nodes))
      + ElementsConflicts(EdgeKind, base.edges, source.edges, target.edges,
                          Names(base.edges, source.edges, target.edges))
  }

  predicate MentionsAt(code: string, part: string, i: nat) {
    i + |part| <= |code| && code[i..i + |part|] == part
  }

  /** strings.Contains. */
  predicate Mentions(code: string, part: string) {
    exists i | 0 <= i <= |code| :: MentionsAt(code, part, i)
  }

  /** `part` occurs in `code`. */
  ghost predicate Contains(code: string, part: string) {
    exists pre: string, post: string :: code == pre + part + post
  }

  /** What strings.Contains finds out. */
  lemma MentionsExactly(code: string, part: string)
    ensures Mentions(code, part) <==> Contains(code, part)
  {
    if Mentions(code, part) {
      var i :| 0 <= i <= |code| && MentionsAt(code, part, i);
      assert code == code[..i] + part + code[i + |part|..];
    }
    if Contains(code, part) {
      var pre, post :| code == pre + part + post;
      assert code[|pre|..|pre| + |part|] == part;
      assert MentionsAt(code, part, |pre|);
    }
  }

  /** validateMergedSchema: only cardinality violations make a cardinality conflict. */
  function ValidationConflict(v: Validation): Option<ConflictType> {
    match v
    case Accepted => None
    case Failed => Some(SchemaConflict)
    case Violated(codes) => if forall c | c in codes :: Mentions(c, "cardinality") then Some(Cardinality)
                                                        else Some(SchemaConflict)
  }

  ghost function ListedConflicts(base: Snapshot, source: Snapshot, target: Snapshot,
                                 validate: Snapshot -> Validation): seq<Conflict>
  {
    var found := AddAll([], AllConflicts(base, source, target));
    var late := ValidationConflict(validate(MergedSnapshot(base, source, target)));
    if found == [] && late.Some? then [ConflictOf(late.value, SchemaKind, "", "")] else found
  }

  function BranchName(b: Branch): string {
    match b
    case FromSource => "source"
    case FromTarget => "target"
    case FromBoth => "both"
  }

  function OperationName(o: Operation): string {
    match o
    case Added => "added"
    case Updated => "updated"
    case Deleted => "deleted"
  }

  function ChangeKindName(k: ChangeKind): string {
    match k
    case ElementChange => "element"
    case PropertyChange => "property"
    case SchemaChange => "schema"
  }

  const NUL: string := [0 as char]

  /** The comparison key of sortChanges. */
  function ChangeKey(c: Change): string {
    ChangeKindName(c.kind) + NUL + KindName(c.element) + NUL + c.id + NUL + c.property + NUL
      + OperationName(c.operation) + NUL + BranchName(c.branch)
  }

  // ----- the preview --------------------------------------------------------------------

  method BuildToken(t: ConflictType, element: ElementKind, id: string, property: string) returns (token: string)
    ensures token == Token(t, element, id, property)
  {
    hide TypeName;
    hide KindName;
    token := TypeName(t) + ":" + KindName(element);
    if id != "" {
      token := token + (":" + id);
    }
    if property != "" {
      token := token + (":" + property);
    }
  }

  class Preview {
    var cleanChanges: seq<Change>
    var conflicts: seq<Conflict>
    var violations: seq<string>
    var hasConflicts: bool
    var required: seq<string>      // the resolution requirements, by token

    constructor ()
      ensures Valid() && cleanChanges == [] && conflicts == [] && violations == []
    {
      cleanChanges, conflicts, violations, hasConflicts, required := [], [], [], false, [];
    }

    /** Every listed conflict has its own token and exactly one requirement. */
    ghost predicate Valid()
      reads this`hasConflicts, this`conflicts, this`required
    {
      && (hasConflicts <==> conflicts != [])
      && |required| == |conflicts| && (forall i :: 0 <= i < |conflicts| ==> required[i] == conflicts[i].token)
      && (forall i, j :: 0 <= i < j < |conflicts| ==> conflicts[i].token != conflicts[j].token)
    }

    method AddElementChange(kind: ElementKind, id: string, operation: Operation, branch: Branch)
      modifies this`cleanChanges
      ensures cleanChanges == old(cleanChanges) + [Change(ElementChange, operation, kind, id, "", branch)]
    {
      cleanChanges := cleanChanges + [Change(ElementChange, operation, kind, id, "", branch)];
    }

    method AddConflict(t: ConflictType, element: ElementKind, id: string, property: string)
      requires Valid()
      modifies this`conflicts, this`hasConflicts, this`required
      ensures Valid() && conflicts == Add(old(conflicts), ConflictOf(t, element, id, property))
    {
      hide Token;
      var token := BuildToken(t, element, id, property);
      for i := 0 to |conflicts|
        invariant forall j :: 0 <= j < i ==> conflicts[j].token != token
        invariant Valid() && conflicts == old(conflicts)
      {
        if conflicts[i].token == token {
          return;
        }
      }
      hasConflicts := true;
      conflicts := conflicts + [Conflict(token, t, element, id, property)];
      required := required + [token];
    }
  }

  method SortedNames<V>(base: map<string, V>, source: map<string, V>, target: map<string, V>)
    returns (names: seq<string>)
    ensures names == Names(base, source, target)
    ensures forall n :: n in names <==> n in base.Keys + source.Keys + target.Keys
  {
    names := ToSortedSeq(base.Keys + source.Keys + target.Keys);
    StrictlySortedUnique(names, Names(base, source, target));
  }

  /** The merged map over the names handled so far. */
  ghost predicate PropertiesSoFar(base: Properties, source: Properties, target: Properties, handled: seq<string>,
                                  merged: Properties)
  {
    && (forall n :: n in merged <==>
                    n in handled && MergeValue(Get(base, n), Get(source, n), Get(target, n)).value.Some?)
    && (forall n :: n in merged ==> Some(merged[n]) == MergeValue(Get(base, n), Get(source, n), Get(target, n)).value)
  }

  lemma PropertiesStep(base: Properties, source: Properties, target: Properties, handled: seq<string>,
                       merged: Properties, name: string)
    requires PropertiesSoFar(base, source, target, handled, merged) && name !in handled
    ensures var m := MergeValue(Get(base, name), Get(source, name), Get(target, name)).value;
            PropertiesSoFar(base, source, target, handled + [name], if m.Some? then merged[name := m.value] else merged)
  {
    hide MergeValue;
    hide Get;
  }

  lemma PropertiesDone(base: Properties, source: Properties, target: Properties, names: seq<string>, merged: Properties)
    requires PropertiesSoFar(base, source, target, names, merged)
    requires forall n :: n in names <==> n in base.Keys + source.Keys + target.Keys
    ensures merged == MergedProperties(base, source, target)
  {
    hide MergeValue;
    hide Get;
  }

  lemma PropertyListsStep(kind: ElementKind, id: string, base: Properties, source: Properties, target: Properties,
                          names: seq<string>, i: nat, cs: seq<Conflict>)
    requires i < |names|
    ensures var name := names[i];
            var note := PropertyNote(Get(base, name), Get(source, name), Get(target, name));
            PropertyNotes(kind, id, base, source, target, names[..i + 1])
              == PropertyNotes(kind, id, base, source, target, names[..i])
                 + if note.Some? then [Change(PropertyChange, note.value.0, kind, id, name, note.value.1)] else []
    ensures var name := names[i];
            var before := AddAll(cs, PropertyClashes(kind, id, base, source, target, names[..i]));
            AddAll(cs, PropertyClashes(kind, id, base, source, target, names[..i + 1]))
              == if Clash(Get(base, name), Get(source, name), Get(target, name))
                then Add(before, ConflictOf(PropertyConflict, kind, id, name)) else before
  {
    hide PropertyNote;
    hide Clash;
    hide Add;
    hide Get;
    hide ConflictOf;
    var name := names[i];
    assert names[..i + 1][..i] == names[..i] && names[..i + 1][i] == name;
    var front := PropertyClashes(kind, id, base, source, target, names[..i]);
    if Clash(Get(base, name), Get(source, name), Get(target, name)) {
      AddAllConcat(cs, front, [ConflictOf(PropertyConflict, kind, id, name)]);
      AddAllOne(AddAll(cs, front), ConflictOf(PropertyConflict, kind, id, name));
    } else {
      assert front + [] == front;
    }
  }

  method MergeProperties(base: Properties, source: Properties, target: Properties, kind: ElementKind, id: string,
                         preview: Preview)
    returns (merged: Properties)
    requires preview.Valid()
    modifies preview
    ensures preview.Valid() && merged == MergedProperties(base, source, target)
    ensures preview.violations == old(preview.violations)
    ensures preview.cleanChanges == old(preview.cleanChanges)
            + PropertyNotes(kind, id, base, source, target, Names(base, source, target))
    ensures preview.conflicts == AddAll(old(preview.conflicts),
                                        PropertyClashes(kind, id, base, source, target, Names(base, source, target)))
  {
    hide PropertiesSoFar;
    hide PropertyNotes;
    hide PropertyClashes;
    hide AddAll;
    hide Add;
    hide MergedProperties;
    hide ConflictOf;
    hide Preview.Valid;
    merged := map[];
    var names := SortedNames(base, source, target);
    StartLists(kind, id, base, source, target, names, preview.conflicts);
    for i := 0 to |names|
      invariant preview.Valid() && preview.violations == old(preview.violations)
      invariant PropertiesSoFar(base, source, target, names[..i], merged)
      invariant preview.cleanChanges == old(preview.cleanChanges)
                + PropertyNotes(kind, id, base, source, target, names[..i])
      invariant preview.conflicts ==
                AddAll(old(preview.conflicts), PropertyClashes(kind, id, base, source, target, names[..i]))
    {
      var name := names[i];
      PropertyListsStep(kind, id, base, source, target, names, i, old(preview.conflicts));
      FreshName(names, i);
      PropertiesStep(base, source, target, names[..i], merged, name);
      var b, s, t := Get(base, name), Get(source, name), Get(target, name);
      var m := MergeValue(b, s, t);
      if m.conflict {
        preview.AddConflict(PropertyConflict, kind, id, name);
      } else if m.value != b {
        var operation := if b.None? then Added else if m.value.None? then Deleted else Updated;
        preview.cleanChanges := preview.cleanChanges + [Change(PropertyChange, operation, kind, id, name, m.branch)];
      }
      if m.value.Some? {
        merged := merged[name := m.value.value];
      }
    }
    assert names[..|names|] == names;
    PropertiesDone(base, source, target, names, merged);
  }

  lemma StartLists(kind: ElementKind, id: string, base: Properties, source: Properties, target: Properties,
                   names: seq<string>, cs: seq<Conflict>)
    ensures PropertiesSoFar(base, source, target, names[..0], map[])
    ensures PropertyNotes(kind, id, base, source, target, names[..0]) == []
    ensures AddAll(cs, PropertyClashes(kind, id, base, source, target, names[..0])) == cs
  {}

  lemma FreshName(names: seq<string>, i: nat)
    requires i < |names| && StrictlySorted(names)
    ensures names[..i + 1] == names[..i] + [names[i]] && names[i] !in names[..i]
  {
    forall j | 0 <= j < i ensures names[j] != names[i] {
      LessAsymmetric(names[j], names[i]);
    }
  }

  /** What is listed for an element that is merged field by field. */
  lemma InsideLists(kind: ElementKind, id: string, base: Option<Element>, source: Element, target: Element)
    requires MergedInside(base, Some(source), Some(target))
    ensures var (shape, p) := (MergedShape(kind, base, source, target), PropsOf(base));
            var names := Names(p, source.properties, target.properties);
            && MergedElement(kind, base, Some(source), Some(target)) ==
              Some(Element(shape.value, MergedProperties(p, source.properties, target.properties)))
            && ElementNotes(kind, id, base, Some(source), Some(target))
               == (if !shape.conflict && shape.value != BaseShape(kind, base)
                 then [Change(ElementChange, Updated, kind, id, "", shape.branch)] else [])
                  + PropertyNotes(kind, id, p, source.properties, target.properties, names)
            && ElementConflicts(kind, id, base, Some(source), Some(target))
               == (if shape.conflict then [ConflictOf(Structural, kind, id, "")] else [])
                  + PropertyClashes(kind, id, p, source.properties, target.properties, names)
  {
    hide PropertyNotes;
    hide PropertyClashes;
    hide MergedProperties;
    hide ConflictOf;
    hide MergedShape;
    hide BaseShape;
  }

  /** An element that exists on both sides and is merged field by field. */
  method MergeInside(id: string, base: Option<Element>, source: Element, target: Element, kind: ElementKind,
                     preview: Preview)
    returns (merged: Element)
    requires preview.Valid() && MergedInside(base, Some(source), Some(target))
    modifies preview
    ensures preview.Valid() && Some(merged) == MergedElement(kind, base, Some(source), Some(target))
    ensures preview.violations == old(preview.violations)
    ensures preview.cleanChanges == old(preview.cleanChanges) + ElementNotes(kind, id, base, Some(source), Some(target))
    ensures preview.conflicts == AddAll(old(preview.conflicts),
                                        ElementConflicts(kind, id, base, Some(source), Some(target)))
  {
    hide PropertyNotes;
    hide PropertyClashes;
    hide AddAll;
    hide Add;
    hide MergedProperties;
    hide ConflictOf;
    hide MergedElement;
    hide ElementNotes;
    hide ElementConflicts;
    hide MergedInside;
    InsideLists(kind, id, base, source, target);
    ghost var conflicts0 := preview.conflicts;
    AddNothing(conflicts0);
    AddAllOne(conflicts0, ConflictOf(Structural, kind, id, ""));
    var shape := MergedShape(kind, base, source, target);
    hide MergedShape;
    if shape.conflict {
      preview.AddConflict(Structural, kind, id, "");
    } else if shape.value != BaseShape(kind, base) {
      preview.AddElementChange(kind, id, Updated, shape.branch);
    }
    AddAllConcat(conflicts0, if shape.conflict then [ConflictOf(Structural, kind, id, "")] else [],
                 PropertyClashes(kind, id, PropsOf(base), source.properties, target.properties,
                                 Names(PropsOf(base), source.properties, target.properties)));
    var properties := MergeProperties(PropsOf(base), source.properties, target.properties, kind, id, preview);
    merged := Element(shape.value, properties);
  }

  lemma AddNothing(cs: seq<Conflict>)
    ensures AddAll(cs, []) == cs
  {}

  /** What is listed for an element that is not merged field by field. */
  lemma OutsideLists(kind: ElementKind, id: string, base: Option<Element>, source: Option<Element>,
                     target: Option<Element>)
    requires !MergedInside(base, source, target)
    ensures ElementConflicts(kind, id, base, source, target)
            == (var clash := ElementClash(kind, base, source, target); if clash.Some?
              then [ConflictOf(clash.value, kind, id, "")] else [])
    ensures ElementNotes(kind, id, base, source, target)
            == (var note := ElementNote(kind, base, source, target); if note.Some?
              then [Change(ElementChange, note.value.0, kind, id, "", note.value.1)] else [])
  {
    hide ElementClash;
    hide ElementNote;
    hide ConflictOf;
  }

  method MergeElement(id: string, base: Option<Element>, source: Option<Element>, target: Option<Element>,
                      kind: ElementKind, preview: Preview)
    returns (merged: Option<Element>)
    requires preview.Valid()
    modifies preview
    ensures preview.Valid() && merged == MergedElement(kind, base, source, target)
    ensures preview.violations == old(preview.violations)
    ensures preview.cleanChanges == old(preview.cleanChanges) + ElementNotes(kind, id, base, source, target)
    ensures preview.conflicts == AddAll(old(preview.conflicts), ElementConflicts(kind, id, base, source, target))
  {
    hide PropertyNotes;
    hide PropertyClashes;
    hide AddAll;
    hide Add;
    hide MergedProperties;
    hide ConflictOf;
    hide ElementNotes;
    hide ElementConflicts;
    if !MergedInside(base, source, target) {
      OutsideLists(kind, id, base, source, target);
    }
    AddNothing(preview.conflicts);
    AddAllOne(preview.conflicts, ConflictOf(DeleteUpdate, kind, id, ""));
    AddAllOne(preview.conflicts, ConflictOf(Structural, kind, id, ""));
    if base.Some? && source.None? && target.Some? && base != target {
      preview.AddConflict(DeleteUpdate, kind, id, "");
      return target;
    }
    if base.Some? && source.Some? && target.None? && base != source {
      preview.AddConflict(DeleteUpdate, kind, id, "");
      return None;
    }
    if base.None? && source.Some? && target.Some? && source.value.shape != target.value.shape {
      preview.AddConflict(Structural, kind, id, "");
      return target;
    }
    if base.None? && source.Some? && target.None? {
      preview.AddElementChange(kind, id, Added, FromSource);
      return source;
    } else if base.None? && source.None? && target.Some? {
      preview.AddElementChange(kind, id, Added, FromTarget);
      return target;
    } else if base.Some? && source.None? && target.None? {
      preview.AddElementChange(kind, id, Deleted, FromBoth);
      return None;
    } else if base.Some? && source.None? {
      preview.AddElementChange(kind, id, Deleted, FromSource);
      return None;
    } else if base.Some? && target.None? {
      preview.AddElementChange(kind, id, Deleted, FromTarget);
      return None;
    } else if source.None? {
      return None;
    }
    var inside := MergeInside(id, base, source.value, target.value, kind, preview);
    return Some(inside);
  }

  ghost predicate ElementsSoFar(kind: ElementKind, base: Elements, source: Elements, target: Elements,
                                handled: seq<string>, merged: Elements)
  {
    && (forall n :: n in merged <==>
                    n in handled && MergedElement(kind, Get(base, n), Get(source, n), Get(target, n)).Some?)
    && (forall n :: n in merged ==>
                    Some(merged[n]) == MergedElement(kind, Get(base, n), Get(source, n), Get(target, n)))
  }

  lemma ElementsStep(kind: ElementKind, base: Elements, source: Elements, target: Elements, handled: seq<string>,
                     merged: Elements, id: string)
    requires ElementsSoFar(kind, base, source, target, handled, merged) && id !in handled
    ensures var m := MergedElement(kind, Get(base, id), Get(source, id), Get(target, id));
            ElementsSoFar(kind, base, source, target, handled + [id], if m.Some? then merged[id := m.value] else merged)
  {
    hide MergedElement;
    hide Get;
  }

  lemma ElementsDone(kind: ElementKind, base: Elements, source: Elements, target: Elements, ids: seq<string>,
                     merged: Elements)
    requires ElementsSoFar(kind, base, source, target, ids, merged)
    requires forall n :: n in ids <==> n in base.Keys + source.Keys + target.Keys
    ensures merged == MergedElements(kind, base, source, target)
  {
    hide MergedElement;
    hide Get;
  }

  lemma ElementListsStep(kind: ElementKind, base: Elements, source: Elements, target: Elements, ids: seq<string>,
                         i: nat, cs: seq<Conflict>)
    requires i < |ids|
    ensures ElementsNotes(kind, base, source, target, ids[..i + 1])
            == ElementsNotes(kind, base, source, target, ids[..i])
              + ElementNotes(kind, ids[i], Get(base, ids[i]), Get(source, ids[i]), Get(target, ids[i]))
    ensures AddAll(cs, ElementsConflicts(kind, base, source, target, ids[..i + 1]))
            == AddAll(AddAll(cs, ElementsConflicts(kind, base, source, target, ids[..i])),
                      ElementConflicts(kind, ids[i], Get(base, ids[i]), Get(source, ids[i]), Get(target, ids[i])))
  {
    hide ElementNotes;
    hide ElementConflicts;
    hide Get;
    hide AddAll;
    assert ids[..i + 1][..i] == ids[..i] && ids[..i + 1][i] == ids[i];
    AddAllConcat(cs, ElementsConflicts(kind, base, source, target, ids[..i]),
                 ElementConflicts(kind, ids[i], Get(base, ids[i]), Get(source, ids[i]), Get(target, ids[i])));
  }

  lemma StartElements(kind: ElementKind, base: Elements, source: Elements, target: Elements, ids: seq<string>,
                      cs: seq<Conflict>)
    ensures ElementsSoFar(kind, base, source, target, ids[..0], map[])
    ensures ElementsNotes(kind, base, source, target, ids[..0]) == []
    ensures AddAll(cs, ElementsConflicts(kind, base, source, target, ids[..0])) == cs
  {}

  method MergeElements(base: Elements, source: Elements, target: Elements, kind: ElementKind, preview: Preview)
    returns (merged: Elements)
    requires preview.Valid()
    modifies preview
    ensures preview.Valid() && merged == MergedElements(kind, base, source, target)
    ensures preview.violations == old(preview.violations)
    ensures preview.cleanChanges == old(preview.cleanChanges)
            + ElementsNotes(kind, base, source, target, Names(base, source, target))
    ensures preview.conflicts == AddAll(old(preview.conflicts),
                                        ElementsConflicts(kind, base, source, target, Names(base, source, target)))
  {
    hide ElementsSoFar;
    hide ElementsNotes;
    hide ElementsConflicts;
    hide AddAll;
    hide MergedElement;
    hide MergedElements;
    hide ElementNotes;
    hide ElementConflicts;
    merged := map[];
    var ids := SortedNames(base, source, target);
    StartElements(kind, base, source, target, ids, preview.conflicts);
    for i := 0 to |ids|
      invariant preview.Valid() && preview.violations == old(preview.violations)
      invariant ElementsSoFar(kind, base, source, target, ids[..i], merged)
      invariant preview.cleanChanges == old(preview.cleanChanges) + ElementsNotes(kind, base, source, target, ids[..i])
      invariant preview.conflicts ==
                AddAll(old(preview.conflicts), ElementsConflicts(kind, base, source, target, ids[..i]))
    {
      var id := ids[i];
      ElementListsStep(kind, base, source, target, ids, i, old(preview.conflicts));
      FreshName(ids, i);
      ElementsStep(kind, base, source, target, ids[..i], merged, id);
      var value := MergeElement(id, Get(base, id), Get(source, id), Get(target, id), kind, preview);
      if value.Some? {
        merged := merged[id := value.value];
      }
    }
    assert ids[..|ids|] == ids;
    ElementsDone(kind, base, source, target, ids, merged);
  }

  /** The loop of validateMergedSchema over the violation codes. */
  method ViolationConflict(codes: seq<string>) returns (conflict: ConflictType)
    ensures Some(conflict) == ValidationConflict(Violated(codes))
  {
    hide Mentions;
    conflict := Cardinality;
    for i := 0 to |codes|
      invariant conflict == Cardinality
      invariant forall j :: 0 <= j < i ==> Mentions(codes[j], "cardinality")
    {
      if !Mentions(codes[i], "cardinality") {
        assert codes[i] in codes;
        return SchemaConflict;
      }
    }
  }

  /** validateMergedSchema, called on a merge without conflicts. */
  method ValidateMergedSchema(merged: Snapshot, validate: Snapshot -> Validation, preview: Preview)
    requires preview.Valid() && preview.conflicts == [] && preview.violations == []
    modifies preview
    ensures preview.Valid() && preview.cleanChanges == old(preview.cleanChanges)
    ensures preview.violations == if validate(merged).Violated? then validate(merged).codes else []
    ensures preview.conflicts == (var late := ValidationConflict(validate(merged));
                                  if late.Some? then [ConflictOf(late.value, SchemaKind, "", "")] else [])
  {
    hide Mentions;
    hide ConflictOf;
    var verdict := validate(merged);
    if verdict.Accepted? {
      return;
    }
    if verdict.Failed? {
      preview.AddConflict(SchemaConflict, SchemaKind, "", "");
      return;
    }
    var conflict := ViolationConflict(verdict.codes);
    hide ValidationConflict;
    preview.violations := preview.violations + verdict.codes;
    preview.AddConflict(conflict, SchemaKind, "", "");
  }

  ghost function TokensOf(cs: seq<Conflict>): (r: seq<string>)
    ensures |r| == |cs|
  {
    seq(|cs|, i requires 0 <= i < |cs| => cs[i].token)
  }

  ghost predicate DistinctTokens(cs: seq<Conflict>) {
    forall i, j :: 0 <= i < j < |cs| ==> cs[i].token != cs[j].token
  }

  /** Inserting a conflict with a new token keeps the tokens strictly increasing. */
  lemma {:induction false} InsertToken(c: Conflict, cs: seq<Conflict>)
    requires StrictlySorted(TokensOf(cs)) && c.token !in TokensOf(cs)
    ensures StrictlySorted(TokensOf(InsertBy(c, cs, TokenOf)))
    ensures forall t :: t in TokensOf(InsertBy(c, cs, TokenOf)) <==> t == c.token || t in TokensOf(cs)
  {
    var tokens := TokensOf(cs);
    if cs == [] {
      assert InsertBy(c, cs, TokenOf) == [c] && TokensOf([c]) == [c.token];
    } else if Leq(c.token, cs[0].token) {
      assert TokensOf([c] + cs) == [c.token] + tokens;
      assert tokens[0] == cs[0].token;
      forall j | 0 <= j < |tokens| ensures Less(c.token, tokens[j]) {
        if j > 0 { LessTransitive(c.token, tokens[0], tokens[j]); }
      }
    } else {
      LessTotal(c.token, cs[0].token);
      assert TokensOf(cs[1..]) == tokens[1..] && tokens == [cs[0].token] + tokens[1..];
      InsertToken(c, cs[1..]);
      var rest := InsertBy(c, cs[1..], TokenOf);
      assert TokensOf([cs[0]] + rest) == [cs[0].token] + TokensOf(rest);
      forall j | 0 <= j < |rest| ensures Less(cs[0].token, TokensOf(rest)[j]) {
        assert TokensOf(rest)[j] in TokensOf(rest);
      }
    }
  }

  lemma {:induction false} SortedTokens(cs: seq<Conflict>)
    requires DistinctTokens(cs)
    ensures StrictlySorted(TokensOf(SortBy(cs, TokenOf)))
    ensures forall t :: t in TokensOf(SortBy(cs, TokenOf)) <==> t in TokensOf(cs)
  {
    if cs != [] {
      SortedTokens(cs[1..]);
      assert TokensOf(cs) == [cs[0].token] + TokensOf(cs[1..]);
      InsertToken(cs[0], SortBy(cs[1..], TokenOf));
    }
  }

  /** Sorting conflicts and requirements separately keeps them aligned. */
  lemma SortedAligned(cs: seq<Conflict>, required: seq<string>)
    requires DistinctTokens(cs) && required == TokensOf(cs)
    ensures SortStrings(required) == TokensOf(SortBy(cs, TokenOf)) && DistinctTokens(SortBy(cs, TokenOf))
  {
    SortedTokens(cs);
    SortedDistinct(required);
    forall t ensures t in SortStrings(required) <==> t in TokensOf(SortBy(cs, TokenOf)) {
      SortedMember(required, t);
    }
    StrictlySortedUnique(SortStrings(required), TokensOf(SortBy(cs, TokenOf)));
    var sorted := SortBy(cs, TokenOf);
    forall i, j | 0 <= i < j < |sorted| ensures sorted[i].token != sorted[j].token {
      LessAsymmetric(TokensOf(sorted)[i], TokensOf(sorted)[j]);
    }
  }

  ghost function SchemaConflicts(base: Schema, source: Schema, target: Schema): seq<Conflict> {
    if Clash(base, source, target) then [ConflictOf(SchemaConflict, SchemaKind, "", "")] else []
  }

  lemma AllConflictsAdded(base: Snapshot, source: Snapshot, target: Snapshot)
    ensures AddAll([], AllConflicts(base, source, target)) ==
              AddAll(AddAll(AddAll([], SchemaConflicts(base.schema, source.schema, target.schema)),
                            ElementsConflicts(NodeKind, base.nodes, source.nodes, target.nodes,
                                              Names(base.nodes, source.nodes, target.nodes))),
                     ElementsConflicts(EdgeKind, base.edges, source.edges, target.edges,
                                       Names(base.edges, source.edges, target.edges)))
  {
    hide ElementsConflicts;
    hide AddAll;
    hide ConflictOf;
    var own := SchemaConflicts(base.schema, source.schema, target.schema);
    var nodes := ElementsConflicts(NodeKind, base.nodes, source.nodes, target.nodes,
                                   Names(base.nodes, source.nodes, target.nodes));
    AddAllConcat([], own, nodes);
    AddAllConcat([], own + nodes, ElementsConflicts(EdgeKind, base.edges, source.edges, target.edges,
                                                    Names(base.edges, source.edges, target.edges)));
  }

  /** The merge itself, before validation and sorting. */
  method CollectMerge(base: Snapshot, source: Snapshot, target: Snapshot, preview: Preview) returns (merged: Snapshot)
    requires preview.Valid() && preview.cleanChanges == [] && preview.conflicts == []
    modifies preview
    ensures preview.Valid() && preview.violations == old(preview.violations)
    ensures merged == MergedSnapshot(base, source, target)
    ensures preview.cleanChanges == AllNotes(base, source, target)
    ensures preview.conflicts == AddAll([], AllConflicts(base, source, target))
  {
    hide ElementsNotes;
    hide ElementsConflicts;
    hide AddAll;
    hide Add;
    hide MergedElements;
    hide ConflictOf;
    hide AllConflicts;
    AllConflictsAdded(base, source, target);
    AddNothing([]);
    AddAllOne([], ConflictOf(SchemaConflict, SchemaKind, "", ""));
    var schema := MergeValue(base.schema, source.schema, target.schema);
    if schema.conflict {
      preview.AddConflict(SchemaConflict, SchemaKind, "", "");
    } else if schema.value != base.schema {
      preview.cleanChanges := preview.cleanChanges + [Change(SchemaChange, Updated, SchemaKind, "", "", schema.branch)];
    }
    var nodes := MergeElements(base.nodes, source.nodes, target.nodes, NodeKind, preview);
    var edges := MergeElements(base.edges, source.edges, target.edges, EdgeKind, preview);
    merged := Snapshot(schema.value, nodes, edges);
  }

  method SortPreview(preview: Preview)
    requires preview.Valid()
    modifies preview
    ensures preview.Valid() && preview.violations == old(preview.violations)
    ensures preview.cleanChanges == SortBy(old(preview.cleanChanges), ChangeKey)
    ensures preview.conflicts == SortBy(old(preview.conflicts), TokenOf)
    ensures StrictlySorted(TokensOf(preview.conflicts)) && preview.required == TokensOf(preview.conflicts)
  {
    hide SortBy;
    hide SortStrings;
    assert preview.required == TokensOf(preview.conflicts);
    SortedAligned(preview.conflicts, preview.required);
    SortedTokens(preview.conflicts);
    SortedSize(preview.conflicts);
    preview.cleanChanges := SortBy(preview.cleanChanges, ChangeKey);
    preview.conflicts := SortBy(preview.conflicts, TokenOf);
    preview.required := SortStrings(preview.required);
  }

  /** mergeSnapshots: the preview lists exactly the clean changes and the conflicts, each in sorted order. */
  method MergeSnapshots(base: Snapshot, source: Snapshot, target: Snapshot, validate: Snapshot -> Validation)
    returns (preview: Preview)
    ensures fresh(preview) && preview.Valid()
    ensures preview.cleanChanges == SortBy(AllNotes(base, source, target), ChangeKey)
    ensures preview.conflicts == SortBy(ListedConflicts(base, source, target, validate), TokenOf)
    ensures StrictlySorted(TokensOf(preview.conflicts)) && preview.required == TokensOf(preview.conflicts)
    ensures preview.violations ==
              if AddAll([], AllConflicts(base, source, target)) == []
                && validate(MergedSnapshot(base, source, target)).Violated?
              then validate(MergedSnapshot(base, source, target)).codes else []
  {
    hide AllNotes;
    hide AllConflicts;
    hide AddAll;
    hide MergedSnapshot;
    hide ConflictOf;
    hide ValidationConflict;
    hide SortBy;
    preview := new Preview();
    var merged := CollectMerge(base, source, target, preview);
    if !preview.hasConflicts {
      ValidateMergedSchema(merged, validate, preview);
    }
    SortPreview(preview);
  }

  lemma SortedSize(cs: seq<Conflict>)
    ensures |SortBy(cs, TokenOf)| == |cs|
  {
    assert |multiset(cs)| == |multiset(SortBy(cs, TokenOf))|;
  }
}
