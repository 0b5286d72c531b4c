// Conflict resolution (internal/server/review/finalize.go). JSON decoding and snapshot validation are parameters.
module Resolution {
  import opened Wrappers
  import opened Ordering
  import opened ThreeWayMerge
  import opened MergeLaws

  datatype Choice = Choice(token: string, choice: string, value: string)

  datatype MergeError = InvalidManualValue | ManualIdMismatch | ElementGone | InvalidResult | InvalidRequest

  datatype Decoder = Decoder(
    schema: string -> Option<Schema>, property: string -> Option<PropertyValue>,
    element: (ElementKind, string) -> Option<Element>, snapshot: string -> Option<Snapshot>)

  // ----- which lists of choices are accepted --------------------------------------------

  predicate WellFormed(r: Choice) {
    if r.choice == "manual" then r.value != "" else (r.choice == "source" || r.choice == "target") && r.value == ""
  }

  function Required(cs: seq<Conflict>): set<string> {
    set i | 0 <= i < |cs| :: cs[i].token
  }

  function Answered(rs: seq<Choice>): set<string> {
    set i | 0 <= i < |rs| :: rs[i].token
  }

  /** The choices answer every required token exactly once, each in a well-formed way: their tokens are a
      permutation of the required ones. */
  ghost predicate Answers(cs: seq<Conflict>, rs: seq<Choice>) {
    && (forall i :: 0 <= i < |rs| ==> WellFormed(rs[i]))
    && (forall i, j :: 0 <= i < j < |rs| ==> rs[i].token != rs[j].token)
    && Answered(rs) == Required(cs)
  }

  lemma {:induction false} AnsweredSize(rs: seq<Choice>)
    requires forall i, j :: 0 <= i < j < |rs| ==> rs[i].token != rs[j].token
    ensures |Answered(rs)| == |rs|
    decreases |rs|
  {
    if rs == [] {
      assert Answered(rs) == {};
    } else {
      var front, last := rs[..|rs| - 1], rs[|rs| - 1];
      AnsweredSize(front);
      assert Answered(rs) == Answered(front) + {last.token} by {
        forall token ensures token in Answered(rs) <==> token in Answered(front) || token == last.token {
          if token in Answered(front) {
            var i :| 0 <= i < |front| && front[i].token == token;
            assert rs[i].token == token;
          }
          if token in Answered(rs) {
            var i :| 0 <= i < |rs| && rs[i].token == token;
            assert i < |front| ==> front[i].token == token;
          }
        }
      }
    }
  }

  /** validateResolutions. */
  method ValidateResolutions(cs: seq<Conflict>, rs: seq<Choice>) returns (ok: bool)
    ensures ok <==> Answers(cs, rs)
  {
    var required := Required(cs);
    if |rs| != |required| {
      if Answers(cs, rs) { AnsweredSize(rs); }
      return false;
    }
    for i := 0 to |rs|
      invariant required == Required(cs) - Answered(rs[..i])
      invariant forall j :: 0 <= j < i ==> WellFormed(rs[j]) && rs[j].token in Required(cs)
      invariant forall j, l :: 0 <= j < l < i ==> rs[j].token != rs[l].token
    {
      var r := rs[i];
      if r.token !in required {
        NotRequired(cs, rs, i);
        return false;
      }
      required := required - {r.token};
      AnsweredNext(rs, i);
      if !WellFormed(r) {
        return false;
      }
    }
    assert rs[..|rs|] == rs;
    AnsweredSize(rs);
    SubsetSize(Answered(rs), Required(cs));
    return required == {};
  }

  lemma AnsweredNext(rs: seq<Choice>, i: nat)
    requires i < |rs|
    ensures Answered(rs[..i + 1]) == Answered(rs[..i]) + {rs[i].token}
    ensures rs[i].token !in Answered(rs[..i]) ==> forall j :: 0 <= j < i ==> rs[j].token != rs[i].token
  {
    forall token ensures token in Answered(rs[..i + 1]) <==> token in Answered(rs[..i]) || token == rs[i].token {
      if token in Answered(rs[..i]) {
        var j :| 0 <= j < i && rs[..i][j].token == token;
        assert rs[..i + 1][j].token == token;
      }
      if token in Answered(rs[..i + 1]) {
        var j :| 0 <= j < i + 1 && rs[..i + 1][j].token == token;
        assert j < i ==> rs[..i][j].token == token;
      }
      assert rs[..i + 1][i].token == rs[i].token;
    }
    forall j | 0 <= j < i && rs[j].token == rs[i].token ensures rs[i].token in Answered(rs[..i]) {
      assert rs[..i][j].token == rs[i].token;
    }
  }

  /** A token that is not, or no longer, required spoils the list. */
  lemma NotRequired(cs: seq<Conflict>, rs: seq<Choice>, i: nat)
    requires i < |rs| && (rs[i].token !in Required(cs) || rs[i].token in Answered(rs[..i]))
    ensures !Answers(cs, rs)
  {
    if rs[i].token in Answered(rs[..i]) {
      var j :| 0 <= j < i && rs[..i][j].token == rs[i].token;
      assert rs[j].token == rs[i].token;
    } else {
      assert rs[i].token in Answered(rs);
    }
  }

  // ----- one choice ---------------------------------------------------------------------

  function SchemaChoice(d: Decoder, source: Snapshot, target: Snapshot, r: Choice): Result<Schema, MergeError> {
    if r.choice == "source" then Ok(source.schema)
    else if r.choice == "target" then Ok(target.schema)
    else match d.schema(r.value) case None => Err(InvalidManualValue) case Some(v) => Ok(v)
  }

  function PropertyChoice(d: Decoder, source: Snapshot, target: Snapshot, c: Conflict,
                          r: Choice): Result<Option<PropertyValue>, MergeError>
  {
    if r.choice == "manual" then
      match d.property(r.value) case None => Err(InvalidManualValue) case Some(v) => Ok(Some(v))
    else Ok(ValueOf(ElementAt(if r.choice == "target" then target else source, c.element, c.id), c.property))
  }

  function ShapeId(shape: Shape): string { shape.id }

  /** resolutionNode and resolutionEdge; a manual null removes the element. */
  function ElementChoice(d: Decoder, source: Snapshot, target: Snapshot, c: Conflict,
                         r: Choice): Result<Option<Element>, MergeError>
  {
    if r.choice == "manual" then
      if r.value == "null" then Ok(None)
      else
        match d.element(c.element, r.value)
        case None => Err(InvalidManualValue)
        case Some(v) => if ShapeId(v.shape) != c.id then Err(ManualIdMismatch) else Ok(Some(v))
    else Ok(ElementAt(if r.choice == "target" then target else source, c.element, c.id))
  }

  function SetIn<V>(m: map<string, V>, key: string, value: Option<V>): (n: map<string, V>)
    ensures Get(n, key) == value && forall k :: k != key ==> Get(n, k) == Get(m, k)
  {
    if value.Some? then m[key := value.value] else m - {key}
  }

  function WithElement(m: Snapshot, kind: ElementKind, id: string, value: Option<Element>): Snapshot {
    if kind == NodeKind then m.(nodes := SetIn(m.nodes, id, value)) else m.(edges := SetIn(m.edges, id, value))
  }

  function WithProperty(e: Element, name: string, value: Option<PropertyValue>): Element {
    e.(properties := SetIn(e.properties, name, value))
  }

  /** applyResolution. */
  function Applied(d: Decoder, source: Snapshot, target: Snapshot, m: Snapshot, c: Conflict,
                   r: Choice): Result<Snapshot, MergeError>
  {
    match c.conflictType
    case SchemaConflict =>
      var v := SchemaChoice(d, source, target, r);
      if v.Err? then Err(v.error) else Ok(m.(schema := v.value))
    case PropertyConflict =>
      var v := PropertyChoice(d, source, target, c, r);
      if v.Err? then Err(v.error)
      else
        var e := ElementAt(m, c.element, c.id);
        if e.None? then Err(ElementGone)
          else Ok(WithElement(m, c.element, c.id, Some(WithProperty(e.value, c.property, v.value))))
    case _ =>
      var v := ElementChoice(d, source, target, c, r);
      if v.Err? then Err(v.error) else Ok(WithElement(m, c.element, c.id, v.value))
  }

  /** The merged snapshot that materializeMerge edits in place. */
  class Draft {
    var schema: Schema
    var nodes: Elements
    var edges: Elements

    constructor (schema: Schema, nodes: Elements, edges: Elements)
      ensures State() == Snapshot(schema, nodes, edges)
    {
      this.schema, this.nodes, this.edges := schema, nodes, edges;
    }

    function State(): Snapshot
      reads this
    {
      Snapshot(schema, nodes, edges)
    }

    method SetElement(kind: ElementKind, id: string, value: Option<Element>)
      modifies this
      ensures State() == WithElement(old(State()), kind, id, value)
    {
      if kind == NodeKind {
        nodes := if value.Some? then nodes[id := value.value] else nodes - {id};
      } else {
        edges := if value.Some? then edges[id := value.value] else edges - {id};
      }
    }

    method SetProperty(kind: ElementKind, id: string, name: string, value: Option<PropertyValue>) returns (found: bool)
      modifies this
      ensures found <==> old(ElementAt(State(), kind, id)).Some?
      ensures found ==> State() == WithElement(old(State()), kind, id,
                                               Some(WithProperty(old(ElementAt(State(), kind, id)).value, name, value)))
      ensures !found ==> State() == old(State())
    {
      if kind == NodeKind {
        if id in nodes {
          var node := nodes[id];
          nodes := nodes[id := node.(properties := SetIn(node.properties, name, value))];
          return true;
        }
      } else if id in edges {
        var edge := edges[id];
        edges := edges[id := edge.(properties := SetIn(edge.properties, name, value))];
        return true;
      }
      return false;
    }

    method ApplyResolution(d: Decoder, source: Snapshot, target: Snapshot, c: Conflict, r: Choice)
      returns (o: Result<(), MergeError>)
      modifies this
      ensures match Applied(d, source, target, old(State()), c, r)
              case Ok(m) => o == Ok(()) && State() == m
              case Err(e) => o == Err(e) && State() == old(State())
    {
      if c.conflictType == SchemaConflict {
        var value := SchemaChoice(d, source, target, r);
        if value.Err? {
          return Err(value.error);
        }
        schema := value.value;
        return Ok(());
      }
      if c.conflictType == PropertyConflict {
        var value := PropertyChoice(d, source, target, c, r);
        if value.Err? {
          return Err(value.error);
        }
        var found := SetProperty(c.element, c.id, c.property, value.value);
        return if found then Ok(()) else Err(ElementGone);
      }
      var value := ElementChoice(d, source, target, c, r);
      if value.Err? {
        return Err(value.error);
      }
      SetElement(c.element, c.id, value.value);
      return Ok(());
    }
  }

  // ----- all choices --------------------------------------------------------------------

  /** Go's zero conflict: it names no type, so a choice for it is applied like one for the edge "". */
  const ZERO_CONFLICT := Conflict("", Structural, EdgeKind, "", "")

  /** conflictByToken. */
  function ConflictBy(cs: seq<Conflict>, token: string): (c: Conflict)
    ensures if token in Required(cs) then c in cs && c.token == token else c == ZERO_CONFLICT
  {
    if cs == [] then ZERO_CONFLICT
    else if cs[0].token == token then cs[0]
    else
      assert token in Required(cs) <==> token in Required(cs[1..]) by {
        if i :| 0 <= i < |cs| && cs[i].token == token {
          assert cs[1..][i - 1].token == token;
        }
        if i :| 0 <= i < |cs[1..]| && cs[1..][i].token == token {
          assert cs[i + 1].token == token;
        }
      }
      ConflictBy(cs[1..], token)
  }

  /** Property choices come after whole-element choices; within a rank, tokens decide. */
  function RankKey(cs: seq<Conflict>, r: Choice): string {
    var c := ConflictBy(cs, r.token);
    if c.conflictType == PropertyConflict then "1" + c.token else "0" + c.token
  }

  function Ranking(cs: seq<Conflict>): Choice -> string { r => RankKey(cs, r) }

  function AppliedAll(d: Decoder, source: Snapshot, target: Snapshot, m: Snapshot, cs: seq<Conflict>,
                      rs: seq<Choice>): Result<Snapshot, MergeError>
  {
    if rs == [] then Ok(m)
    else
      var before := AppliedAll(d, source, target, m, cs, rs[..|rs| - 1]);
      if before.Err? then before
      else Applied(d, source, target, before.value, ConflictBy(cs, rs[|rs| - 1].token), rs[|rs| - 1])
  }

  predicate OnlyCardinality(cs: seq<Conflict>) {
    |cs| == 1 && cs[0].conflictType == Cardinality
  }

  function WholeChoice(d: Decoder, source: Snapshot, target: Snapshot, valid: Snapshot -> bool,
                       r: Choice): Result<Snapshot, MergeError>
  {
    if r.choice == "source" then Ok(source)
    else if r.choice == "target" then Ok(target)
    else
      match d.snapshot(r.value)
      case None => Err(InvalidManualValue)
      case Some(snapshot) => if valid(snapshot) then Ok(snapshot) else Err(InvalidResult)
  }

  function Ordered(cs: seq<Conflict>, rs: seq<Choice>): (ordered: seq<Choice>)
    ensures multiset(ordered) == multiset(rs)
  {
    SortBy(rs, Ranking(cs))
  }

  lemma OrderedTokens(cs: seq<Conflict>, rs: seq<Choice>)
    requires Answers(cs, rs)
    ensures |Ordered(cs, rs)| == |rs|
    ensures forall r :: r in Ordered(cs, rs) <==> r in rs
    ensures forall i :: 0 <= i < |Ordered(cs, rs)| ==> Ordered(cs, rs)[i].token in Required(cs)
  {
    var ordered := Ordered(cs, rs);
    assert |multiset(ordered)| == |multiset(rs)|;
    forall r ensures r in ordered <==> r in rs {
      assert r in multiset(ordered) <==> r in multiset(rs);
    }
    forall i | 0 <= i < |ordered| ensures ordered[i].token in Required(cs) {
      assert ordered[i] in ordered;
      var j :| 0 <= j < |rs| && rs[j] == ordered[i];
      assert rs[j].token in Answered(rs);
    }
  }

  /** What materializeMerge yields. */
  ghost function Materialized(d: Decoder, b: Snapshot, s: Snapshot, t: Snapshot, valid: Snapshot -> bool,
                              cs: seq<Conflict>, rs: seq<Choice>): Result<Snapshot, MergeError>
  {
    if OnlyCardinality(cs) && rs != [] then WholeChoice(d, s, t, valid, rs[0])
    else
      var all := AppliedAll(d, s, t, MergedSnapshot(b, s, t), cs, Ordered(cs, rs));
      if all.Err? then all else if valid(all.value) then all else Err(InvalidResult)
  }

  /** The loop over the ordered choices; the first one that fails decides the outcome. */
  method ApplyAll(draft: Draft, d: Decoder, s: Snapshot, t: Snapshot, cs: seq<Conflict>, rs: seq<Choice>)
    returns (o: Result<(), MergeError>)
    modifies draft
    ensures match AppliedAll(d, s, t, old(draft.State()), cs, rs)
            case Ok(m) => o == Ok(()) && draft.State() == m
            case Err(e) => o == Err(e)
  {
    hide Applied;
    hide Required;
    hide ConflictBy;
    ghost var merged := draft.State();
    assert rs[..|rs|] == rs;
    for i := 0 to |rs|
      invariant AppliedAll(d, s, t, merged, cs, rs[..i]) == Ok(draft.State())
    {
      assert rs[..i + 1][..i] == rs[..i] && rs[..i + 1][i] == rs[i];
      var applied := draft.ApplyResolution(d, s, t, ConflictBy(cs, rs[i].token), rs[i]);
      if applied.Err? {
        AppliedAllFails(d, s, t, merged, cs, rs, i, applied.error);
        return applied;
      }
    }
    return Ok(());
  }

  /** The clean merge that the choices are applied to. */
  method CleanDraft(b: Snapshot, s: Snapshot, t: Snapshot) returns (draft: Draft)
    ensures fresh(draft) && draft.State() == MergedSnapshot(b, s, t)
  {
    hide MergedElements;
    hide MergeValue;
    var nodePreview := new Preview();
    var nodes := MergeElements(b.nodes, s.nodes, t.nodes, NodeKind, nodePreview);
    var edgePreview := new Preview();
    var edges := MergeElements(b.edges, s.edges, t.edges, EdgeKind, edgePreview);
    draft := new Draft(MergeValue(b.schema, s.schema, t.schema).value, nodes, edges);
  }

  /** materializeMerge. */
  method MaterializeMerge(d: Decoder, b: Snapshot, s: Snapshot, t: Snapshot, valid: Snapshot -> bool,
                          cs: seq<Conflict>, rs: seq<Choice>)
    returns (result: Result<Snapshot, MergeError>)
    ensures result == Materialized(d, b, s, t, valid, cs, rs)
  {
    hide Answers;
    hide AppliedAll;
    hide MergedSnapshot;
    hide Ordered;
    hide Required;
    if OnlyCardinality(cs) && |rs| != 0 {
      var r := rs[0];
      if r.choice == "source" {
        return Ok(s);
      }
      if r.choice == "target" {
        return Ok(t);
      }
      var snapshot := d.snapshot(r.value);
      if snapshot.None? {
        return Err(InvalidManualValue);
      }
      return if valid(snapshot.value) then Ok(snapshot.value) else Err(InvalidResult);
    }
    var draft := CleanDraft(b, s, t);
    var applied := ApplyAll(draft, d, s, t, cs, Ordered(cs, rs));
    if applied.Err? {
      return Err(applied.error);
    }
    if !valid(draft.State()) {
      return Err(InvalidResult);
    }
    return Ok(draft.State());
  }

  lemma {:induction false} AppliedAllFails(d: Decoder, s: Snapshot, t: Snapshot, m: Snapshot, cs: seq<Conflict>,
                                           rs: seq<Choice>, i: nat, e: MergeError)
    requires i < |rs| && AppliedAll(d, s, t, m, cs, rs[..i + 1]) == Err(e)
    ensures AppliedAll(d, s, t, m, cs, rs) == Err(e)
    decreases |rs|
  {
    if i + 1 < |rs| {
      var front := rs[..|rs| - 1];
      assert front[..i + 1] == rs[..i + 1];
      AppliedAllFails(d, s, t, m, cs, front, i, e);
    } else {
      assert rs[..i + 1] == rs;
    }
  }
}
