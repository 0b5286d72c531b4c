// What resolving a merge yields: the order of the choices does not matter, every conflict site gets what was chosen
// for it, and every other site keeps its clean three-way value.
module ResolutionLaws {
  import opened Wrappers
  import opened Ordering
  import opened ThreeWayMerge
  import opened MergeLaws
  import opened PreviewLists
  import opened PreviewOrder
  import opened ConflictTokens
  import opened Resolution

  // ----- order independence -------------------------------------------------------------

  lemma {:induction false} CountOnce(rs: seq<Choice>, x: Choice)
    requires forall i, j :: 0 <= i < j < |rs| ==> rs[i].token != rs[j].token
    ensures multiset(rs)[x] <= 1
    decreases |rs|
  {
    if rs != [] {
      var front, last := rs[..|rs| - 1], rs[|rs| - 1];
      CountOnce(front, x);
      assert rs == front + [last];
      if x == last {
        assert x !in front by {
          forall i | 0 <= i < |front| ensures front[i] != x { assert rs[i].token != last.token; }
        }
        assert multiset(front)[x] == 0;
      }
    }
  }

  lemma CountTwice(rs: seq<Choice>, i: nat, j: nat)
    requires i < j < |rs| && rs[i] == rs[j]
    ensures multiset(rs)[rs[i]] >= 2
  {
    assert rs == rs[..j] + [rs[j]] + rs[j + 1..];
    assert rs[..j][i] == rs[i];
    assert rs[i] in rs[..j];
    assert multiset(rs[..j])[rs[i]] >= 1;
  }

  lemma SameMembers(rs: seq<Choice>, qs: seq<Choice>, i: nat) returns (j: nat)
    requires multiset(rs) == multiset(qs) && i < |qs|
    ensures j < |rs| && rs[j] == qs[i]
  {
    assert qs[i] in multiset(qs);
    assert qs[i] in rs;
    j :| 0 <= j < |rs| && rs[j] == qs[i];
  }

  /** Every ordering of an accepted list is accepted. */
  lemma AnswersOrderFree(cs: seq<Conflict>, rs: seq<Choice>, qs: seq<Choice>)
    requires Answers(cs, rs) && multiset(rs) == multiset(qs)
    ensures Answers(cs, qs)
  {
    forall i | 0 <= i < |qs| ensures WellFormed(qs[i]) {
      var j := SameMembers(rs, qs, i);
    }
    forall i, j | 0 <= i < j < |qs| ensures qs[i].token != qs[j].token {
      var k := SameMembers(rs, qs, i);
      var l := SameMembers(rs, qs, j);
      if k == l {
        CountTwice(qs, i, j);
        CountOnce(rs, qs[i]);
      }
    }
    forall token ensures token in Answered(qs) <==> token in Answered(rs) {
      if token in Answered(qs) {
        var i :| 0 <= i < |qs| && qs[i].token == token;
        var j := SameMembers(rs, qs, i);
      }
      if token in Answered(rs) {
        var i :| 0 <= i < |rs| && rs[i].token == token;
        var j := SameMembers(qs, rs, i);
      }
    }
  }

  lemma RankKeysDistinct(cs: seq<Conflict>, rs: seq<Choice>)
    requires Answers(cs, rs)
    ensures DistinctKeys(rs, Ranking(cs))
  {
    hide ConflictBy;
    forall i | 0 <= i < |rs| ensures rs[i].token in Required(cs) {
      assert rs[i].token in Answered(rs);
    }
    hide Required;
    forall i, j | 0 <= i < j < |rs| ensures Ranking(cs)(rs[i]) != Ranking(cs)(rs[j]) {
      assert ("0" + rs[i].token)[1..] == rs[i].token && ("1" + rs[i].token)[1..] == rs[i].token;
      assert ("0" + rs[j].token)[1..] == rs[j].token && ("1" + rs[j].token)[1..] == rs[j].token;
    }
  }

  /** materializeMerge gives the same result for every ordering of the same choices. */
  lemma MaterializedOrderFree(d: Decoder, b: Snapshot, s: Snapshot, t: Snapshot, valid: Snapshot -> bool,
                              cs: seq<Conflict>, rs: seq<Choice>, qs: seq<Choice>)
    requires Answers(cs, rs) && multiset(rs) == multiset(qs)
    ensures Answers(cs, qs) && Materialized(d, b, s, t, valid, cs, rs) == Materialized(d, b, s, t, valid, cs, qs)
  {
    AnswersOrderFree(cs, rs, qs);
    if OnlyCardinality(cs) {
      AnsweredSize(rs);
      AnsweredSize(qs);
      assert Required(cs) == {cs[0].token};
      assert rs == [rs[0]] && qs == [qs[0]];
      assert qs[0] in multiset(rs);
    } else {
      RankKeysDistinct(cs, rs);
      RankKeysDistinct(cs, qs);
      hide SortBy;
      SortByOrderFree(rs, qs, Ranking(cs));
    }
  }

  // ----- one choice at one site ---------------------------------------------------------

  /** The site a conflict is about. */
  function TargetSite(c: Conflict): Site {
    match c.conflictType
    case SchemaConflict => SchemaSite
    case PropertyConflict => PropertySite(c.element, c.id, c.property)
    case _ => ElementSite(c.element, c.id)
  }

  /** A whole-element choice also decides all of the element's properties. */
  predicate Touches(c: Conflict, site: Site) {
    TargetSite(c) == site || (site.PropertySite? && TargetSite(c) == ElementSite(site.kind, site.id))
  }

  predicate Proper(site: Site) { site.SchemaSite? || site.kind != SchemaKind }

  /** What the choice puts at a site it touches. */
  function ChosenAt(d: Decoder, s: Snapshot, t: Snapshot, c: Conflict, r: Choice, site: Site): Option<Content> {
    match c.conflictType
    case SchemaConflict =>
      var v := SchemaChoice(d, s, t, r);
      if v.Err? then None else Some(SchemaContent(v.value))
    case PropertyConflict =>
      var v := PropertyChoice(d, s, t, c, r);
      if v.Err? then None else Some(ValueContent(v.value))
    case _ =>
      var v := ElementChoice(d, s, t, c, r);
      if v.Err? then None
      else if site.PropertySite? then Some(ValueContent(ValueOf(v.value, site.name)))
        else Some(ShapeContent(ShapeOf(v.value)))
  }

  /** Choosing a side puts that side's content at the site. */
  lemma SideChosen(d: Decoder, s: Snapshot, t: Snapshot, c: Conflict, r: Choice, site: Site)
    requires Touches(c, site) && Proper(site) && (r.choice == "source" || r.choice == "target")
    ensures ChosenAt(d, s, t, c, r, site) == Some(Lookup(if r.choice == "source" then s else t, site))
  {}

  lemma ElementWithin(m: Snapshot, kind: ElementKind, id: string, value: Option<Element>, k: ElementKind, i: string)
    requires kind != SchemaKind && k != SchemaKind
    ensures ElementAt(WithElement(m, kind, id, value), k, i) == if k == kind && i == id then value
            else ElementAt(m, k, i)
  {}

  /** A choice leaves every site it does not touch alone. */
  lemma AppliedFrame(d: Decoder, s: Snapshot, t: Snapshot, m: Snapshot, c: Conflict, r: Choice, site: Site)
    requires Applied(d, s, t, m, c, r).Ok? && Proper(site) && Proper(TargetSite(c)) && !Touches(c, site)
    ensures Lookup(Applied(d, s, t, m, c, r).value, site) == Lookup(m, site)
  {
    hide SchemaChoice;
    hide PropertyChoice;
    hide ElementChoice;
    if c.conflictType != SchemaConflict && !site.SchemaSite? {
      var value := if c.conflictType == PropertyConflict
                   then Some(WithProperty(ElementAt(m, c.element, c.id).value, c.property,
                                          PropertyChoice(d, s, t, c, r).value))
                   else ElementChoice(d, s, t, c, r).value;
      ElementWithin(m, c.element, c.id, value, site.kind, site.id);
      hide WithElement;
      hide ElementAt;
    }
  }

  /** A choice puts its content at every site it touches, except where a property conflict decides. */
  lemma AppliedSets(d: Decoder, s: Snapshot, t: Snapshot, m: Snapshot, c: Conflict, r: Choice, site: Site)
    requires Applied(d, s, t, m, c, r).Ok? && Proper(site) && Proper(TargetSite(c)) && Touches(c, site)
    ensures ChosenAt(d, s, t, c, r, site) == Some(Lookup(Applied(d, s, t, m, c, r).value, site))
  {
    hide SchemaChoice;
    hide PropertyChoice;
    hide ElementChoice;
    if c.conflictType != SchemaConflict {
      var value := if c.conflictType == PropertyConflict
                   then Some(WithProperty(ElementAt(m, c.element, c.id).value, c.property,
                                          PropertyChoice(d, s, t, c, r).value))
                   else ElementChoice(d, s, t, c, r).value;
      ElementWithin(m, c.element, c.id, value, site.kind, site.id);
      hide WithElement;
      hide ElementAt;
    }
  }

  // ----- the whole list -----------------------------------------------------------------

  /** No two conflicts are about the same site. */
  ghost predicate Coherent(cs: seq<Conflict>) {
    && (forall c :: c in cs ==> Proper(TargetSite(c)))
    && (forall c, e :: c in cs && e in cs && TargetSite(c) == TargetSite(e) ==> c == e)
    && (forall c, e :: c in cs && e in cs && c.token == e.token ==> c == e)
  }

  ghost predicate Known(cs: seq<Conflict>, rs: seq<Choice>) {
    forall i :: 0 <= i < |rs| ==> rs[i].token in Required(cs)
  }

  lemma {:induction false} NoTouch(d: Decoder, s: Snapshot, t: Snapshot, m: Snapshot, cs: seq<Conflict>,
                                   rs: seq<Choice>, site: Site)
    requires Known(cs, rs) && AppliedAll(d, s, t, m, cs, rs).Ok? && Proper(site)
    requires forall c :: c in cs ==> Proper(TargetSite(c))
    requires forall i :: 0 <= i < |rs| ==> !Touches(ConflictBy(cs, rs[i].token), site)
    ensures Lookup(AppliedAll(d, s, t, m, cs, rs).value, site) == Lookup(m, site)
    decreases |rs|
  {
    hide Applied;
    hide Lookup;
    hide Touches;
    hide Required;
    hide ConflictBy;
    if rs != [] {
      var front, last := rs[..|rs| - 1], rs[|rs| - 1];
      NoTouch(d, s, t, m, cs, front, site);
      AppliedFrame(d, s, t, AppliedAll(d, s, t, m, cs, front).value, ConflictBy(cs, last.token), last, site);
    }
  }

  /** The last choice that touches a site decides it. */
  lemma {:induction false} LastTouch(d: Decoder, s: Snapshot, t: Snapshot, m: Snapshot, cs: seq<Conflict>,
                                     rs: seq<Choice>, i: nat, site: Site)
    requires Known(cs, rs) && AppliedAll(d, s, t, m, cs, rs).Ok? && Proper(site) && i < |rs|
    requires forall c :: c in cs ==> Proper(TargetSite(c))
    requires Touches(ConflictBy(cs, rs[i].token), site)
    requires forall j :: i < j < |rs| ==> !Touches(ConflictBy(cs, rs[j].token), site)
    ensures ChosenAt(d, s, t, ConflictBy(cs, rs[i].token), rs[i], site) ==
            Some(Lookup(AppliedAll(d, s, t, m, cs, rs).value, site))
    decreases |rs|
  {
    hide Applied;
    hide Lookup;
    hide Touches;
    hide Required;
    hide ConflictBy;
    hide ChosenAt;
    var front, last := rs[..|rs| - 1], rs[|rs| - 1];
    var before := AppliedAll(d, s, t, m, cs, front).value;
    if i == |front| {
      AppliedSets(d, s, t, before, ConflictBy(cs, last.token), last, site);
    } else {
      LastTouch(d, s, t, m, cs, front, i, site);
      AppliedFrame(d, s, t, before, ConflictBy(cs, last.token), last, site);
    }
  }

  /** In the order of application a property choice is never followed by a whole-element choice. */
  lemma PropertiesLast(cs: seq<Conflict>, rs: seq<Choice>, i: nat, j: nat)
    requires Answers(cs, rs) && i < j < |Ordered(cs, rs)|
    requires Ordered(cs, rs)[i].token in Required(cs) && Ordered(cs, rs)[j].token in Required(cs)
    requires ConflictBy(cs, Ordered(cs, rs)[i].token).conflictType == PropertyConflict
    ensures ConflictBy(cs, Ordered(cs, rs)[j].token).conflictType == PropertyConflict
  {
    hide Required;
    hide ConflictBy;
    hide SortBy;
    RankKeysDistinct(cs, rs);
    SortByStrict(rs, Ranking(cs));
    var ordered := Ordered(cs, rs);
    assert Less(Ranking(cs)(ordered[i]), Ranking(cs)(ordered[j]));
    assert Ranking(cs)(ordered[i])[0] == '1';
  }

  lemma OrderedDistinct(cs: seq<Conflict>, rs: seq<Choice>, i: nat, j: nat)
    requires Answers(cs, rs) && i < j < |Ordered(cs, rs)|
    ensures Ordered(cs, rs)[i].token != Ordered(cs, rs)[j].token
  {
    hide SortBy;
    AnswersOrderFree(cs, rs, Ordered(cs, rs));
  }

  /** No later choice touches a site that the conflict of choice `i` decides. */
  lemma NothingLater(cs: seq<Conflict>, rs: seq<Choice>, i: nat, j: nat, site: Site)
    requires Coherent(cs) && Answers(cs, rs) && i < j < |Ordered(cs, rs)|
    requires Ordered(cs, rs)[i].token in Required(cs) && Ordered(cs, rs)[j].token in Required(cs)
    requires Decides(cs, ConflictBy(cs, Ordered(cs, rs)[i].token), site)
    ensures !Touches(ConflictBy(cs, Ordered(cs, rs)[j].token), site)
  {
    hide Required;
    hide ConflictBy;
    hide Ordered;
    hide Answers;
    OrderedDistinct(cs, rs, i, j);
    var c, e := ConflictBy(cs, Ordered(cs, rs)[i].token), ConflictBy(cs, Ordered(cs, rs)[j].token);
    assert c in cs && e in cs && c.token != e.token;
    if c.conflictType == PropertyConflict {
      PropertiesLast(cs, rs, i, j);
    }
  }

  /** `c` is about the site, or about its whole element while no conflict is about the site itself. */
  ghost predicate Decides(cs: seq<Conflict>, c: Conflict, site: Site) {
    && c in cs && Touches(c, site)
    && (TargetSite(c) == site || forall e :: e in cs ==> TargetSite(e) != site)
  }

  /** The snapshot a resolved merge ends with holds, at every site some conflict decides, what was chosen for that
      conflict. */
  lemma ResolvedSite(d: Decoder, b: Snapshot, s: Snapshot, t: Snapshot, valid: Snapshot -> bool, cs: seq<Conflict>,
                     rs: seq<Choice>,
                     c: Conflict, r: Choice, site: Site)
    requires Coherent(cs) && Answers(cs, rs) && Materialized(d, b, s, t, valid, cs, rs).Ok? && !OnlyCardinality(cs)
    requires Decides(cs, c, site) && Proper(site) && r in rs && r.token == c.token
    ensures ChosenAt(d, s, t, c, r, site) == Some(Lookup(Materialized(d, b, s, t, valid, cs, rs).value, site))
  {
    hide Lookup;
    hide ChosenAt;
    hide Touches;
    hide MergedSnapshot;
    hide Answers;
    hide Decides;
    OrderedTokens(cs, rs);
    var ordered := Ordered(cs, rs);
    hide Ordered;
    var i :| 0 <= i < |ordered| && ordered[i] == r;
    assert c in cs by { DecidingListed(cs, c, site); }
    assert ConflictBy(cs, ordered[i].token) == c;
    forall j | i < j < |ordered| ensures !Touches(ConflictBy(cs, ordered[j].token), site) {
      NothingLater(cs, rs, i, j, site);
    }
    DecidingListed(cs, c, site);
    LastTouch(d, s, t, MergedSnapshot(b, s, t), cs, ordered, i, site);
  }

  lemma DecidingListed(cs: seq<Conflict>, c: Conflict, site: Site)
    requires Decides(cs, c, site)
    ensures c in cs && Touches(c, site)
  {}

  /** A site no conflict touches keeps what the merge put there. */
  lemma UnresolvedSite(d: Decoder, b: Snapshot, s: Snapshot, t: Snapshot, valid: Snapshot -> bool, cs: seq<Conflict>,
                       rs: seq<Choice>, site: Site)
    requires Coherent(cs) && Answers(cs, rs) && Materialized(d, b, s, t, valid, cs, rs).Ok? && !OnlyCardinality(cs)
    requires Proper(site) && forall c :: c in cs ==> !Touches(c, site)
    ensures Lookup(Materialized(d, b, s, t, valid, cs, rs).value, site) == Lookup(MergedSnapshot(b, s, t), site)
  {
    hide Lookup;
    hide Touches;
    hide MergedSnapshot;
    hide Answers;
    OrderedTokens(cs, rs);
    var ordered := Ordered(cs, rs);
    hide Ordered;
    NoTouch(d, s, t, MergedSnapshot(b, s, t), cs, ordered, site);
  }

  // ----- resolving a preview ------------------------------------------------------------

  /** The conflicts a preview of this merge lists. */
  ghost function Listed(b: Snapshot, s: Snapshot, t: Snapshot, validate: Snapshot -> Validation): seq<Conflict> {
    SortBy(ListedConflicts(b, s, t, validate), TokenOf)
  }

  lemma TargetOfConflictAt(b: Snapshot, s: Snapshot, t: Snapshot, site: Site)
    ensures TargetSite(ConflictAt(b, s, t, site)) == site
  {
    hide ConflictSite;
    hide Token;
  }

  lemma TokenListed(cs: seq<Conflict>, c: Conflict, e: Conflict)
    requires StrictlySorted(TokensOf(cs)) && c in cs && e in cs && c.token == e.token
    ensures c == e
  {
    var i :| 0 <= i < |cs| && cs[i] == c;
    var j :| 0 <= j < |cs| && cs[j] == e;
    if i < j {
      LessAsymmetric(TokensOf(cs)[i], TokensOf(cs)[j]);
    } else if j < i {
      LessAsymmetric(TokensOf(cs)[j], TokensOf(cs)[i]);
    }
  }

  lemma ConflictSiteProper(b: Snapshot, s: Snapshot, t: Snapshot, site: Site)
    requires ConflictSite(b, s, t, site)
    ensures Proper(site)
  {}

  /** The conflicts of a preview are about different sites, all of them conflict sites. */
  lemma PreviewCoherent(b: Snapshot, s: Snapshot, t: Snapshot, validate: Snapshot -> Validation)
    requires !ConflictFree(b, s, t)
    ensures Coherent(Listed(b, s, t, validate)) && !OnlyCardinality(Listed(b, s, t, validate))
    ensures forall c :: c in Listed(b, s, t, validate) ==>
                        ConflictSite(b, s, t, TargetSite(c)) && c == ConflictAt(b, s, t, TargetSite(c))
  {
    hide ConflictSite;
    hide ConflictAt;
    hide SortBy;
    hide ListedConflicts;
    hide TargetSite;
    ConflictListExact(b, s, t, validate);
    var cs := Listed(b, s, t, validate);
    forall c | c in cs ensures ConflictSite(b, s, t, TargetSite(c)) && c == ConflictAt(b, s, t, TargetSite(c))
      && Proper(TargetSite(c)) {
      var site :| ConflictSite(b, s, t, site) && c == ConflictAt(b, s, t, site);
      TargetOfConflictAt(b, s, t, site);
      ConflictSiteProper(b, s, t, site);
    }
    forall c, e | c in cs && e in cs && c.token == e.token ensures c == e {
      TokenListed(cs, c, e);
    }
    if OnlyCardinality(cs) {
      NeverCardinality(b, s, t, TargetSite(cs[0]));
    }
  }

  lemma NeverCardinality(b: Snapshot, s: Snapshot, t: Snapshot, site: Site)
    ensures ConflictAt(b, s, t, site).conflictType != Cardinality
  {}

  /** What a preview lists when no site conflicts: at most what validation found. */
  lemma LateListed(b: Snapshot, s: Snapshot, t: Snapshot, validate: Snapshot -> Validation)
    requires ConflictFree(b, s, t)
    ensures var late := ValidationConflict(validate(MergedSnapshot(b, s, t)));
            Listed(b, s, t, validate) == if late.Some? then [ConflictOf(late.value, SchemaKind, "", "")] else []
  {
    hide ConflictSite;
    hide ListedConflicts;
    hide SortBy;
    hide ConflictOf;
    ConflictListExact(b, s, t, validate);
  }

  lemma LateCoherent(b: Snapshot, s: Snapshot, t: Snapshot, validate: Snapshot -> Validation)
    requires ConflictFree(b, s, t) && !OnlyCardinality(Listed(b, s, t, validate))
    ensures Coherent(Listed(b, s, t, validate))
    ensures forall c :: c in Listed(b, s, t, validate) ==> TargetSite(c) == SchemaSite
  {
    hide ConflictFree;
    hide Listed;
    hide MergedSnapshot;
    hide Token;
    LateListed(b, s, t, validate);
    var late := ValidationConflict(validate(MergedSnapshot(b, s, t)));
    assert late.None? || late == Some(SchemaConflict) || late == Some(Cardinality);
    hide ValidationConflict;
  }

  lemma SchemaChoiceAlone(b: Snapshot, s: Snapshot, t: Snapshot, validate: Snapshot -> Validation, site: Site)
    requires forall c :: c in Listed(b, s, t, validate) ==> TargetSite(c) == SchemaSite
    requires site != SchemaSite || Listed(b, s, t, validate) == []
    ensures forall c :: c in Listed(b, s, t, validate) ==> !Touches(c, site)
  {
    hide Listed;
    hide TargetSite;
  }

  /** Whatever was chosen, every settled site of a resolved merge holds its clean three-way value. Two choices reach
      beyond conflict sites: one for a schema that only validation rejected, and one for a sole cardinality conflict. */
  lemma SettledSitesStayClean(d: Decoder, b: Snapshot, s: Snapshot, t: Snapshot, validate: Snapshot -> Validation,
                              valid: Snapshot -> bool,
                              rs: seq<Choice>, site: Site)
    requires Answers(Listed(b, s, t, validate), rs) && Settled(b, s, t, site)
    requires Materialized(d, b, s, t, valid, Listed(b, s, t, validate), rs).Ok?
    requires !OnlyCardinality(Listed(b, s, t, validate))
    requires site != SchemaSite || !ConflictFree(b, s, t) || Listed(b, s, t, validate) == []
    ensures Lookup(Materialized(d, b, s, t, valid, Listed(b, s, t, validate), rs).value, site) ==
            Merge3(Lookup(b, site), Lookup(s, site), Lookup(t, site))
  {
    hide ConflictSite;
    hide Listed;
    hide Materialized;
    hide Answers;
    hide Lookup;
    hide MergedSnapshot;
    hide TargetSite;
    hide Coherent;
    if ConflictFree(b, s, t) {
      LateCoherent(b, s, t, validate);
      SchemaChoiceAlone(b, s, t, validate, site);
      SettledProper(b, s, t, site);
    } else {
      PreviewCoherent(b, s, t, validate);
    }
    UnresolvedSite(d, b, s, t, valid, Listed(b, s, t, validate), rs, site);
    MergePointwise(b, s, t, site);
  }

  lemma SettledProper(b: Snapshot, s: Snapshot, t: Snapshot, site: Site)
    requires Settled(b, s, t, site)
    ensures Proper(site)
  {}

  /** A sole cardinality conflict is answered by one choice, and that choice is the whole result: a side as it stands,
      or a decoded snapshot that is valid. The clean merge is discarded. */
  lemma CardinalityReplacesMerge(d: Decoder, b: Snapshot, s: Snapshot, t: Snapshot, validate: Snapshot -> Validation,
                                 valid: Snapshot -> bool,
                                 rs: seq<Choice>)
    requires ConflictFree(b, s, t) && validate(MergedSnapshot(b, s, t)).Violated?
    requires forall code :: code in validate(MergedSnapshot(b, s, t)).codes ==> Contains(code, "cardinality")
    requires Answers(Listed(b, s, t, validate), rs)
    ensures |rs| == 1 && rs[0].choice in {"source", "target", "manual"}
    ensures var result := Materialized(d, b, s, t, valid, Listed(b, s, t, validate), rs);
            && (rs[0].choice == "source" ==> result == Ok(s))
            && (rs[0].choice == "target" ==> result == Ok(t))
            && (rs[0].choice == "manual" ==>
                  match d.snapshot(rs[0].value)
                  case None => result == Err(InvalidManualValue)
                  case Some(snapshot) => result == if valid(snapshot) then Ok(snapshot) else Err(InvalidResult))
  {
    hide ConflictFree;
    hide MergedSnapshot;
    hide Token;
    hide ListedConflicts;
    hide SortBy;
    ValidationListed(b, s, t, validate);
    hide Contains;
    var cs := Listed(b, s, t, validate);
    hide Listed;
    assert Required(cs) == {cs[0].token};
    AnsweredSize(rs);
    hide AppliedAll;
  }

  /** A conflict-free merge that validation rejects for another reason is answered by one choice too, and that decides
      the schema of the clean merge and nothing else. */
  lemma RejectedSchemaChosen(d: Decoder, b: Snapshot, s: Snapshot, t: Snapshot, validate: Snapshot -> Validation,
                             valid: Snapshot -> bool, rs: seq<Choice>)
    requires ConflictFree(b, s, t) && !validate(MergedSnapshot(b, s, t)).Accepted?
    requires var verdict := validate(MergedSnapshot(b, s, t));
             verdict.Violated? ==> exists code :: code in verdict.codes && !Contains(code, "cardinality")
    requires Answers(Listed(b, s, t, validate), rs)
    ensures |rs| == 1 && rs[0].choice in {"source", "target", "manual"}
    ensures var result := Materialized(d, b, s, t, valid, Listed(b, s, t, validate), rs);
            var chosen := if rs[0].choice == "source" then Some(s.schema)
                          else if rs[0].choice == "target" then Some(t.schema) else d.schema(rs[0].value);
            match chosen
            case None => result == Err(InvalidManualValue)
            case Some(schema) =>
              var m := MergedSnapshot(b, s, t).(schema := schema);
              result == if valid(m) then Ok(m) else Err(InvalidResult)
  {
    hide ConflictFree;
    hide MergedSnapshot;
    hide Token;
    hide ListedConflicts;
    hide SortBy;
    ValidationListed(b, s, t, validate);
    hide Contains;
    var cs := Listed(b, s, t, validate);
    hide Listed;
    assert cs[0].conflictType == SchemaConflict;
    assert Required(cs) == {cs[0].token};
    AnsweredSize(rs);
    assert rs[0].token in Answered(rs);
    AnswerFormed(cs, rs, rs[0]);
    hide Answers;
    hide Required;
    hide Answered;
    hide AppliedAll;
    OrderedOne(cs, rs);
    OneSchemaChoice(d, s, t, MergedSnapshot(b, s, t), cs, rs);
  }

  lemma OneSchemaChoice(d: Decoder, s: Snapshot, t: Snapshot, m: Snapshot, cs: seq<Conflict>, rs: seq<Choice>)
    requires |cs| == 1 && |rs| == 1 && cs[0].conflictType == SchemaConflict && rs[0].token == cs[0].token
    requires rs[0].choice in {"source", "target", "manual"}
    ensures var chosen := if rs[0].choice == "source" then Some(s.schema)
                          else if rs[0].choice == "target" then Some(t.schema) else d.schema(rs[0].value);
            AppliedAll(d, s, t, m, cs, rs) ==
              match chosen case None => Err(InvalidManualValue) case Some(schema) => Ok(m.(schema := schema))
  {
    assert rs[..0] == [];
    assert ConflictBy(cs, rs[0].token) == cs[0];
    assert AppliedAll(d, s, t, m, cs, rs[..0]) == Ok(m);
  }

  lemma OrderedOne(cs: seq<Conflict>, rs: seq<Choice>)
    requires |rs| == 1
    ensures Ordered(cs, rs) == rs
  {
    assert rs == [rs[0]];
  }

  // ----- every conflict site has its entry, if ids tell conflicts apart ------------------

  function NodeIds(b: Snapshot, s: Snapshot, t: Snapshot): set<string> {
    b.nodes.Keys + s.nodes.Keys + t.nodes.Keys
  }

  function EdgeIds(b: Snapshot, s: Snapshot, t: Snapshot): set<string> {
    b.edges.Keys + s.edges.Keys + t.edges.Keys
  }

  /** No id is empty, and no node id is another node id followed by a colon and more; the same for edges. */
  ghost predicate IdsTell(b: Snapshot, s: Snapshot, t: Snapshot) {
    && "" !in NodeIds(b, s, t) && "" !in EdgeIds(b, s, t)
    && ColonSafe(NodeIds(b, s, t)) && ColonSafe(EdgeIds(b, s, t))
  }

  lemma ConflictReported(b: Snapshot, s: Snapshot, t: Snapshot, site: Site)
    requires ConflictSite(b, s, t, site)
    ensures Reported(NodeIds(b, s, t), EdgeIds(b, s, t), ConflictAt(b, s, t, site))
  {
    hide Token;
  }

  /** With unambiguous ids every conflict site has its own entry in the preview. */
  lemma ConflictListed(b: Snapshot, s: Snapshot, t: Snapshot, validate: Snapshot -> Validation, site: Site)
    requires ConflictSite(b, s, t, site) && IdsTell(b, s, t)
    ensures ConflictAt(b, s, t, site) in Listed(b, s, t, validate)
  {
    hide ConflictSite;
    hide ConflictAt;
    hide SortBy;
    hide ListedConflicts;
    hide Reported;
    hide ColonSafe;
    hide NodeIds;
    hide EdgeIds;
    ConflictListExact(b, s, t, validate);
    var cs := Listed(b, s, t, validate);
    var c := ConflictAt(b, s, t, site);
    assert c.token in TokensOf(cs);
    var i :| 0 <= i < |cs| && TokensOf(cs)[i] == c.token;
    assert cs[i] in cs;
    var other :| ConflictSite(b, s, t, other) && cs[i] == ConflictAt(b, s, t, other);
    ConflictReported(b, s, t, site);
    ConflictReported(b, s, t, other);
    TokensUnambiguous(NodeIds(b, s, t), EdgeIds(b, s, t));
    assert Unambiguous(NodeIds(b, s, t), EdgeIds(b, s, t));
  }

  /** Two conflict sites with one token share one entry: the preview lists the conflict of at most one of them, and no
      choice can be made for the other. */
  lemma SharedTokenDrops(b: Snapshot, s: Snapshot, t: Snapshot, validate: Snapshot -> Validation, site: Site,
                         other: Site)
    requires ConflictSite(b, s, t, site) && ConflictSite(b, s, t, other) && site != other
    requires ConflictAt(b, s, t, site).token == ConflictAt(b, s, t, other).token
    ensures !(ConflictAt(b, s, t, site) in Listed(b, s, t, validate)
              && ConflictAt(b, s, t, other) in Listed(b, s, t, validate))
  {
    hide ConflictSite;
    hide ConflictAt;
    hide SortBy;
    hide ListedConflicts;
    hide TargetSite;
    ConflictListExact(b, s, t, validate);
    TargetOfConflictAt(b, s, t, site);
    TargetOfConflictAt(b, s, t, other);
    var cs := Listed(b, s, t, validate);
    if ConflictAt(b, s, t, site) in cs && ConflictAt(b, s, t, other) in cs {
      TokenListed(cs, ConflictAt(b, s, t, site), ConflictAt(b, s, t, other));
    }
  }

  /** Two nodes, "a" with the property "b:c" and "a:b" with the property "c". */
  function Colons(value: string): Snapshot {
    Snapshot(Schema("schema"),
             map["a" := Element(NodeShape("a", "", []), map["b:c" := Text(value)]),
                 "a:b" := Element(NodeShape("a:b", "", []), map["c" := Text(value)])],
             map[])
  }

  /** A concrete merge: both sides changed both properties, differently. Both are conflicts, with one token, and the
      preview lists only one of them. */
  lemma ConflictDropped(validate: Snapshot -> Validation)
    ensures var (b, s, t) := (Colons("base"), Colons("source"), Colons("target"));
            var (first, second) := (PropertySite(NodeKind, "a", "b:c"), PropertySite(NodeKind, "a:b", "c"));
            && ConflictSite(b, s, t, first) && ConflictSite(b, s, t, second)
            && ConflictAt(b, s, t, first).token == ConflictAt(b, s, t, second).token
            && !(ConflictAt(b, s, t, first) in Listed(b, s, t, validate)
                 && ConflictAt(b, s, t, second) in Listed(b, s, t, validate))
  {
    var (b, s, t) := (Colons("base"), Colons("source"), Colons("target"));
    var (first, second) := (PropertySite(NodeKind, "a", "b:c"), PropertySite(NodeKind, "a:b", "c"));
    assert ElementAt(b, NodeKind, "a") == Some(b.nodes["a"]) && ElementAt(b, NodeKind, "a:b") == Some(b.nodes["a:b"]);
    assert ConflictSite(b, s, t, first) && ConflictSite(b, s, t, second);
    var head := TypeName(PropertyConflict) + ":" + KindName(NodeKind);
    assert head + ":a" + ":b:c" == head + ":a:b" + ":c";
    SharedTokenDrops(b, s, t, validate, first, second);
  }

  /** Every conflict site of a resolved merge holds what was chosen for it: a side's content, or the decoded manual
      value. So does every property of an element that was resolved as a whole, unless the property is a conflict site
      itself. A manual element has the id of its conflict, and a manual null leaves no element. */
  lemma ChoicesWin(d: Decoder, b: Snapshot, s: Snapshot, t: Snapshot, validate: Snapshot -> Validation,
                   valid: Snapshot -> bool,
                   rs: seq<Choice>, at: Site, site: Site) returns (r: Choice)
    requires IdsTell(b, s, t)
    requires Answers(Listed(b, s, t, validate), rs)
             && Materialized(d, b, s, t, valid, Listed(b, s, t, validate), rs).Ok?
    requires ConflictSite(b, s, t, at)
    requires at == site || (site.PropertySite? && at == ElementSite(site.kind, site.id) && !ConflictSite(b, s, t, site))
    ensures r in rs && r.token == ConflictAt(b, s, t, at).token && r.choice in {"source", "target", "manual"}
    ensures var content := Lookup(Materialized(d, b, s, t, valid, Listed(b, s, t, validate), rs).value, site);
            && (r.choice == "source" ==> content == Lookup(s, site))
            && (r.choice == "target" ==> content == Lookup(t, site))
            && (r.choice == "manual" && at.SchemaSite? ==>
                  d.schema(r.value).Some? && content == SchemaContent(d.schema(r.value).value))
            && (r.choice == "manual" && at.PropertySite? ==>
                  d.property(r.value).Some? && content == ValueContent(d.property(r.value)))
            && (r.choice == "manual" && at.ElementSite? && r.value == "null" ==>
                  content == if site == at then ShapeContent(None) else ValueContent(None))
            && (r.choice == "manual" && at.ElementSite? && r.value != "null" ==>
                  && d.element(at.kind, r.value).Some?
                  && var e := d.element(at.kind, r.value).value;
                     && e.shape.id == at.id
                     && content == if site == at then ShapeContent(Some(e.shape))
                        else ValueContent(Get(e.properties, site.name)))
  {
    hide ConflictSite;
    hide ConflictAt;
    hide Listed;
    hide Materialized;
    hide Lookup;
    hide ChosenAt;
    hide Coherent;
    hide TargetSite;
    hide IdsTell;
    var cs := Listed(b, s, t, validate);
    var c := ConflictAt(b, s, t, at);
    PreviewCoherent(b, s, t, validate);
    ConflictListed(b, s, t, validate, at);
    TargetOfConflictAt(b, s, t, at);
    ConflictSiteProper(b, s, t, at);
    r := AnswerFor(cs, rs, c);
    assert Decides(cs, c, site);
    ResolvedSite(d, b, s, t, valid, cs, rs, c, r, site);
    AnswerFormed(cs, rs, r);
    hide Answers;
    ChosenMeans(d, b, s, t, r, at, site, Lookup(Materialized(d, b, s, t, valid, cs, rs).value, site));
  }

  lemma AnswerFormed(cs: seq<Conflict>, rs: seq<Choice>, r: Choice)
    requires Answers(cs, rs) && r in rs
    ensures r.choice in {"source", "target", "manual"} && (r.choice == "manual" <==> r.value != "")
  {
    var i :| 0 <= i < |rs| && rs[i] == r;
    assert WellFormed(rs[i]);
  }

  /** What a choice for the conflict at `at` puts at a site it decides. */
  lemma ChosenMeans(d: Decoder, b: Snapshot, s: Snapshot, t: Snapshot, r: Choice, at: Site, site: Site,
                    content: Content)
    requires Proper(at) && ChosenAt(d, s, t, ConflictAt(b, s, t, at), r, site) == Some(content)
    requires at == site || (site.PropertySite? && at == ElementSite(site.kind, site.id))
    requires r.choice in {"source", "target", "manual"}
    ensures r.choice == "source" ==> content == Lookup(s, site)
    ensures r.choice == "target" ==> content == Lookup(t, site)
    ensures r.choice == "manual" && at.SchemaSite? ==>
              d.schema(r.value).Some? && content == SchemaContent(d.schema(r.value).value)
    ensures r.choice == "manual" && at.PropertySite? ==>
              d.property(r.value).Some? && content == ValueContent(d.property(r.value))
    ensures r.choice == "manual" && at.ElementSite? && r.value == "null" ==>
              content == if site == at then ShapeContent(None) else ValueContent(None)
    ensures r.choice == "manual" && at.ElementSite? && r.value != "null" ==>
              && d.element(at.kind, r.value).Some?
              && var e := d.element(at.kind, r.value).value;
                 && e.shape.id == at.id
                 && content == if site == at then ShapeContent(Some(e.shape))
                    else ValueContent(Get(e.properties, site.name))
  {
    hide Token;
    if r.choice != "manual" {
      TargetOfConflictAt(b, s, t, at);
      SideChosen(d, s, t, ConflictAt(b, s, t, at), r, site);
    }
  }

  /** The manual value can be used for the conflict at this site. */
  predicate Usable(d: Decoder, at: Site, r: Choice) {
    r.choice == "manual" ==>
      match at
      case SchemaSite => d.schema(r.value).Some?
      case PropertySite(_, _, _) => d.property(r.value).Some?
      case ElementSite(kind, id) => r.value == "null" || (d.element(kind, r.value).Some?
                                                          && d.element(kind, r.value).value.shape.id == id)
  }

  /** One manual value that does not decode, or is an element with another id, makes the whole resolution fail. */
  lemma UnusableFails(d: Decoder, b: Snapshot, s: Snapshot, t: Snapshot, validate: Snapshot -> Validation,
                      valid: Snapshot -> bool, rs: seq<Choice>, at: Site, r: Choice)
    requires IdsTell(b, s, t) && ConflictSite(b, s, t, at) && Answers(Listed(b, s, t, validate), rs)
    requires r in rs && r.token == ConflictAt(b, s, t, at).token && !Usable(d, at, r)
    ensures Materialized(d, b, s, t, valid, Listed(b, s, t, validate), rs).Err?
  {
    hide ConflictSite;
    hide ConflictAt;
    hide Listed;
    hide Materialized;
    hide Lookup;
    hide IdsTell;
    if Materialized(d, b, s, t, valid, Listed(b, s, t, validate), rs).Ok? {
      var q := ChoicesWin(d, b, s, t, validate, valid, rs, at, at);
      OneAnswer(Listed(b, s, t, validate), rs, q, r);
    }
  }

  lemma OneAnswer(cs: seq<Conflict>, rs: seq<Choice>, q: Choice, r: Choice)
    requires Answers(cs, rs) && q in rs && r in rs && q.token == r.token
    ensures q == r
  {
    var i :| 0 <= i < |rs| && rs[i] == q;
    var j :| 0 <= j < |rs| && rs[j] == r;
    assert i == j;
  }

  lemma AnswerFor(cs: seq<Conflict>, rs: seq<Choice>, c: Conflict) returns (r: Choice)
    requires Answers(cs, rs) && c in cs
    ensures r in rs && r.token == c.token
  {
    var i :| 0 <= i < |cs| && cs[i] == c;
    assert c.token in Required(cs);
    var j :| 0 <= j < |rs| && rs[j].token == c.token;
    r := rs[j];
  }
}
