// When a resolved merge fails: exactly if a manual value cannot be used, or a manual null removes an element that has a
// conflicting property, or the result is invalid.
module ResolutionSuccess {
  import opened Wrappers
  import opened Ordering
  import opened ThreeWayMerge
  import opened MergeLaws
  import opened PreviewLists
  import opened Resolution
  import opened ResolutionLaws

  /** This choice removes the element of its conflict. */
  ghost predicate Removes(b: Snapshot, s: Snapshot, t: Snapshot, r: Choice, kind: ElementKind, id: string) {
    && ConflictSite(b, s, t, ElementSite(kind, id)) && r.token == ConflictAt(b, s, t, ElementSite(kind, id)).token
    && r.choice == "manual" && r.value == "null"
  }

  /** Every manual value can be used for its conflict. */
  ghost predicate AllUsable(d: Decoder, b: Snapshot, s: Snapshot, t: Snapshot, rs: seq<Choice>) {
    forall at, r :: ConflictSite(b, s, t, at) && r in rs && r.token == ConflictAt(b, s, t, at).token ==>
                    Usable(d, at, r)
  }

  /** No element with a conflicting property is removed. */
  ghost predicate NoneGone(b: Snapshot, s: Snapshot, t: Snapshot, rs: seq<Choice>) {
    forall kind, id, name, r :: ConflictSite(b, s, t, PropertySite(kind, id, name)) && r in rs ==>
                                !Removes(b, s, t, r, kind, id)
  }

  /** The conflicts of a preview, as the choices see them. */
  ghost predicate Of(b: Snapshot, s: Snapshot, t: Snapshot, cs: seq<Conflict>) {
    && Coherent(cs)
    && (forall c :: c in cs ==> ConflictSite(b, s, t, TargetSite(c)) && c == ConflictAt(b, s, t, TargetSite(c)))
    && (forall at :: ConflictSite(b, s, t, at) ==> ConflictAt(b, s, t, at) in cs)
  }

  /** The choices in the order of application: element choices before property choices, one per conflict. */
  ghost predicate InRank(cs: seq<Conflict>, rs: seq<Choice>) {
    && Known(cs, rs)
    && (forall i :: 0 <= i < |rs| ==> rs[i].choice in {"source", "target", "manual"})
    && (forall i, j :: 0 <= i < j < |rs| ==> rs[i].token != rs[j].token)
    && (forall i, j :: 0 <= i < j < |rs| && ConflictBy(cs, rs[i].token).conflictType == PropertyConflict ==>
                       ConflictBy(cs, rs[j].token).conflictType == PropertyConflict)
  }

  lemma KnownConflict(cs: seq<Conflict>, rs: seq<Choice>, i: nat)
    requires Known(cs, rs) && i < |rs|
    ensures ConflictBy(cs, rs[i].token) in cs && ConflictBy(cs, rs[i].token).token == rs[i].token
  {
    hide Required;
    hide ConflictBy;
  }

  /** An element with a conflicting property is there before and after the clean merge. */
  lemma ConflictingElement(b: Snapshot, s: Snapshot, t: Snapshot, kind: ElementKind, id: string, name: string)
    requires ConflictSite(b, s, t, PropertySite(kind, id, name))
    ensures ElementAt(s, kind, id).Some? && ElementAt(t, kind, id).Some?
    ensures ElementAt(MergedSnapshot(b, s, t), kind, id).Some?
  {
    hide MergedProperties;
    MergedElementAt(kind, ElementsOf(b, kind), ElementsOf(s, kind), ElementsOf(t, kind), id);
    hide MergedElements;
  }

  /** What the choices so far leave of an element with a conflicting property: it is gone exactly if one of them
      removed it. */
  lemma ElementSoFar(d: Decoder, b: Snapshot, s: Snapshot, t: Snapshot, cs: seq<Conflict>, rs: seq<Choice>,
                     kind: ElementKind, id: string, name: string)
    requires Of(b, s, t, cs) && InRank(cs, rs) && ConflictSite(b, s, t, PropertySite(kind, id, name))
    requires AppliedAll(d, s, t, MergedSnapshot(b, s, t), cs, rs).Ok?
    ensures ElementAt(AppliedAll(d, s, t, MergedSnapshot(b, s, t), cs, rs).value, kind, id).None? <==>
            exists r :: r in rs && Removes(b, s, t, r, kind, id)
  {
    var site := ElementSite(kind, id);
    var m := AppliedAll(d, s, t, MergedSnapshot(b, s, t), cs, rs).value;
    ConflictingElement(b, s, t, kind, id, name);
    ElementIsShape(m, kind, id);
    ElementIsShape(s, kind, id);
    ElementIsShape(t, kind, id);
    ElementIsShape(MergedSnapshot(b, s, t), kind, id);
    ConflictSiteProper(b, s, t, PropertySite(kind, id, name));
    hide MergedSnapshot;
    hide AppliedAll;
    hide ElementAt;
    hide Lookup;
    hide ConflictBy;
    hide Required;
    hide ConflictSite;
    hide ConflictAt;
    hide TargetSite;
    if i :| 0 <= i < |rs| && TargetSite(ConflictBy(cs, rs[i].token)) == site {
      OneTouch(b, s, t, cs, rs, i, site);
      LastTouch(d, s, t, MergedSnapshot(b, s, t), cs, rs, i, site);
      KnownConflict(cs, rs, i);
      ChosenMeans(d, b, s, t, rs[i], site, site, Lookup(m, site));
      OneRemover(b, s, t, cs, rs, i, kind, id);
    } else {
      forall i | 0 <= i < |rs| ensures !Touches(ConflictBy(cs, rs[i].token), site) {}
      NoTouch(d, s, t, MergedSnapshot(b, s, t), cs, rs, site);
      forall r | r in rs ensures !Removes(b, s, t, r, kind, id) {
        if Removes(b, s, t, r, kind, id) { RemoverTargets(b, s, t, cs, rs, r, kind, id); }
      }
    }
  }

  lemma ElementIsShape(m: Snapshot, kind: ElementKind, id: string)
    ensures Lookup(m, ElementSite(kind, id)) == ShapeContent(None) <==> ElementAt(m, kind, id).None?
    ensures Lookup(m, ElementSite(kind, id)).ShapeContent?
  {}

  /** Only one choice is for the conflict at a site. */
  lemma OneTouch(b: Snapshot, s: Snapshot, t: Snapshot, cs: seq<Conflict>, rs: seq<Choice>, i: nat, site: Site)
    requires Of(b, s, t, cs) && InRank(cs, rs) && i < |rs| && site.ElementSite?
    requires TargetSite(ConflictBy(cs, rs[i].token)) == site
    ensures Touches(ConflictBy(cs, rs[i].token), site)
    ensures forall j :: 0 <= j < |rs| && j != i ==> TargetSite(ConflictBy(cs, rs[j].token)) != site
    ensures forall j :: 0 <= j < |rs| && j != i ==> !Touches(ConflictBy(cs, rs[j].token), site)
  {
    hide ConflictBy;
    hide Required;
    hide TargetSite;
    hide ConflictSite;
    hide ConflictAt;
    KnownConflict(cs, rs, i);
    forall j | 0 <= j < |rs| && j != i ensures TargetSite(ConflictBy(cs, rs[j].token)) != site {
      KnownConflict(cs, rs, j);
    }
  }

  /** A choice that removes an element is for the conflict at that element. */
  lemma RemoverTargets(b: Snapshot, s: Snapshot, t: Snapshot, cs: seq<Conflict>, rs: seq<Choice>, r: Choice,
                       kind: ElementKind, id: string)
    requires Of(b, s, t, cs) && InRank(cs, rs) && r in rs && Removes(b, s, t, r, kind, id)
    ensures exists i :: 0 <= i < |rs| && rs[i] == r && TargetSite(ConflictBy(cs, rs[i].token)) == ElementSite(kind, id)
  {
    hide ConflictBy;
    hide Required;
    hide TargetSite;
    hide ConflictSite;
    hide ConflictAt;
    var i :| 0 <= i < |rs| && rs[i] == r;
    KnownConflict(cs, rs, i);
    TargetOfConflictAt(b, s, t, ElementSite(kind, id));
    var c := ConflictAt(b, s, t, ElementSite(kind, id));
    assert c in cs && c.token == rs[i].token;
  }

  lemma OneRemover(b: Snapshot, s: Snapshot, t: Snapshot, cs: seq<Conflict>, rs: seq<Choice>, i: nat,
                   kind: ElementKind, id: string)
    requires Of(b, s, t, cs) && InRank(cs, rs) && i < |rs|
    requires TargetSite(ConflictBy(cs, rs[i].token)) == ElementSite(kind, id)
    ensures (exists r :: r in rs && Removes(b, s, t, r, kind, id)) <==>
              rs[i].choice == "manual" && rs[i].value == "null"
  {
    hide ConflictBy;
    hide Required;
    hide TargetSite;
    hide ConflictSite;
    hide ConflictAt;
    KnownConflict(cs, rs, i);
    var c := ConflictBy(cs, rs[i].token);
    assert ConflictSite(b, s, t, ElementSite(kind, id)) && c == ConflictAt(b, s, t, ElementSite(kind, id));
    OneTouch(b, s, t, cs, rs, i, ElementSite(kind, id));
    forall r | r in rs && Removes(b, s, t, r, kind, id) ensures r == rs[i] {
      RemoverTargets(b, s, t, cs, rs, r, kind, id);
    }
    if rs[i].choice == "manual" && rs[i].value == "null" {
      assert rs[i] in rs && Removes(b, s, t, rs[i], kind, id);
    }
  }

  lemma PrefixInRank(cs: seq<Conflict>, rs: seq<Choice>, n: nat)
    requires InRank(cs, rs) && n <= |rs|
    ensures InRank(cs, rs[..n])
  {
    hide ConflictBy;
    hide Required;
  }

  /** When one more choice can be applied. */
  lemma NextApplies(d: Decoder, b: Snapshot, s: Snapshot, t: Snapshot, m: Snapshot, c: Conflict, r: Choice)
    requires Proper(TargetSite(c)) && c == ConflictAt(b, s, t, TargetSite(c))
    requires r.choice in {"source", "target", "manual"}
    ensures Applied(d, s, t, m, c, r).Ok? <==>
              && Usable(d, TargetSite(c), r)
              && (c.conflictType == PropertyConflict ==> ElementAt(m, c.element, c.id).Some?)
    ensures Applied(d, s, t, m, c, r) != Err(InvalidResult)
  {
    hide Token;
  }

  /** The choices can all be applied exactly if each is usable and none removes an element that a later one needs. */
  lemma {:induction false} AppliedExactly(d: Decoder, b: Snapshot, s: Snapshot, t: Snapshot, cs: seq<Conflict>,
                                          rs: seq<Choice>)
    requires Of(b, s, t, cs) && InRank(cs, rs)
    ensures AppliedAll(d, s, t, MergedSnapshot(b, s, t), cs, rs).Ok? <==>
            forall i :: 0 <= i < |rs| ==> Fits(d, b, s, t, cs, rs, i)
    ensures AppliedAll(d, s, t, MergedSnapshot(b, s, t), cs, rs) != Err(InvalidResult)
    decreases |rs|
  {
    hide MergedSnapshot;
    hide ConflictBy;
    hide Required;
    hide ConflictSite;
    hide ConflictAt;
    hide TargetSite;
    hide Applied;
    if rs != [] {
      var n := |rs| - 1;
      var front := rs[..n];
      PrefixInRank(cs, rs, n);
      AppliedExactly(d, b, s, t, cs, front);
      forall i | 0 <= i < n ensures Fits(d, b, s, t, cs, front, i) <==> Fits(d, b, s, t, cs, rs, i) {
        assert front[..i] == rs[..i] && front[i] == rs[i];
      }
      if AppliedAll(d, s, t, MergedSnapshot(b, s, t), cs, front).Ok? {
        LastFits(d, b, s, t, cs, rs);
      }
      hide Of;
      hide InRank;
      hide Fits;
    }
  }

  lemma LastFits(d: Decoder, b: Snapshot, s: Snapshot, t: Snapshot, cs: seq<Conflict>, rs: seq<Choice>)
    requires Of(b, s, t, cs) && InRank(cs, rs) && rs != []
    requires AppliedAll(d, s, t, MergedSnapshot(b, s, t), cs, rs[..|rs| - 1]).Ok?
    ensures var n := |rs| - 1;
            var before := AppliedAll(d, s, t, MergedSnapshot(b, s, t), cs, rs[..n]).value;
            var next := Applied(d, s, t, before, ConflictBy(cs, rs[n].token), rs[n]);
            (next.Ok? <==> Fits(d, b, s, t, cs, rs, n)) && next != Err(InvalidResult)
  {
    hide MergedSnapshot;
    hide AppliedAll;
    hide ConflictBy;
    hide Required;
    hide ConflictSite;
    hide ConflictAt;
    hide TargetSite;
    hide Applied;
    hide Removes;
    hide Usable;
    var n := |rs| - 1;
    PrefixInRank(cs, rs, n);
    KnownConflict(cs, rs, n);
    var c := ConflictBy(cs, rs[n].token);
    NextApplies(d, b, s, t, AppliedAll(d, s, t, MergedSnapshot(b, s, t), cs, rs[..n]).value, c, rs[n]);
    if c.conflictType == PropertyConflict {
      PropertyTarget(c);
      ElementSoFar(d, b, s, t, cs, rs[..n], c.element, c.id, c.property);
    }
  }

  lemma PropertyTarget(c: Conflict)
    requires c.conflictType == PropertyConflict
    ensures TargetSite(c) == PropertySite(c.element, c.id, c.property)
  {}

  /** Choice `i` can be applied after the ones before it. */
  ghost predicate Fits(d: Decoder, b: Snapshot, s: Snapshot, t: Snapshot, cs: seq<Conflict>, rs: seq<Choice>, i: nat)
    requires i < |rs|
  {
    var c := ConflictBy(cs, rs[i].token);
    && Usable(d, TargetSite(c), rs[i])
    && (c.conflictType == PropertyConflict ==>
          !exists r :: r in rs[..i] && Removes(b, s, t, r, c.element, c.id))
  }

  /** Every choice fits exactly if the resolution as a whole is usable and removes no element it needs. */
  lemma FitsExactly(d: Decoder, b: Snapshot, s: Snapshot, t: Snapshot, cs: seq<Conflict>, rs: seq<Choice>)
    requires Of(b, s, t, cs) && InRank(cs, rs) && Answered(rs) == Required(cs)
    ensures (forall i :: 0 <= i < |rs| ==> Fits(d, b, s, t, cs, rs, i)) <==>
              AllUsable(d, b, s, t, rs) && NoneGone(b, s, t, rs)
  {
    hide ConflictSite;
    hide ConflictAt;
    hide TargetSite;
    hide Usable;
    hide ConflictBy;
    hide Removes;
    if forall i :: 0 <= i < |rs| ==> Fits(d, b, s, t, cs, rs, i) {
      forall at, r | ConflictSite(b, s, t, at) && r in rs && r.token == ConflictAt(b, s, t, at).token
        ensures Usable(d, at, r)
      {
        ChoiceFor(b, s, t, cs, rs, at, r);
        var i :| 0 <= i < |rs| && rs[i] == r && TargetSite(ConflictBy(cs, r.token)) == at;
        assert Fits(d, b, s, t, cs, rs, i);
      }
      forall kind, id, name, r | ConflictSite(b, s, t, PropertySite(kind, id, name)) && r in rs
        ensures !Removes(b, s, t, r, kind, id)
      {
        if Removes(b, s, t, r, kind, id) { RemovedBefore(d, b, s, t, cs, rs, kind, id, name, r); }
      }
    }
    if AllUsable(d, b, s, t, rs) && NoneGone(b, s, t, rs) {
      forall i | 0 <= i < |rs| ensures Fits(d, b, s, t, cs, rs, i) { UsableFits(d, b, s, t, cs, rs, i); }
    }
  }

  lemma UsableFits(d: Decoder, b: Snapshot, s: Snapshot, t: Snapshot, cs: seq<Conflict>, rs: seq<Choice>, i: nat)
    requires Of(b, s, t, cs) && InRank(cs, rs) && i < |rs|
    requires AllUsable(d, b, s, t, rs) && NoneGone(b, s, t, rs)
    ensures Fits(d, b, s, t, cs, rs, i)
  {
    hide ConflictSite;
    hide ConflictAt;
    hide TargetSite;
    hide Usable;
    hide ConflictBy;
    hide Removes;
    KnownConflict(cs, rs, i);
    var c := ConflictBy(cs, rs[i].token);
    assert rs[i] in rs && ConflictSite(b, s, t, TargetSite(c)) && c == ConflictAt(b, s, t, TargetSite(c));
    if c.conflictType == PropertyConflict {
      PropertyTarget(c);
      forall r | r in rs[..i] ensures !Removes(b, s, t, r, c.element, c.id) {
        assert r in rs;
      }
    }
  }

  lemma ChoiceFor(b: Snapshot, s: Snapshot, t: Snapshot, cs: seq<Conflict>, rs: seq<Choice>, at: Site, r: Choice)
    requires Of(b, s, t, cs) && InRank(cs, rs) && ConflictSite(b, s, t, at)
    requires r in rs && r.token == ConflictAt(b, s, t, at).token
    ensures exists i :: 0 <= i < |rs| && rs[i] == r && TargetSite(ConflictBy(cs, r.token)) == at
  {
    hide ConflictBy;
    hide Required;
    hide TargetSite;
    hide ConflictSite;
    hide ConflictAt;
    var i :| 0 <= i < |rs| && rs[i] == r;
    KnownConflict(cs, rs, i);
    TargetOfConflictAt(b, s, t, at);
    assert ConflictAt(b, s, t, at) in cs;
  }

  /** The choice for a property of a removed element comes after the removal, so it does not fit. */
  lemma RemovedBefore(d: Decoder, b: Snapshot, s: Snapshot, t: Snapshot, cs: seq<Conflict>, rs: seq<Choice>,
                      kind: ElementKind, id: string, name: string, r: Choice)
    requires Of(b, s, t, cs) && InRank(cs, rs) && Answered(rs) == Required(cs)
    requires ConflictSite(b, s, t, PropertySite(kind, id, name)) && r in rs && Removes(b, s, t, r, kind, id)
    ensures exists i :: 0 <= i < |rs| && !Fits(d, b, s, t, cs, rs, i)
  {
    hide ConflictBy;
    hide TargetSite;
    hide ConflictSite;
    hide ConflictAt;
    var at := PropertySite(kind, id, name);
    var p := ConflictAt(b, s, t, at);
    var i := AnswerIndex(cs, rs, p);
    ChoiceFor(b, s, t, cs, rs, at, rs[i]);
    KnownConflict(cs, rs, i);
    PropertyIsLate(b, s, t, at, kind, id);
    TargetOfConflictAt(b, s, t, at);
    RemoverTargets(b, s, t, cs, rs, r, kind, id);
    var j :| 0 <= j < |rs| && rs[j] == r && TargetSite(ConflictBy(cs, rs[j].token)) == ElementSite(kind, id);
    ElementIsEarly(ConflictBy(cs, rs[j].token), kind, id);
    assert ConflictBy(cs, rs[i].token) == p;
    assert j < i;
    assert rs[..i][j] == r;
    hide Removes;
    assert r in rs[..i] && Removes(b, s, t, r, kind, id);
    assert !Fits(d, b, s, t, cs, rs, i);
  }

  lemma AnswerIndex(cs: seq<Conflict>, rs: seq<Choice>, p: Conflict) returns (i: nat)
    requires p in cs && Answered(rs) == Required(cs)
    ensures i < |rs| && rs[i].token == p.token
  {
    var k :| 0 <= k < |cs| && cs[k] == p;
    assert p.token in Answered(rs);
    i :| 0 <= i < |rs| && rs[i].token == p.token;
  }

  lemma PropertyIsLate(b: Snapshot, s: Snapshot, t: Snapshot, at: Site, kind: ElementKind, id: string)
    requires at.PropertySite? && at.kind == kind && at.id == id
    ensures var p := ConflictAt(b, s, t, at); p.conflictType == PropertyConflict && p.element == kind && p.id == id
  {}

  lemma ElementIsEarly(c: Conflict, kind: ElementKind, id: string)
    requires TargetSite(c) == ElementSite(kind, id)
    ensures c.conflictType != PropertyConflict
  {}

  lemma OrderedInRank(cs: seq<Conflict>, rs: seq<Choice>)
    requires Answers(cs, rs)
    ensures InRank(cs, Ordered(cs, rs)) && Answers(cs, Ordered(cs, rs))
  {
    hide ConflictBy;
    hide SortBy;
    OrderedTokens(cs, rs);
    AnswersOrderFree(cs, rs, Ordered(cs, rs));
    var ordered := Ordered(cs, rs);
    forall i | 0 <= i < |ordered| ensures ordered[i].choice in {"source", "target", "manual"} {
      AnswerFormed(cs, ordered, ordered[i]);
    }
    hide Required;
    forall i, j | 0 <= i < j < |ordered| && ConflictBy(cs, ordered[i].token).conflictType == PropertyConflict
      ensures ConflictBy(cs, ordered[j].token).conflictType == PropertyConflict
    {
      PropertiesLast(cs, rs, i, j);
    }
  }

  lemma PreviewIsOf(b: Snapshot, s: Snapshot, t: Snapshot, validate: Snapshot -> Validation)
    requires IdsTell(b, s, t) && !ConflictFree(b, s, t)
    ensures Of(b, s, t, Listed(b, s, t, validate)) && !OnlyCardinality(Listed(b, s, t, validate))
  {
    hide ConflictSite;
    hide ConflictAt;
    hide Listed;
    hide TargetSite;
    hide Coherent;
    hide IdsTell;
    PreviewCoherent(b, s, t, validate);
    forall at | ConflictSite(b, s, t, at) ensures ConflictAt(b, s, t, at) in Listed(b, s, t, validate) {
      ConflictListed(b, s, t, validate, at);
    }
  }

  lemma SameChoices(b: Snapshot, s: Snapshot, t: Snapshot, d: Decoder, rs: seq<Choice>, qs: seq<Choice>)
    requires forall r :: r in rs <==> r in qs
    ensures AllUsable(d, b, s, t, rs) <==> AllUsable(d, b, s, t, qs)
    ensures NoneGone(b, s, t, rs) <==> NoneGone(b, s, t, qs)
  {
    hide ConflictSite;
    hide ConflictAt;
    hide Usable;
  }

  /** The exact condition: the accepted choices of a conflicted merge can be carried out if and only if every manual
      value can be used and no manual null removes an element with a conflicting property. After that only the result's
      own validity decides. */
  lemma ResolutionSucceedsExactly(d: Decoder, b: Snapshot, s: Snapshot, t: Snapshot, validate: Snapshot -> Validation,
                                  valid: Snapshot -> bool, rs: seq<Choice>)
    requires IdsTell(b, s, t) && !ConflictFree(b, s, t) && Answers(Listed(b, s, t, validate), rs)
    ensures var result := Materialized(d, b, s, t, valid, Listed(b, s, t, validate), rs);
            && (result.Ok? || result == Err(InvalidResult) <==>
                  AllUsable(d, b, s, t, rs) && NoneGone(b, s, t, rs))
            && (result.Ok? ==> valid(result.value))
  {
    hide ConflictSite;
    hide ConflictAt;
    hide Listed;
    hide AppliedAll;
    hide MergedSnapshot;
    hide IdsTell;
    hide AllUsable;
    hide NoneGone;
    hide ConflictFree;
    hide Of;
    hide InRank;
    var cs := Listed(b, s, t, validate);
    PreviewIsOf(b, s, t, validate);
    OrderedInRank(cs, rs);
    OrderedTokens(cs, rs);
    var ordered := Ordered(cs, rs);
    SameChoices(b, s, t, d, rs, ordered);
    AppliedExactly(d, b, s, t, cs, ordered);
    FitsExactly(d, b, s, t, cs, ordered);
    hide Fits;
    hide Ordered;
    hide Answers;
  }
}
