/** The Merced College pathway transformer: turns a third-party pathway map
    (a flat list of COURSE and CHOICE elements joined by REQUIRES and
    REQUIREMENT_OF associations) into one program insert and one course record
    per element, with each element's prerequisites resolved to display codes.

    Unit counts are exact reals (the source's JavaScript numbers without
    floating-point error); Math.round is `Round`. */
module MercedTransformer {
  import opened Common
  import Schema

  datatype OpportunityType = Course | Choice

  datatype Term = Term(customLabel: string, termNumber: int, year: int)

  datatype Opportunity = Opportunity(
    oppType: OpportunityType,
    term: Term,
    courseCode: Option<string>,
    courseName: Option<string>,
    name: Option<string>,
    description: Option<string>,
    minUnits: real,
    maxUnits: real)

  datatype Requirement = Requirement(requirementType: string)

  datatype Association = Association(
    elementId: string,
    assocType: string,
    associatedElementId: string)

  datatype PathwayElement = PathwayElement(
    id: string,
    name: string,
    shortDescription: string,
    requirement: Requirement,
    recommendedOpportunity: Opportunity,
    elementAssociations: seq<Association>)

  datatype PathwayMap = PathwayMap(
    programMapId: string,
    programId: string,
    programTitle: string,
    programAward: string,
    termsToCompletion: int,
    pathwayElements: seq<PathwayElement>)

  /** The record emitted per element: the fields of a course insert plus the
      requirement type, the choice flag and the choice description. */
  datatype TransformedCourse = TransformedCourse(
    programId: string,
    code: string,
    title: string,
    units: int,
    description: Option<string>,
    prerequisites: Option<seq<string>>,
    semester: string,
    semesterOrder: int,
    requirementType: string,
    isChoice: int,
    choiceDescription: Option<string>)

  /** Element id to the ids of its prerequisites, each value an
      insertion-ordered set. */
  type PrereqMap = map<string, seq<string>>

  // ---------------------------------------------------------------------
  // Numbers and semester labels
  // ---------------------------------------------------------------------

  /** Math.round: the nearest integer, halves rounded up. */
  function Round(x: real): (r: int)
    ensures r as real - 0.5 <= x < r as real + 0.5
  {
    (x + 0.5).Floor
  }

  /** Math.ceil(termNumber / 2): the year a term falls in, two terms a year. */
  function YearOf(termNumber: int): (year: int)
    ensures 2 * year - 1 <= termNumber <= 2 * year
  {
    (termNumber + 1) / 2
  }

  function SemesterLabel(termNumber: int, customLabel: string): string {
    customLabel + " Year " + IntToString(YearOf(termNumber))
  }

  /** A label is the custom label, " Year ", then the year in plain decimal
      (no leading zero), which reads back as ceil(termNumber / 2); by
      CanonicalUnique that fixes the label's text. From term 1 on the year is
      at least 1. */
  lemma SemesterLabelReadsBack(termNumber: int, customLabel: string)
    ensures var text := SemesterLabel(termNumber, customLabel);
      && text[..|customLabel| + 6] == customLabel + " Year "
      && ParseInt(text[|customLabel| + 6..]) == Some(YearOf(termNumber))
      && Canonical(text[|customLabel| + 6..])
    ensures termNumber >= 1 ==> YearOf(termNumber) >= 1
  {
    var text := SemesterLabel(termNumber, customLabel);
    assert text[|customLabel| + 6..] == IntToString(YearOf(termNumber));
    ParseIntToString(YearOf(termNumber));
    CanonicalUnique(text[|customLabel| + 6..], YearOf(termNumber));
  }

  lemma FallOfTheSecondYear()
    ensures SemesterLabel(3, "Fall") == "Fall Year 2"
    ensures SemesterLabel(1, "Fall") == "Fall Year 1"
    ensures SemesterLabel(4, "Spring") == "Spring Year 2"
  {
  }

  // ---------------------------------------------------------------------
  // Element classification
  // ---------------------------------------------------------------------

  predicate IsChoice(x: PathwayElement) {
    x.recommendedOpportunity.oppType == Choice
  }

  /** The code shown for an element, and for it as someone's prerequisite. */
  function DisplayCode(x: PathwayElement): string {
    if IsChoice(x) then x.name else OrElse(x.recommendedOpportunity.courseCode, x.name)
  }

  function DisplayTitle(x: PathwayElement): string {
    if IsChoice(x) then x.shortDescription
    else OrElse(x.recommendedOpportunity.courseName, x.shortDescription)
  }

  /** A choice slot shows the units still to satisfy (its minimum); a course
      its maximum, or its minimum when the maximum is 0. */
  function DisplayUnits(x: PathwayElement): int {
    var opp := x.recommendedOpportunity;
    Round(if IsChoice(x) then opp.minUnits else if opp.maxUnits != 0.0 then opp.maxUnits else opp.minUnits)
  }

  /** Description and choice description: only choice slots carry one. */
  function ChoiceText(x: PathwayElement): Option<string> {
    if IsChoice(x) then Some(OrElse(x.recommendedOpportunity.description, x.shortDescription)) else None
  }

  // ---------------------------------------------------------------------
  // Element index
  // ---------------------------------------------------------------------

  /** `elementMap`: every element under its id, a later element replacing an
      earlier one with the same id. */
  function ElementIndex(els: seq<PathwayElement>): map<string, PathwayElement> {
    if els == [] then map[]
    else ElementIndex(els[..|els| - 1])[els[|els| - 1].id := els[|els| - 1]]
  }

  lemma {:induction false} ElementIndexLookup(els: seq<PathwayElement>, id: string)
    ensures id in ElementIndex(els) <==> exists i :: 0 <= i < |els| && els[i].id == id
    ensures forall i :: 0 <= i < |els| && els[i].id == id &&
                        (forall j :: i < j < |els| ==> els[j].id != id) ==>
                        ElementIndex(els)[id] == els[i]
  {
    if els != [] {
      var init := els[..|els| - 1];
      ElementIndexLookup(init, id);
      assert forall i :: 0 <= i < |init| ==> init[i] == els[i];
      if id in ElementIndex(init) {
        var i :| 0 <= i < |init| && init[i].id == id;
        assert els[i].id == id;
      }
    }
  }

  method BuildElementIndex(els: seq<PathwayElement>) returns (index: map<string, PathwayElement>)
    ensures index == ElementIndex(els)
  {
    index := map[];
    for i := 0 to |els|
      invariant index == ElementIndex(els[..i])
    {
      assert els[..i + 1][..i] == els[..i];
      index := index[els[i].id := els[i]];
    }
    assert els[..|els|] == els;
  }

  // ---------------------------------------------------------------------
  // Prerequisite graph: REQUIRES and REQUIREMENT_OF folded into one relation
  // ---------------------------------------------------------------------

  /** Association `a`, listed on the element with id `owner`, makes `p` a
      prerequisite of `e`. The association's own `elementId` plays no part. */
  ghost predicate Asserts(owner: string, a: Association, e: string, p: string) {
    || (a.assocType == "REQUIRES" && e == owner && p == a.associatedElementId)
    || (a.assocType == "REQUIREMENT_OF" && e == a.associatedElementId && p == owner)
  }

  ghost predicate AssertsAny(owner: string, assocs: seq<Association>, e: string, p: string) {
    exists j :: 0 <= j < |assocs| && Asserts(owner, assocs[j], e, p)
  }

  /** Some element lists an association making `p` a prerequisite of `e`. */
  ghost predicate Asserted(els: seq<PathwayElement>, e: string, p: string) {
    exists i :: 0 <= i < |els| && AssertsAny(els[i].id, els[i].elementAssociations, e, p)
  }

  /** A REQUIREMENT_OF association opens an entry for its target. */
  ghost predicate OpensEntry(a: Association, k: string) {
    a.assocType == "REQUIREMENT_OF" && a.associatedElementId == k
  }

  ghost predicate OpensAny(assocs: seq<Association>, k: string) {
    exists j :: 0 <= j < |assocs| && OpensEntry(assocs[j], k)
  }

  ghost predicate HasEntry(els: seq<PathwayElement>, k: string) {
    exists i :: 0 <= i < |els| && (els[i].id == k || OpensAny(els[i].elementAssociations, k))
  }

  ghost predicate Has(m: PrereqMap, e: string, p: string) {
    e in m && p in m[e]
  }

  ghost predicate EntriesNoDup(m: PrereqMap) {
    forall e :: e in m ==> NoDup(m[e])
  }

  function Touch(m: PrereqMap, k: string): PrereqMap {
    if k in m then m else m[k := []]
  }

  function ApplyAssociation(m: PrereqMap, owner: string, a: Association): (r: PrereqMap)
    requires owner in m
    ensures m.Keys <= r.Keys
  {
    if a.assocType == "REQUIRES" then
      m[owner := AddNew(m[owner], a.associatedElementId)]
    else if a.assocType == "REQUIREMENT_OF" then
      var t := a.associatedElementId;
      var m1 := Touch(m, t);
      m1[t := AddNew(m1[t], owner)]
    else
      m
  }

  function ApplyAssociations(m: PrereqMap, owner: string, assocs: seq<Association>): (r: PrereqMap)
    requires owner in m
    ensures m.Keys <= r.Keys
    decreases |assocs|
  {
    if assocs == [] then m
    else ApplyAssociations(ApplyAssociation(m, owner, assocs[0]), owner, assocs[1..])
  }

  function ApplyElement(m: PrereqMap, x: PathwayElement): PrereqMap {
    ApplyAssociations(Touch(m, x.id), x.id, x.elementAssociations)
  }

  function ApplyElements(m: PrereqMap, els: seq<PathwayElement>): PrereqMap
    decreases |els|
  {
    if els == [] then m else ApplyElements(ApplyElement(m, els[0]), els[1..])
  }

  /** `prerequisitesMap`. */
  function PrerequisiteIds(els: seq<PathwayElement>): PrereqMap {
    ApplyElements(map[], els)
  }

  lemma ApplyAssociationFacts(m: PrereqMap, owner: string, a: Association)
    requires owner in m && EntriesNoDup(m)
    ensures var r := ApplyAssociation(m, owner, a);
      && EntriesNoDup(r)
      && (forall k :: k in r <==> k in m || OpensEntry(a, k))
      && (forall e, p :: Has(r, e, p) <==> Has(m, e, p) || Asserts(owner, a, e, p))
  {
  }

  lemma {:induction false} ApplyAssociationsFacts(m: PrereqMap, owner: string, assocs: seq<Association>)
    requires owner in m && EntriesNoDup(m)
    ensures var r := ApplyAssociations(m, owner, assocs);
      && EntriesNoDup(r)
      && (forall k :: k in r <==> k in m || OpensAny(assocs, k))
      && (forall e, p :: Has(r, e, p) <==> Has(m, e, p) || AssertsAny(owner, assocs, e, p))
    decreases |assocs|
  {
    if assocs != [] {
      var m1 := ApplyAssociation(m, owner, assocs[0]);
      var rest := assocs[1..];
      ApplyAssociationFacts(m, owner, assocs[0]);
      ApplyAssociationsFacts(m1, owner, rest);
      forall k ensures OpensAny(assocs, k) <==> OpensEntry(assocs[0], k) || OpensAny(rest, k) {
        if OpensAny(rest, k) {
          var j :| 0 <= j < |rest| && OpensEntry(rest[j], k);
          assert OpensEntry(assocs[j + 1], k);
        }
      }
      forall e, p ensures AssertsAny(owner, assocs, e, p) <==> Asserts(owner, assocs[0], e, p) || AssertsAny(owner, rest, e, p) {
        if AssertsAny(owner, rest, e, p) {
          var j :| 0 <= j < |rest| && Asserts(owner, rest[j], e, p);
          assert Asserts(owner, assocs[j + 1], e, p);
        }
        if AssertsAny(owner, assocs, e, p) {
          var j :| 0 <= j < |assocs| && Asserts(owner, assocs[j], e, p);
          if j > 0 {
            assert Asserts(owner, rest[j - 1], e, p);
          }
        }
      }
    }
  }

  lemma {:induction false} ApplyElementsFacts(m: PrereqMap, els: seq<PathwayElement>)
    requires EntriesNoDup(m)
    ensures var r := ApplyElements(m, els);
      && EntriesNoDup(r)
      && (forall k :: k in r <==> k in m || HasEntry(els, k))
      && (forall e, p :: Has(r, e, p) <==> Has(m, e, p) || Asserted(els, e, p))
    decreases |els|
  {
    if els != [] {
      var x := els[0];
      var rest := els[1..];
      var t := Touch(m, x.id);
      assert forall e, p :: Has(t, e, p) <==> Has(m, e, p);
      ApplyAssociationsFacts(t, x.id, x.elementAssociations);
      var m1 := ApplyElement(m, x);
      ApplyElementsFacts(m1, rest);
      HasEntryCons(els);
      AssertedCons(els);
    }
  }

  /** Entries opened by a list: those of its first element, then the rest's. */
  lemma HasEntryCons(els: seq<PathwayElement>)
    requires els != []
    ensures forall k :: HasEntry(els, k) <==>
              (els[0].id == k || OpensAny(els[0].elementAssociations, k)) || HasEntry(els[1..], k)
  {
    var rest := els[1..];
    forall k ensures HasEntry(els, k) <==> (els[0].id == k || OpensAny(els[0].elementAssociations, k)) || HasEntry(rest, k) {
      if HasEntry(rest, k) {
        var i :| 0 <= i < |rest| && (rest[i].id == k || OpensAny(rest[i].elementAssociations, k));
        assert els[i + 1] == rest[i];
      }
      if HasEntry(els, k) {
        var i :| 0 <= i < |els| && (els[i].id == k || OpensAny(els[i].elementAssociations, k));
        if i > 0 {
          assert rest[i - 1] == els[i];
        }
      }
    }
  }

  /** Pairs asserted by a list: those of its first element, then the rest's. */
  lemma AssertedCons(els: seq<PathwayElement>)
    requires els != []
    ensures forall e, p :: Asserted(els, e, p) <==>
              AssertsAny(els[0].id, els[0].elementAssociations, e, p) || Asserted(els[1..], e, p)
  {
    var rest := els[1..];
    forall e, p ensures Asserted(els, e, p) <==> AssertsAny(els[0].id, els[0].elementAssociations, e, p) || Asserted(rest, e, p) {
      if Asserted(rest, e, p) {
        var i :| 0 <= i < |rest| && AssertsAny(rest[i].id, rest[i].elementAssociations, e, p);
        assert els[i + 1] == rest[i];
      }
      if Asserted(els, e, p) {
        var i :| 0 <= i < |els| && AssertsAny(els[i].id, els[i].elementAssociations, e, p);
        if i > 0 {
          assert rest[i - 1] == els[i];
        }
      }
    }
  }

  /** An element has an entry exactly when it is listed or is the target of a
      REQUIREMENT_OF association; `p` is in `e`'s entry exactly when some
      association asserts it (REQUIRES listed on `e`, or REQUIREMENT_OF listed
      on `p` and naming `e`); no entry holds an id twice. */
  lemma PrerequisiteIdsExact(els: seq<PathwayElement>)
    ensures forall k :: k in PrerequisiteIds(els) <==> HasEntry(els, k)
    ensures forall e, p :: Has(PrerequisiteIds(els), e, p) <==> Asserted(els, e, p)
    ensures EntriesNoDup(PrerequisiteIds(els))
  {
    ApplyElementsFacts(map[], els);
  }

  /** Every listed element gets an entry, empty when no association asserts a
      prerequisite for it. */
  lemma EveryElementHasEntry(els: seq<PathwayElement>, i: int)
    requires 0 <= i < |els|
    ensures els[i].id in PrerequisiteIds(els)
    ensures (forall p :: !Asserted(els, els[i].id, p)) ==> PrerequisiteIds(els)[els[i].id] == []
  {
    PrerequisiteIdsExact(els);
    assert HasEntry(els, els[i].id);
    var ids := PrerequisiteIds(els)[els[i].id];
    if ids != [] {
      assert Has(PrerequisiteIds(els), els[i].id, ids[0]);
    }
  }

  method BuildPrerequisiteIds(els: seq<PathwayElement>) returns (m: PrereqMap)
    ensures m == PrerequisiteIds(els)
  {
    m := map[];
    var i := 0;
    while i < |els|
      invariant 0 <= i <= |els|
      invariant ApplyElements(m, els[i..]) == PrerequisiteIds(els)
    {
      var x := els[i];
      if x.id !in m {
        m := m[x.id := []];
      }
      ghost var touched := m;
      var assocs := x.elementAssociations;
      var j := 0;
      while j < |assocs|
        invariant 0 <= j <= |assocs|
        invariant x.id in m
        invariant ApplyAssociations(m, x.id, assocs[j..]) == ApplyAssociations(touched, x.id, assocs)
      {
        var a := assocs[j];
        if a.assocType == "REQUIRES" {
          m := m[x.id := AddNew(m[x.id], a.associatedElementId)];
        } else if a.assocType == "REQUIREMENT_OF" {
          if a.associatedElementId !in m {
            m := m[a.associatedElementId := []];
          }
          m := m[a.associatedElementId := AddNew(m[a.associatedElementId], x.id)];
        }
        assert assocs[j..][1..] == assocs[j + 1..];
        j := j + 1;
      }
      assert els[i..][1..] == els[i + 1..];
      i := i + 1;
    }
  }

  // ---------------------------------------------------------------------
  // Prerequisite codes
  // ---------------------------------------------------------------------

  /** Walks `ids` in order, appending the display code of each id found in
      the index unless that code is already present. */
  function CollectCodes(acc: seq<string>, ids: seq<string>, index: map<string, PathwayElement>): seq<string>
    decreases |ids|
  {
    if ids == [] then acc
    else
      var next := if ids[0] in index then AddNew(acc, DisplayCode(index[ids[0]])) else acc;
      CollectCodes(next, ids[1..], index)
  }

  function PrerequisiteCodes(ids: seq<string>, index: map<string, PathwayElement>): seq<string> {
    CollectCodes([], ids, index)
  }

  /** The id at position `j` of `ids` is indexed and its element displays as `c`. */
  ghost predicate ResolvesAt(ids: seq<string>, index: map<string, PathwayElement>, j: int, c: string) {
    0 <= j < |ids| && ids[j] in index && DisplayCode(index[ids[j]]) == c
  }

  /** Some id in `ids` is indexed and its element displays as `c`. */
  ghost predicate ResolvesTo(ids: seq<string>, index: map<string, PathwayElement>, c: string) {
    exists j :: ResolvesAt(ids, index, j, c)
  }

  /** The first position of `ids` that resolves to `c`, or `|ids|` when
      none does. */
  ghost function FirstIndex(ids: seq<string>, index: map<string, PathwayElement>, c: string): (j: nat)
    ensures j <= |ids|
    ensures j < |ids| ==> ResolvesAt(ids, index, j, c)
    ensures j == |ids| ==> !ResolvesTo(ids, index, c)
    ensures forall k :: 0 <= k < j ==> !ResolvesAt(ids, index, k, c)
    decreases |ids|
  {
    if ids == [] then 0
    else if ResolvesAt(ids, index, 0, c) then 0
    else
      var j := 1 + FirstIndex(ids[1..], index, c);
      assert forall k :: 1 <= k < |ids| ==> ids[1..][k - 1] == ids[k];
      assert forall k :: 1 <= k < |ids| ==> (ResolvesAt(ids, index, k, c) <==> ResolvesAt(ids[1..], index, k - 1, c));
      j
  }

  /** The codes from position `from` on are listed in the order in which
      `ids` first resolves to them: each code has a first resolving
      position, and a code listed earlier has an earlier one. */
  ghost predicate InFirstOrder(codes: seq<string>, from: int, ids: seq<string>, index: map<string, PathwayElement>) {
    && (forall a :: from <= a < |codes| && 0 <= a ==> FirstIndex(ids, index, codes[a]) < |ids|)
    && (forall a, b :: from <= a < b < |codes| && 0 <= a ==> FirstIndex(ids, index, codes[a]) < FirstIndex(ids, index, codes[b]))
  }

  /** The codes a collection appends come in the order of their first
      resolving ids: the insertion order of the Set walked by the forEach,
      each code at its first occurrence. */
  lemma {:induction false} CollectCodesOrder(acc: seq<string>, ids: seq<string>, index: map<string, PathwayElement>)
    requires NoDup(acc)
    ensures InFirstOrder(CollectCodes(acc, ids, index), |acc|, ids, index)
    decreases |ids|
  {
    if ids != [] {
      var next := if ids[0] in index then AddNew(acc, DisplayCode(index[ids[0]])) else acc;
      var r := CollectCodes(acc, ids, index);
      assert r == CollectCodes(next, ids[1..], index);
      CollectCodesFacts(next, ids[1..], index);
      CollectCodesOrder(next, ids[1..], index);
      assert |next| == |acc| || (|next| == |acc| + 1 && ResolvesAt(ids, index, 0, next[|acc|]));
      forall a | |next| <= a < |r|
        ensures FirstIndex(ids, index, r[a]) == 1 + FirstIndex(ids[1..], index, r[a])
      {
        assert r[a] !in next;
      }
      if |next| == |acc| + 1 {
        assert FirstIndex(ids, index, r[|acc|]) == 0;
      }
    }
  }

  lemma {:induction false} CollectCodesFacts(acc: seq<string>, ids: seq<string>, index: map<string, PathwayElement>)
    requires NoDup(acc)
    ensures NoDup(CollectCodes(acc, ids, index))
    ensures acc <= CollectCodes(acc, ids, index)
    ensures forall c :: c in CollectCodes(acc, ids, index) <==> c in acc || ResolvesTo(ids, index, c)
    decreases |ids|
  {
    if ids != [] {
      var next := if ids[0] in index then AddNew(acc, DisplayCode(index[ids[0]])) else acc;
      CollectCodesFacts(next, ids[1..], index);
      forall c ensures c in next || ResolvesTo(ids[1..], index, c) <==> c in acc || ResolvesTo(ids, index, c) {
        if ResolvesTo(ids[1..], index, c) {
          var j :| ResolvesAt(ids[1..], index, j, c);
          assert ids[j + 1] == ids[1..][j];
          assert ResolvesAt(ids, index, j + 1, c);
        }
        if ResolvesTo(ids, index, c) {
          var j :| ResolvesAt(ids, index, j, c);
          if j > 0 {
            assert ids[1..][j - 1] == ids[j];
            assert ResolvesAt(ids[1..], index, j - 1, c);
          }
        }
        if c in next && c !in acc {
          assert ResolvesAt(ids, index, 0, c);
        }
      }
    }
  }

  /** The codes hold no string twice, and a code is present exactly when some
      indexed prerequisite id displays as it; unindexed ids are skipped. */
  lemma PrerequisiteCodesExact(ids: seq<string>, index: map<string, PathwayElement>)
    ensures NoDup(PrerequisiteCodes(ids, index))
    ensures forall c :: c in PrerequisiteCodes(ids, index) <==> ResolvesTo(ids, index, c)
    ensures InFirstOrder(PrerequisiteCodes(ids, index), 0, ids, index)
  {
    CollectCodesFacts([], ids, index);
    CollectCodesOrder([], ids, index);
  }

  method CollectPrerequisiteCodes(ids: seq<string>, index: map<string, PathwayElement>) returns (codes: seq<string>)
    ensures codes == PrerequisiteCodes(ids, index)
  {
    codes := [];
    for k := 0 to |ids|
      invariant CollectCodes(codes, ids[k..], index) == PrerequisiteCodes(ids, index)
    {
      if ids[k] in index {
        var code := DisplayCode(index[ids[k]]);
        if code !in codes {
          codes := codes + [code];
        }
      }
      assert ids[k..][1..] == ids[k + 1..];
    }
    assert ids[|ids|..] == [];
  }

  // ---------------------------------------------------------------------
  // Output assembly
  // ---------------------------------------------------------------------

  /** The record for element `x` once its prerequisite codes are known. */
  function ElementRecord(x: PathwayElement, codes: seq<string>): TransformedCourse {
    var term := x.recommendedOpportunity.term;
    TransformedCourse(
      programId := "",
      code := DisplayCode(x),
      title := DisplayTitle(x),
      units := DisplayUnits(x),
      description := ChoiceText(x),
      prerequisites := if |codes| > 0 then Some(codes) else None,
      semester := SemesterLabel(term.termNumber, term.customLabel),
      semesterOrder := term.termNumber,
      requirementType := x.requirement.requirementType,
      isChoice := if IsChoice(x) then 1 else 0,
      choiceDescription := ChoiceText(x))
  }

  function CodesFor(id: string, index: map<string, PathwayElement>, prereqIds: PrereqMap): seq<string> {
    if id in prereqIds then PrerequisiteCodes(prereqIds[id], index) else []
  }

  /** Σ minUnits over every element, COURSE and CHOICE alike, left to right. */
  function SumMinUnits(els: seq<PathwayElement>): real {
    if els == [] then 0.0
    else SumMinUnits(els[..|els| - 1]) + els[|els| - 1].recommendedOpportunity.minUnits
  }

  function ProgramOf(pm: PathwayMap): Schema.InsertProgram {
    Schema.InsertProgram(
      name := pm.programId + " - " + pm.programTitle,
      description := Some("Merced College " + pm.programTitle + " program"),
      totalUnits := Some(Round(SumMinUnits(pm.pathwayElements))))
  }

  function Transform(pm: PathwayMap): (Schema.InsertProgram, seq<TransformedCourse>) {
    var els := pm.pathwayElements;
    var index := ElementIndex(els);
    var prereqIds := PrerequisiteIds(els);
    (ProgramOf(pm), seq(|els|, i requires 0 <= i < |els| => ElementRecord(els[i], CodesFor(els[i].id, index, prereqIds))))
  }

  /** `transformMercedProgram`. */
  method TransformMercedProgram(pm: PathwayMap) returns (program: Schema.InsertProgram, courses: seq<TransformedCourse>)
    ensures (program, courses) == Transform(pm)
  {
    var els := pm.pathwayElements;
    var index := BuildElementIndex(els);
    var prereqIds := BuildPrerequisiteIds(els);
    program := ProgramOf(pm);
    ghost var expected := Transform(pm).1;
    courses := [];
    for i := 0 to |els|
      invariant courses == expected[..i]
    {
      var x := els[i];
      var codes := [];
      if x.id in prereqIds {
        codes := CollectPrerequisiteCodes(prereqIds[x.id], index);
      }
      assert expected[i] == ElementRecord(x, codes);
      courses := courses + [ElementRecord(x, codes)];
      assert expected[..i + 1] == expected[..i] + [expected[i]];
    }
    assert expected[..|els|] == expected;
  }

  // ---------------------------------------------------------------------
  // What the output promises
  // ---------------------------------------------------------------------

  /** One record per element, in input order, with the variant rules for
      code, title, units and descriptions, an empty program id and the
      requirement type copied through. */
  lemma TransformedRecords(pm: PathwayMap, i: int)
    requires 0 <= i < |pm.pathwayElements|
    ensures |Transform(pm).1| == |pm.pathwayElements|
    ensures var x := pm.pathwayElements[i];
      var opp := x.recommendedOpportunity;
      var r := Transform(pm).1[i];
      && r.programId == ""
      && r.requirementType == x.requirement.requirementType
      && r.semesterOrder == opp.term.termNumber
      && r.semester == SemesterLabel(opp.term.termNumber, opp.term.customLabel)
      && (opp.oppType == Choice ==>
            && r.code == x.name && r.title == x.shortDescription
            && r.units == Round(opp.minUnits) && r.isChoice == 1
            && r.description == r.choiceDescription == Some(OrElse(opp.description, x.shortDescription)))
      && (opp.oppType == Course ==>
            && r.code == OrElse(opp.courseCode, x.name)
            && r.title == OrElse(opp.courseName, x.shortDescription)
            && r.units == Round(if opp.maxUnits != 0.0 then opp.maxUnits else opp.minUnits)
            && r.isChoice == 0 && r.description == None && r.choiceDescription == None)
  {
  }

  /** The prerequisites of element i's record: absent when nothing resolves,
      never an empty list; otherwise distinct codes, and `c` is among them
      exactly when some association asserts a prerequisite of element i that
      is in the index and displays as `c`. */
  lemma TransformedPrerequisites(pm: PathwayMap, i: int, c: string)
    requires 0 <= i < |pm.pathwayElements|
    ensures var els := pm.pathwayElements;
      var index := ElementIndex(els);
      var resolves := exists p :: Asserted(els, els[i].id, p) && p in index && DisplayCode(index[p]) == c;
      match Transform(pm).1[i].prerequisites
      case None => !resolves
      case Some(codes) =>
        && |codes| > 0 && NoDup(codes) && (c in codes <==> resolves)
        && els[i].id in PrerequisiteIds(els)
        && InFirstOrder(codes, 0, PrerequisiteIds(els)[els[i].id], index)
  {
    var els := pm.pathwayElements;
    var index := ElementIndex(els);
    assert Transform(pm).1[i] == ElementRecord(els[i], CodesFor(els[i].id, index, PrerequisiteIds(els)));
    CodesForExact(els, i, c);
    CodesForOrder(els, i);
  }

  /** The prerequisite codes of element i are distinct, and `c` is among them
      exactly when an asserted, indexed prerequisite displays as `c`. */
  lemma CodesForExact(els: seq<PathwayElement>, i: int, c: string)
    requires 0 <= i < |els|
    ensures var index := ElementIndex(els);
      var codes := CodesFor(els[i].id, index, PrerequisiteIds(els));
      && NoDup(codes)
      && (c in codes <==> exists p :: Asserted(els, els[i].id, p) && p in index && DisplayCode(index[p]) == c)
  {
    var index := ElementIndex(els);
    var prereqIds := PrerequisiteIds(els);
    var id := els[i].id;
    EveryElementHasEntry(els, i);
    PrerequisiteIdsExact(els);
    var ids := prereqIds[id];
    PrerequisiteCodesExact(ids, index);
    var codes := PrerequisiteCodes(ids, index);
    if exists p :: Asserted(els, id, p) && p in index && DisplayCode(index[p]) == c {
      var p :| Asserted(els, id, p) && p in index && DisplayCode(index[p]) == c;
      assert Has(prereqIds, id, p);
      var j :| 0 <= j < |ids| && ids[j] == p;
      assert ResolvesAt(ids, index, j, c);
    }
    if c in codes {
      assert ResolvesTo(ids, index, c);
      var j :| ResolvesAt(ids, index, j, c);
      assert Has(prereqIds, id, ids[j]);
    }
  }

  /** The prerequisite codes of element i come in the order in which its
      prerequisite ids, as the associations listed them, first display as
      each code. */
  lemma CodesForOrder(els: seq<PathwayElement>, i: int)
    requires 0 <= i < |els|
    ensures els[i].id in PrerequisiteIds(els)
    ensures InFirstOrder(CodesFor(els[i].id, ElementIndex(els), PrerequisiteIds(els)), 0,
                         PrerequisiteIds(els)[els[i].id], ElementIndex(els))
  {
    EveryElementHasEntry(els, i);
    PrerequisiteCodesExact(PrerequisiteIds(els)[els[i].id], ElementIndex(els));
  }

  /** The program's total is Σ minUnits rounded once: two choice slots of 1.5
      units total 3, where rounding each slot first would give 4. */
  lemma TotalRoundedOnce(pm: PathwayMap, x: PathwayElement)
    requires x.recommendedOpportunity.minUnits == 1.5
    requires pm.pathwayElements == [x, x]
    ensures ProgramOf(pm).totalUnits == Some(3)
    ensures Round(1.5) + Round(1.5) == 4
  {
    assert pm.pathwayElements[..1] == [x];
    assert [x][..0] == [];
    assert SumMinUnits([x]) == 1.5;
    assert SumMinUnits(pm.pathwayElements) == 3.0;
  }

  const CS101: PathwayElement := PathwayElement(
    "a", "Intro", "Introduction", Requirement("Major"),
    Opportunity(Course, Term("Fall", 1, 2025), Some("CS101"), None, None, None, 3.0, 3.0), [])

  const CS102: PathwayElement := PathwayElement(
    "b", "Next", "Programming", Requirement("Major"),
    Opportunity(Course, Term("Spring", 2, 2026), Some("CS102"), None, None, None, 3.0, 4.0),
    [Association("b", "REQUIRES", "a")])

  /** CS102 REQUIRES CS101: CS102 lists "CS101", CS101 lists nothing, CS102
      shows its 4 maximum units while the program totals the minimums, 6, so
      the units shown on the cards (7) do not add up to the program total. */
  lemma TwoCourseScenario()
    ensures var out := Transform(PathwayMap("map", "CP", "Programming", "CA", 2, [CS101, CS102]));
      && out.1[0].prerequisites == None
      && out.1[1].prerequisites == Some(["CS101"])
      && out.1[0].units == 3 && out.1[1].units == 4
      && out.0.totalUnits == Some(6)
  {
    var els := [CS101, CS102];
    assert els[..1] == [CS101];
    assert [CS101][..0] == [];
    assert ElementIndex([CS101]) == map["a" := CS101];
    assert ElementIndex(els) == map["a" := CS101, "b" := CS102];
    assert els[1..] == [CS102];
    assert ApplyElement(map[], CS101) == map["a" := []];
    var assocs := CS102.elementAssociations;
    var touched := map["a" := [], "b" := []];
    assert Touch(map["a" := []], "b") == touched;
    assert assocs[0] == Association("b", "REQUIRES", "a");
    assert AddNew([], "a") == ["a"];
    assert ApplyAssociation(touched, "b", assocs[0]) == touched["b" := ["a"]];
    assert touched["b" := ["a"]] == map["a" := [], "b" := ["a"]];
    assert assocs[1..] == [];
    assert ApplyElement(map["a" := []], CS102) == map["a" := [], "b" := ["a"]];
    assert [CS102][1..] == [];
    assert ApplyElements(map["a" := []], [CS102]) == map["a" := [], "b" := ["a"]];
    assert PrerequisiteIds(els) == ApplyElements(map["a" := []], [CS102]);
    assert PrerequisiteCodes(["a"], ElementIndex(els)) == ["CS101"];
    assert SumMinUnits([CS101]) == 3.0;
    assert SumMinUnits(els) == 6.0;
  }
}
