/** The pathway view's data logic: courses are grouped by semester name,
    the groups are ordered by their first course's term order, and each group
    is shown with its unit total and one card per course, flagged when the
    course is part of the chat conversation.

    The accumulator object of the grouping reduce is kept as a map together
    with its keys in insertion order, which is the order Object.entries
    lists them in for non-numeric keys. */
module PathwayMapper {
  import opened Common
  import opened Schema
  import opened Sorting

  datatype SemesterGroup = SemesterGroup(name: string, courses: seq<Course>)

  /** The courses of semester `s`, in input order. */
  function InSemester(cs: seq<Course>, s: string): seq<Course> {
    if cs == [] then []
    else
      var last := cs[|cs| - 1];
      assert cs == cs[..|cs| - 1] + [last];
      InSemester(cs[..|cs| - 1], s) + (if last.semester == s then [last] else [])
  }

  /** The list holds exactly the input courses of that semester. */
  lemma {:induction false} InSemesterMembers(cs: seq<Course>, s: string)
    ensures forall c :: c in InSemester(cs, s) <==> c in cs && c.semester == s
  {
    if cs != [] {
      var last := cs[|cs| - 1];
      assert cs == cs[..|cs| - 1] + [last];
      InSemesterMembers(cs[..|cs| - 1], s);
    }
  }

  /** A course occurs in its semester's list as often as in the input, and
      in no other semester's list. */
  lemma {:induction false} InSemesterCount(cs: seq<Course>, s: string, x: Course)
    ensures multiset(InSemester(cs, s))[x] == if x.semester == s then multiset(cs)[x] else 0
  {
    if cs != [] {
      var last := cs[|cs| - 1];
      assert cs == cs[..|cs| - 1] + [last];
      InSemesterCount(cs[..|cs| - 1], s, x);
    }
  }

  /** The semester names in order of first appearance. */
  function SemesterKeys(cs: seq<Course>): seq<string> {
    if cs == [] then []
    else
      var front := SemesterKeys(cs[..|cs| - 1]);
      var s := cs[|cs| - 1].semester;
      if s in front then front else front + [s]
  }

  /** The keys are distinct and are exactly the semesters that occur. */
  lemma {:induction false} SemesterKeysExact(cs: seq<Course>)
    ensures NoDup(SemesterKeys(cs))
    ensures forall i :: 0 <= i < |cs| ==> cs[i].semester in SemesterKeys(cs)
    ensures forall k :: 0 <= k < |SemesterKeys(cs)| ==>
              exists i :: 0 <= i < |cs| && cs[i].semester == SemesterKeys(cs)[k]
  {
    if cs != [] {
      var front := cs[..|cs| - 1];
      var r := SemesterKeys(cs);
      SemesterKeysExact(front);
      forall a, b | 0 <= a < b < |r|
        ensures r[a] != r[b]
      {
        if b >= |SemesterKeys(front)| {
          assert r[a] == SemesterKeys(front)[a];
        }
      }
      forall k | 0 <= k < |r|
        ensures exists i :: 0 <= i < |cs| && cs[i].semester == r[k]
      {
        if r[k] in SemesterKeys(front) {
          var m :| 0 <= m < |SemesterKeys(front)| && SemesterKeys(front)[m] == r[k];
          var i :| 0 <= i < |front| && front[i].semester == SemesterKeys(front)[m];
          assert cs[i].semester == r[k];
        } else {
          assert cs[|cs| - 1].semester == r[k];
        }
      }
      forall i | 0 <= i < |cs|
        ensures cs[i].semester in r
      {
        if i < |cs| - 1 {
          assert front[i] == cs[i];
        }
      }
    } else {
      assert SemesterKeys(cs) == [];
    }
  }

  lemma PrefixStep(cs: seq<Course>, i: int)
    requires 0 <= i < |cs|
    ensures SemesterKeys(cs[..i + 1])
            == if cs[i].semester in SemesterKeys(cs[..i]) then SemesterKeys(cs[..i])
               else SemesterKeys(cs[..i]) + [cs[i].semester]
    ensures forall s :: InSemester(cs[..i + 1], s)
                        == InSemester(cs[..i], s) + (if cs[i].semester == s then [cs[i]] else [])
  {
    assert cs[..i + 1][..i] == cs[..i];
  }

  lemma UnseenSemester(cs: seq<Course>, s: string)
    requires s !in SemesterKeys(cs)
    ensures InSemester(cs, s) == []
  {
    if InSemester(cs, s) != [] {
      var c := InSemester(cs, s)[0];
      InSemesterMembers(cs, s);
      assert c in cs;
      var i :| 0 <= i < |cs| && cs[i] == c;
      SemesterKeysExact(cs);
    }
  }

  /** Object.entries of the grouping reduce: one group per semester name, in
      order of first appearance, holding that semester's courses. */
  function Grouped(cs: seq<Course>): seq<SemesterGroup> {
    var keys := SemesterKeys(cs);
    seq(|keys|, k requires 0 <= k < |keys| => SemesterGroup(keys[k], InSemester(cs, keys[k])))
  }

  ghost predicate DistinctNames(gs: seq<SemesterGroup>) {
    forall i, j :: 0 <= i < j < |gs| ==> gs[i].name != gs[j].name
  }

  /** The groups' courses one group after the other, as the view lists them. */
  function Flatten(gs: seq<SemesterGroup>): seq<Course> {
    if gs == [] then [] else gs[0].courses + Flatten(gs[1..])
  }

  /** The reduce's state after the courses `cs`: the keys in insertion
      order, and under each key the courses of that semester so far. */
  ghost predicate Accumulated(cs: seq<Course>, keys: seq<string>, acc: map<string, seq<Course>>) {
    && keys == SemesterKeys(cs)
    && (forall k :: k in acc <==> k in keys)
    && (forall k :: k in acc ==> acc[k] == InSemester(cs, k))
  }

  lemma AccumulateStep(cs: seq<Course>, i: int, keys: seq<string>, acc: map<string, seq<Course>>)
    requires 0 <= i < |cs| && Accumulated(cs[..i], keys, acc)
    ensures var s := cs[i].semester;
            Accumulated(cs[..i + 1],
                        if s in acc then keys else keys + [s],
                        acc[s := (if s in acc then acc[s] else []) + [cs[i]]])
  {
    var s := cs[i].semester;
    var keys2 := if s in acc then keys else keys + [s];
    var acc2 := acc[s := (if s in acc then acc[s] else []) + [cs[i]]];
    PrefixStep(cs, i);
    assert keys2 == SemesterKeys(cs[..i + 1]);
    assert forall k :: k in acc2 <==> k in keys2;
    forall k | k in acc2
      ensures acc2[k] == InSemester(cs[..i + 1], k)
    {
      if k != s {
        assert acc2[k] == acc[k];
      } else if s !in acc {
        UnseenSemester(cs[..i], s);
      }
    }
    assert forall k :: k in acc2 ==> acc2[k] == InSemester(cs[..i + 1], k);
  }

  /** The reduce over `courses`: each course is pushed onto the list of its
      semester, a list being created the first time its semester is seen. */
  method GroupBySemester(courses: seq<Course>) returns (groups: seq<SemesterGroup>)
    ensures groups == Grouped(courses)
  {
    var keys: seq<string> := [];
    var acc: map<string, seq<Course>> := map[];
    for i := 0 to |courses|
      invariant Accumulated(courses[..i], keys, acc)
    {
      var c := courses[i];
      AccumulateStep(courses, i, keys, acc);
      if c.semester !in acc {
        acc := acc[c.semester := []];
        keys := keys + [c.semester];
      }
      acc := acc[c.semester := acc[c.semester] + [c]];
    }
    assert courses[..|courses|] == courses;
    groups := seq(|keys|, k requires 0 <= k < |keys| => SemesterGroup(keys[k], acc[keys[k]]));
  }

  // ---------------------------------------------------------------------
  // What the grouping guarantees
  // ---------------------------------------------------------------------

  lemma {:induction false} FlattenCount(gs: seq<SemesterGroup>, cs: seq<Course>, x: Course)
    requires forall k :: 0 <= k < |gs| ==> gs[k].courses == InSemester(cs, gs[k].name)
    requires DistinctNames(gs)
    ensures multiset(Flatten(gs))[x]
            == if exists k :: 0 <= k < |gs| && gs[k].name == x.semester then multiset(cs)[x] else 0
  {
    if gs != [] {
      InSemesterCount(cs, gs[0].name, x);
      FlattenCount(gs[1..], cs, x);
      if gs[0].name == x.semester {
        assert !exists k :: 0 <= k < |gs| - 1 && gs[1..][k].name == x.semester by {
          forall k | 0 <= k < |gs| - 1
            ensures gs[1..][k].name != x.semester
          {
            assert gs[1..][k] == gs[k + 1];
          }
        }
      } else {
        assert (exists k :: 0 <= k < |gs| && gs[k].name == x.semester)
               <==> (exists k :: 0 <= k < |gs| - 1 && gs[1..][k].name == x.semester) by {
          forall k | 0 <= k < |gs| && gs[k].name == x.semester
            ensures gs[1..][k - 1].name == x.semester
          {
            assert k != 0;
          }
        }
      }
    }
  }

  lemma GroupsNonEmpty(cs: seq<Course>, k: int)
    requires 0 <= k < |Grouped(cs)|
    ensures |Grouped(cs)[k].courses| > 0
  {
    var keys := SemesterKeys(cs);
    SemesterKeysExact(cs);
    var i :| 0 <= i < |cs| && cs[i].semester == keys[k];
    InSemesterMembers(cs, keys[k]);
    assert cs[i] in Grouped(cs)[k].courses;
  }

  lemma GroupsCover(cs: seq<Course>, i: int)
    requires 0 <= i < |cs|
    ensures exists k :: 0 <= k < |Grouped(cs)| && Grouped(cs)[k].name == cs[i].semester
  {
    var keys := SemesterKeys(cs);
    SemesterKeysExact(cs);
    var k :| 0 <= k < |keys| && keys[k] == cs[i].semester;
    assert Grouped(cs)[k].name == cs[i].semester;
  }

  lemma GroupedCount(cs: seq<Course>, x: Course)
    ensures multiset(Flatten(Grouped(cs)))[x] == multiset(cs)[x]
  {
    var gs := Grouped(cs);
    SemesterKeysExact(cs);
    assert DistinctNames(gs);
    FlattenCount(gs, cs, x);
    if x in cs {
      var i :| 0 <= i < |cs| && cs[i] == x;
      GroupsCover(cs, i);
    }
  }

  /** The groups are a partition of the courses: every group is non-empty,
      names are distinct, each group holds exactly its semester's courses in
      input order, every course's semester has a group, and concatenating
      the groups gives back every course exactly as often as it was given. */
  lemma GroupedPartition(cs: seq<Course>)
    ensures DistinctNames(Grouped(cs))
    ensures forall k :: 0 <= k < |Grouped(cs)| ==> |Grouped(cs)[k].courses| > 0
    ensures forall k :: 0 <= k < |Grouped(cs)| ==>
              Grouped(cs)[k].courses == InSemester(cs, Grouped(cs)[k].name)
    ensures forall i :: 0 <= i < |cs| ==>
              exists k :: 0 <= k < |Grouped(cs)| && Grouped(cs)[k].name == cs[i].semester
    ensures multiset(Flatten(Grouped(cs))) == multiset(cs)
  {
    SemesterKeysExact(cs);
    forall k | 0 <= k < |Grouped(cs)|
      ensures |Grouped(cs)[k].courses| > 0
    {
      GroupsNonEmpty(cs, k);
    }
    forall i | 0 <= i < |cs|
      ensures exists k :: 0 <= k < |Grouped(cs)| && Grouped(cs)[k].name == cs[i].semester
    {
      GroupsCover(cs, i);
    }
    forall x
      ensures multiset(Flatten(Grouped(cs)))[x] == multiset(cs)[x]
    {
      GroupedCount(cs, x);
    }
  }

  /** Inserting a group into a group list adds its courses to the listed
      courses and changes nothing else. */
  lemma {:induction false} FlattenInsert(x: SemesterGroup, gs: seq<SemesterGroup>)
    ensures multiset(Flatten(Insert(x, gs, GroupOrder))) == multiset(x.courses) + multiset(Flatten(gs))
  {
    if gs == [] || GroupOrder(x) <= GroupOrder(gs[0]) {
      assert ([x] + gs)[1..] == gs;
    } else {
      var rest := Insert(x, gs[1..], GroupOrder);
      FlattenInsert(x, gs[1..]);
      assert ([gs[0]] + rest)[1..] == rest;
    }
  }

  /** Sorting the groups reorders the listed courses and nothing else. */
  lemma {:induction false} FlattenSortBy(gs: seq<SemesterGroup>)
    ensures multiset(Flatten(SortBy(gs, GroupOrder))) == multiset(Flatten(gs))
  {
    if gs != [] {
      FlattenSortBy(gs[1..]);
      FlattenInsert(gs[0], SortBy(gs[1..], GroupOrder));
    }
  }

  // ---------------------------------------------------------------------
  // Ordering the groups
  // ---------------------------------------------------------------------

  /** The sort key of a group: its first course's term order, 0 for a group
      without courses (`a[1][0]?.semesterOrder || 0`). */
  function GroupOrder(g: SemesterGroup): int {
    if |g.courses| == 0 then 0 else g.courses[0].semesterOrder
  }

  /** The group list as the view renders it: the groups by ascending first
      term order, ties in order of first appearance. */
  function SortedSemesters(cs: seq<Course>): seq<SemesterGroup> {
    SortBy(Grouped(cs), GroupOrder)
  }

  /** The groups are ordered by first term order, the order is stable, the
      sorted list holds the same groups, and listing its courses group after
      group lists every input course exactly as often as it was given. */
  lemma SortedSemestersFacts(cs: seq<Course>)
    ensures SortedBy(SortedSemesters(cs), GroupOrder)
    ensures forall t :: WithKey(SortedSemesters(cs), GroupOrder, t) == WithKey(Grouped(cs), GroupOrder, t)
    ensures multiset(SortedSemesters(cs)) == multiset(Grouped(cs))
    ensures multiset(Flatten(SortedSemesters(cs))) == multiset(cs)
  {
    GroupedPartition(cs);
    FlattenSortBy(Grouped(cs));
  }

  /** Builds the groups and sorts them, as the view does before rendering. */
  method SemesterSections(courses: seq<Course>) returns (sections: seq<SemesterGroup>)
    ensures sections == SortedSemesters(courses)
    ensures SortedBy(sections, GroupOrder)
    ensures multiset(Flatten(sections)) == multiset(courses)
    ensures forall k :: 0 <= k < |sections| ==>
              |sections[k].courses| > 0 && sections[k].courses == InSemester(courses, sections[k].name)
  {
    var groups := GroupBySemester(courses);
    sections := SortBy(groups, GroupOrder);
    SortedSemestersFacts(courses);
    GroupedPartition(courses);
    forall k | 0 <= k < |sections|
      ensures |sections[k].courses| > 0 && sections[k].courses == InSemester(courses, sections[k].name)
    {
      assert sections[k] in multiset(groups);
    }
  }

  // ---------------------------------------------------------------------
  // Unit totals
  // ---------------------------------------------------------------------

  /** getTotalUnitsForSemester. */
  function SemesterUnits(g: SemesterGroup): int {
    UnitsOf(g.courses)
  }

  /** The semester totals of a group list, added up. */
  function TotalOfSemesters(gs: seq<SemesterGroup>): int {
    if gs == [] then 0 else SemesterUnits(gs[0]) + TotalOfSemesters(gs[1..])
  }

  lemma {:induction false} TotalOfSemestersFlatten(gs: seq<SemesterGroup>)
    ensures TotalOfSemesters(gs) == UnitsOf(Flatten(gs))
  {
    if gs != [] {
      TotalOfSemestersFlatten(gs[1..]);
      UnitsAppend(gs[0].courses, Flatten(gs[1..]));
    }
  }

  /** The per-semester totals shown add up to the units of all courses. */
  lemma SemesterTotalsAddUp(cs: seq<Course>)
    ensures TotalOfSemesters(SortedSemesters(cs)) == UnitsOf(cs)
  {
    SortedSemestersFacts(cs);
    TotalOfSemestersFlatten(SortedSemesters(cs));
    UnitsPermutation(Flatten(SortedSemesters(cs)), cs);
  }

  // ---------------------------------------------------------------------
  // Cards
  // ---------------------------------------------------------------------

  /** What a course card is given besides its course. */
  datatype Card = Card(course: Course, isInConversation: bool, isTaken: bool)

  /** The cards of one semester: one per course, in order, each flagged by
      whether its id is among the selected (resp. taken) ids. */
  function CardsOf(g: SemesterGroup, selectedCourseIds: seq<string>, takenCourseIds: seq<string>): (r: seq<Card>)
    ensures |r| == |g.courses|
    ensures forall k :: 0 <= k < |r| ==> r[k].course == g.courses[k]
    ensures forall k :: 0 <= k < |r| ==>
              (r[k].isInConversation <==> exists j :: 0 <= j < |selectedCourseIds| && selectedCourseIds[j] == g.courses[k].id)
    ensures forall k :: 0 <= k < |r| ==>
              (r[k].isTaken <==> exists j :: 0 <= j < |takenCourseIds| && takenCourseIds[j] == g.courses[k].id)
  {
    seq(|g.courses|, k requires 0 <= k < |g.courses| =>
      Card(g.courses[k], g.courses[k].id in selectedCourseIds, g.courses[k].id in takenCourseIds))
  }
}
