/** The records of the three tables (programs, courses, chat messages) and the
    shapes their inserts take. Nullable columns and optional insert fields are
    `Option`s: an insert field that is missing and one that is null are both
    `None`. Timestamps are milliseconds since the epoch. The JSON course
    context attached to a chat message is kept as its serialised text. */
module Schema {
  import opened Common

  datatype Program = Program(
    id: string,
    name: string,
    description: Option<string>,
    totalUnits: int)

  datatype Course = Course(
    id: string,
    programId: string,
    code: string,
    title: string,
    units: int,
    description: Option<string>,
    prerequisites: Option<seq<string>>,
    semester: string,
    semesterOrder: int)

  datatype ChatMessage = ChatMessage(
    id: string,
    sessionId: string,
    role: string,
    content: string,
    courseContext: Option<string>,
    timestamp: int)

  datatype InsertProgram = InsertProgram(
    name: string,
    description: Option<string>,
    totalUnits: Option<int>)

  datatype InsertCourse = InsertCourse(
    programId: string,
    code: string,
    title: string,
    units: int,
    description: Option<string>,
    prerequisites: Option<seq<string>>,
    semester: string,
    semesterOrder: int)

  datatype InsertChatMessage = InsertChatMessage(
    sessionId: string,
    role: string,
    content: string,
    courseContext: Option<string>)

  /** The sum of `units` over a list of courses, added left to right. */
  function UnitsOf(cs: seq<Course>): int {
    if cs == [] then 0 else UnitsOf(cs[..|cs| - 1]) + cs[|cs| - 1].units
  }

  lemma UnitsOfSnoc(cs: seq<Course>, i: int)
    requires 0 <= i < |cs|
    ensures UnitsOf(cs[..i + 1]) == UnitsOf(cs[..i]) + cs[i].units
  {
    assert cs[..i + 1][..i] == cs[..i];
  }

  lemma {:induction false} UnitsAppend(a: seq<Course>, b: seq<Course>)
    ensures UnitsOf(a + b) == UnitsOf(a) + UnitsOf(b)
    decreases |b|
  {
    if b == [] {
      assert a + b == a;
    } else {
      assert (a + b)[..|a + b| - 1] == a + b[..|b| - 1];
      UnitsAppend(a, b[..|b| - 1]);
    }
  }

  /** The sum with one course taken out, plus that course's units. */
  lemma UnitsWithout(b: seq<Course>, j: int)
    requires 0 <= j < |b|
    ensures UnitsOf(b) == UnitsOf(b[..j] + b[j + 1..]) + b[j].units
  {
    var x := b[j];
    assert b == b[..j] + [x] + b[j + 1..];
    UnitsAppend(b[..j] + [x], b[j + 1..]);
    UnitsAppend(b[..j], [x]);
    UnitsAppend(b[..j], b[j + 1..]);
    assert [x][..0] == [];
  }

  /** The sum does not depend on the order of the courses. */
  lemma {:induction false} UnitsPermutation(a: seq<Course>, b: seq<Course>)
    requires multiset(a) == multiset(b)
    ensures UnitsOf(a) == UnitsOf(b)
    decreases |a|
  {
    if a == [] {
      assert |b| == |multiset(b)| == 0;
    } else {
      assert a[0] in multiset(b);
      var j :| 0 <= j < |b| && b[j] == a[0];
      MultisetRemove(a, 0, b, j);
      UnitsPermutation(a[..0] + a[1..], b[..j] + b[j + 1..]);
      UnitsWithout(a, 0);
      UnitsWithout(b, j);
    }
  }
}
