/** The in-memory store behind the HTTP API: three tables (programs, courses,
    chat messages) keyed by generated id, and a flag for the sample data that
    the program getters seed lazily on first use.

    A JavaScript Map iterates in insertion order, so each table is a map
    together with the sequence of its keys in insertion order. The random
    ids and the clock are parameters: each creating method is handed the id
    it stores under (not yet in its table) and a chat message its timestamp. */
module Storage {
  import opened Common
  import opened Schema
  import opened Sorting

  /** Array.from(table.values()) for a table kept as a map and its key order. */
  function Values<V>(m: map<string, V>, order: seq<string>): seq<V>
    requires forall k :: k in order ==> k in m
  {
    seq(|order|, i requires 0 <= i < |order| => m[order[i]])
  }

  ghost predicate OrderedTable<V>(m: map<string, V>, order: seq<string>) {
    NoDup(order) && forall k :: k in m <==> k in order
  }

  lemma ValuesAppend<V>(m: map<string, V>, order: seq<string>, k: string, v: V)
    requires OrderedTable(m, order) && k !in m
    ensures OrderedTable(m[k := v], order + [k])
    ensures Values(m[k := v], order + [k]) == Values(m, order) + [v]
  {
  }

  function Lookup<V>(m: map<string, V>, k: string): Option<V> {
    if k in m then Some(m[k]) else None
  }

  // ---------------------------------------------------------------------
  // Sample data
  // ---------------------------------------------------------------------

  const SampleProgramName := "Computer Programming - Certificate of Achievement"
  const SampleProgramDescription :=
    "A comprehensive program covering computer science fundamentals, programming languages, and software development"

  function SampleProgram(id: string): Program {
    Program(id, SampleProgramName, Some(SampleProgramDescription), 32)
  }

  /** One row of the sample course list, before it gets its ids. */
  datatype SampleRow = SampleRow(
    code: string, title: string, units: int, description: string,
    prerequisites: seq<string>, semester: string, semesterOrder: int)

  const SampleRows: seq<SampleRow> := [
    SampleRow("CS 101", "Introduction to Computer Science", 3,
      "Fundamental concepts of computer science including problem-solving, algorithms, and programming basics",
      [], "Fall Year 1", 1),
    SampleRow("MATH 120", "College Algebra", 4,
      "Functions, equations, inequalities, and their applications",
      [], "Fall Year 1", 1),
    SampleRow("CS 102", "Programming Fundamentals", 3,
      "Introduction to programming using a high-level language with emphasis on problem-solving",
      ["CS 101"], "Spring Year 1", 2),
    SampleRow("CS 110", "Data Structures", 4,
      "Study of data structures including arrays, linked lists, stacks, queues, trees, and graphs",
      ["CS 102"], "Spring Year 1", 2),
    SampleRow("CS 201", "Object-Oriented Programming", 3,
      "Principles of object-oriented design and programming using modern programming languages",
      ["CS 110"], "Fall Year 2", 3),
    SampleRow("CS 205", "Web Development", 3,
      "Front-end and back-end web development technologies including HTML, CSS, JavaScript, and server-side programming",
      ["CS 102"], "Fall Year 2", 3),
    SampleRow("CS 210", "Database Systems", 3,
      "Database design, SQL, normalization, and database management systems",
      ["CS 110"], "Spring Year 2", 4),
    SampleRow("CS 220", "Software Engineering", 4,
      "Software development lifecycle, design patterns, testing, and project management",
      ["CS 201"], "Spring Year 2", 4),
    SampleRow("COMM 101", "Technical Communication", 3,
      "Writing and presentation skills for technical professionals",
      [], "Spring Year 2", 4)
  ]

  /** The sample course list with its ids: the description and prerequisite
      list are stored (the latter possibly empty, never null). */
  function SampleCourses(programId: string, ids: seq<string>): (r: seq<Course>)
    requires |ids| == |SampleRows|
    ensures |r| == |ids|
    ensures forall i :: 0 <= i < |r| ==> r[i].id == ids[i] && r[i].programId == programId
  {
    seq(|ids|, i requires 0 <= i < |ids| =>
      var row := SampleRows[i];
      Course(ids[i], programId, row.code, row.title, row.units, Some(row.description),
             Some(row.prerequisites), row.semester, row.semesterOrder))
  }

  /** The sample program claims 32 units, but its nine courses carry 30. */
  lemma SampleUnits(programId: string, ids: seq<string>)
    requires |ids| == |SampleRows|
    ensures SampleProgram(programId).totalUnits == 32
    ensures |SampleCourses(programId, ids)| == 9
    ensures UnitsOf(SampleCourses(programId, ids)) == 30
  {
    var cs := SampleCourses(programId, ids);
    assert |SampleRows| == 9;
    assert cs[..0] == [];
    UnitsOfSnoc(cs, 0);
    assert UnitsOf(cs[..1]) == 3;
    UnitsOfSnoc(cs, 1);
    assert UnitsOf(cs[..2]) == 7;
    UnitsOfSnoc(cs, 2);
    assert UnitsOf(cs[..3]) == 10;
    UnitsOfSnoc(cs, 3);
    assert UnitsOf(cs[..4]) == 14;
    UnitsOfSnoc(cs, 4);
    assert UnitsOf(cs[..5]) == 17;
    UnitsOfSnoc(cs, 5);
    assert UnitsOf(cs[..6]) == 20;
    UnitsOfSnoc(cs, 6);
    assert UnitsOf(cs[..7]) == 23;
    UnitsOfSnoc(cs, 7);
    assert UnitsOf(cs[..8]) == 27;
    UnitsOfSnoc(cs, 8);
    assert cs[..9] == cs;
  }

  // ---------------------------------------------------------------------
  // Queries over a table's values
  // ---------------------------------------------------------------------

  /** The filter of getCoursesByProgram: the courses of one program, in order. */
  function OfProgram(cs: seq<Course>, programId: string): (r: seq<Course>)
    ensures forall c :: c in r <==> c in cs && c.programId == programId
  {
    if cs == [] then []
    else (if cs[0].programId == programId then [cs[0]] else []) + OfProgram(cs[1..], programId)
  }

  /** The filter of getChatMessagesBySession: one session's messages, in order. */
  function InSession(ms: seq<ChatMessage>, sessionId: string): (r: seq<ChatMessage>)
    ensures forall m :: m in r <==> m in ms && m.sessionId == sessionId
  {
    if ms == [] then []
    else (if ms[0].sessionId == sessionId then [ms[0]] else []) + InSession(ms[1..], sessionId)
  }

  function Timestamp(m: ChatMessage): int {
    m.timestamp
  }

  /** A session's history: its messages by ascending timestamp, messages with
      equal timestamps in insertion order. */
  function History(ms: seq<ChatMessage>, sessionId: string): seq<ChatMessage> {
    SortBy(InSession(ms, sessionId), Timestamp)
  }

  /** The course a `createCourse` call stores: the insert's fields under `id`. */
  function CourseRecord(insert: InsertCourse, id: string): (c: Course)
    ensures c.id == id && c.programId == insert.programId && c.code == insert.code
    ensures c.title == insert.title && c.units == insert.units
    ensures c.description == insert.description && c.prerequisites == insert.prerequisites
    ensures c.semester == insert.semester && c.semesterOrder == insert.semesterOrder
  {
    Course(id, insert.programId, insert.code, insert.title, insert.units,
           insert.description, insert.prerequisites, insert.semester, insert.semesterOrder)
  }

  // ---------------------------------------------------------------------
  // The store
  // ---------------------------------------------------------------------

  class MemStorage {
    var programs: map<string, Program>
    var programOrder: seq<string>
    var courses: map<string, Course>
    var courseOrder: seq<string>
    var chatMessages: map<string, ChatMessage>
    var messageOrder: seq<string>
    var initialized: bool

    /** Each table lists each key once, in insertion order, and stores every
        record under its own id. */
    ghost predicate Valid()
      reads this
    {
      && OrderedTable(programs, programOrder)
      && OrderedTable(courses, courseOrder)
      && OrderedTable(chatMessages, messageOrder)
      && (forall k :: k in programs ==> programs[k].id == k)
      && (forall k :: k in courses ==> courses[k].id == k)
      && (forall k :: k in chatMessages ==> chatMessages[k].id == k)
    }

    function AllPrograms(): seq<Program>
      reads this
      requires Valid()
    {
      Values(programs, programOrder)
    }

    function AllCourses(): seq<Course>
      reads this
      requires Valid()
    {
      Values(courses, courseOrder)
    }

    function AllMessages(): seq<ChatMessage>
      reads this
      requires Valid()
    {
      Values(chatMessages, messageOrder)
    }

    constructor ()
      ensures Valid() && !initialized
      ensures AllPrograms() == [] && AllCourses() == [] && AllMessages() == []
    {
      programs, programOrder := map[], [];
      courses, courseOrder := map[], [];
      chatMessages, messageOrder := map[], [];
      initialized := false;
    }

    /** Ids the sample data can be stored under: the program's first, then
        the nine courses', none already taken. */
    ghost predicate FreshSeed(ids: seq<string>)
      reads this
    {
      && |ids| == |SampleRows| + 1
      && ids[0] !in programs
      && NoDup(ids[1..])
      && forall k :: k in ids[1..] ==> k !in courses
    }

    /** What the lazy initialisation leaves behind: on the first call the
        sample program and its nine courses are appended, later calls change
        nothing; chat messages are never touched. */
    twostate predicate Seeded(ids: seq<string>)
      reads this
      requires old(Valid()) && Valid()
      requires !old(initialized) ==> |ids| == |SampleRows| + 1
    {
      && initialized
      && chatMessages == old(chatMessages) && messageOrder == old(messageOrder)
      && if old(initialized) then
           && programs == old(programs) && programOrder == old(programOrder)
           && courses == old(courses) && courseOrder == old(courseOrder)
         else
           && programs == old(programs)[ids[0] := SampleProgram(ids[0])]
           && (forall k :: k in old(courses) ==> k in courses && courses[k] == old(courses)[k])
           && AllPrograms() == old(AllPrograms()) + [SampleProgram(ids[0])]
           && AllCourses() == old(AllCourses()) + SampleCourses(ids[0], ids[1..])
    }

    /** `this.programs.set(p.id, p)` for a fresh id. */
    method StoreProgram(p: Program)
      requires Valid() && p.id !in programs
      modifies this
      ensures Valid()
      ensures programs == old(programs)[p.id := p]
      ensures AllPrograms() == old(AllPrograms()) + [p]
      ensures courses == old(courses) && courseOrder == old(courseOrder)
      ensures chatMessages == old(chatMessages) && messageOrder == old(messageOrder)
      ensures initialized == old(initialized)
    {
      ValuesAppend(programs, programOrder, p.id, p);
      programs := programs[p.id := p];
      programOrder := programOrder + [p.id];
    }

    /** `this.courses.set(c.id, c)` for a fresh id. */
    method StoreCourse(c: Course)
      requires Valid() && c.id !in courses
      modifies this
      ensures Valid()
      ensures courses == old(courses)[c.id := c]
      ensures courseOrder == old(courseOrder) + [c.id]
      ensures AllCourses() == old(AllCourses()) + [c]
      ensures programs == old(programs) && programOrder == old(programOrder)
      ensures chatMessages == old(chatMessages) && messageOrder == old(messageOrder)
      ensures initialized == old(initialized)
    {
      ValuesAppend(courses, courseOrder, c.id, c);
      courses := courses[c.id := c];
      courseOrder := courseOrder + [c.id];
    }

    /** `this.chatMessages.set(m.id, m)` for a fresh id. */
    method StoreMessage(m: ChatMessage)
      requires Valid() && m.id !in chatMessages
      modifies this
      ensures Valid()
      ensures chatMessages == old(chatMessages)[m.id := m]
      ensures AllMessages() == old(AllMessages()) + [m]
      ensures programs == old(programs) && programOrder == old(programOrder)
      ensures courses == old(courses) && courseOrder == old(courseOrder)
      ensures initialized == old(initialized)
    {
      ValuesAppend(chatMessages, messageOrder, m.id, m);
      chatMessages := chatMessages[m.id := m];
      messageOrder := messageOrder + [m.id];
    }

    /** `initializeSampleData`: `ids` stands for the ten random ids it draws. */
    method InitializeSampleData(ids: seq<string>)
      requires Valid()
      requires !initialized ==> FreshSeed(ids)
      modifies this
      ensures Valid() && Seeded(ids)
    {
      if initialized {
        return;
      }
      initialized := true;
      var programId := ids[0];
      StoreProgram(SampleProgram(programId));
      var sample := SampleCourses(programId, ids[1..]);
      StoreCourses(sample);
    }

    /** The `forEach` that stores the sample courses, each under its own
        fresh id, in list order. */
    method StoreCourses(cs: seq<Course>)
      requires Valid()
      requires forall i, j :: 0 <= i < j < |cs| ==> cs[i].id != cs[j].id
      requires forall i :: 0 <= i < |cs| ==> cs[i].id !in courses
      modifies this
      ensures Valid()
      ensures AllCourses() == old(AllCourses()) + cs
      ensures forall k :: k in old(courses) ==> k in courses && courses[k] == old(courses)[k]
      ensures programs == old(programs) && programOrder == old(programOrder)
      ensures chatMessages == old(chatMessages) && messageOrder == old(messageOrder)
      ensures initialized == old(initialized)
    {
      ghost var before := AllCourses();
      for i := 0 to |cs|
        invariant Valid()
        invariant AllCourses() == before + cs[..i]
        invariant forall j :: i <= j < |cs| ==> cs[j].id !in courses
        invariant forall k :: k in old(courses) ==> k in courses && courses[k] == old(courses)[k]
        invariant programs == old(programs) && programOrder == old(programOrder)
        invariant chatMessages == old(chatMessages) && messageOrder == old(messageOrder)
        invariant initialized == old(initialized)
      {
        StoreCourse(cs[i]);
        assert cs[..i + 1] == cs[..i] + [cs[i]];
      }
      assert cs[..|cs|] == cs;
    }

    /** `getProgram`: seeds the sample data if needed, then looks `id` up. */
    method GetProgram(id: string, seed: seq<string>) returns (r: Option<Program>)
      requires Valid()
      requires !initialized ==> FreshSeed(seed)
      modifies this
      ensures Valid() && Seeded(seed)
      ensures r == Lookup(programs, id)
    {
      InitializeSampleData(seed);
      r := Lookup(programs, id);
    }

    /** `getAllPrograms`: seeds the sample data if needed, then lists the
        programs in insertion order. */
    method GetAllPrograms(seed: seq<string>) returns (r: seq<Program>)
      requires Valid()
      requires !initialized ==> FreshSeed(seed)
      modifies this
      ensures Valid() && Seeded(seed)
      ensures r == AllPrograms()
    {
      InitializeSampleData(seed);
      r := AllPrograms();
    }

    /** `createProgram`: a missing description is stored as null, missing
        total units as 0. */
    method CreateProgram(insert: InsertProgram, id: string) returns (r: Program)
      requires Valid() && id !in programs
      modifies this
      ensures Valid()
      ensures r.id == id && r.name == insert.name && r.description == insert.description
      ensures r.totalUnits == (match insert.totalUnits case Some(u) => u case None => 0)
      ensures programs == old(programs)[id := r]
      ensures AllPrograms() == old(AllPrograms()) + [r]
      ensures courses == old(courses) && courseOrder == old(courseOrder)
      ensures chatMessages == old(chatMessages) && messageOrder == old(messageOrder)
      ensures initialized == old(initialized)
    {
      var totalUnits := match insert.totalUnits case Some(u) => u case None => 0;
      r := Program(id, insert.name, insert.description, totalUnits);
      StoreProgram(r);
    }

    /** `getCourse`: a plain lookup; it does not seed the sample data. */
    method GetCourse(id: string) returns (r: Option<Course>)
      requires Valid()
      ensures r.Some? <==> id in courses
      ensures r.Some? ==> r.value == courses[id] && r.value.id == id
    {
      r := Lookup(courses, id);
    }

    /** `getCoursesByProgram`: exactly the stored courses of the program, in
        insertion order; it does not seed the sample data. */
    method GetCoursesByProgram(programId: string) returns (r: seq<Course>)
      requires Valid()
      ensures r == OfProgram(AllCourses(), programId)
      ensures forall c :: c in r <==> c in courses.Values && c.programId == programId
    {
      r := OfProgram(AllCourses(), programId);
      forall c ensures c in AllCourses() <==> c in courses.Values {
        if c in courses.Values {
          var k :| k in courses && courses[k] == c;
          var i :| 0 <= i < |courseOrder| && courseOrder[i] == k;
          assert AllCourses()[i] == c;
        }
      }
    }

    /** `createCourse`: every field copied, missing description and
        prerequisites stored as null. */
    method CreateCourse(insert: InsertCourse, id: string) returns (r: Course)
      requires Valid() && id !in courses
      modifies this
      ensures Valid()
      ensures r == CourseRecord(insert, id)
      ensures courses == old(courses)[id := r]
      ensures courseOrder == old(courseOrder) + [id]
      ensures AllCourses() == old(AllCourses()) + [r]
      ensures programs == old(programs) && programOrder == old(programOrder)
      ensures chatMessages == old(chatMessages) && messageOrder == old(messageOrder)
      ensures initialized == old(initialized)
    {
      r := CourseRecord(insert, id);
      StoreCourse(r);
    }

    /** `createCourses`: one stored course per insert, in input order, each
        under the corresponding id. */
    method CreateCourses(inserts: seq<InsertCourse>, ids: seq<string>) returns (r: seq<Course>)
      requires Valid()
      requires |ids| == |inserts| && NoDup(ids)
      requires forall k :: k in ids ==> k !in courses
      modifies this
      ensures Valid()
      ensures |r| == |inserts|
      ensures forall i :: 0 <= i < |r| ==> r[i] == CourseRecord(inserts[i], ids[i])
      ensures AllCourses() == old(AllCourses()) + r
      ensures programs == old(programs) && programOrder == old(programOrder)
      ensures chatMessages == old(chatMessages) && messageOrder == old(messageOrder)
      ensures initialized == old(initialized)
    {
      ghost var before := AllCourses();
      r := [];
      for i := 0 to |inserts|
        invariant Valid()
        invariant |r| == i
        invariant forall j :: 0 <= j < i ==> r[j] == CourseRecord(inserts[j], ids[j])
        invariant AllCourses() == before + r
        invariant forall j :: i <= j < |ids| ==> ids[j] !in courses
        invariant programs == old(programs) && programOrder == old(programOrder)
        invariant chatMessages == old(chatMessages) && messageOrder == old(messageOrder)
        invariant initialized == old(initialized)
      {
        var course := CreateCourse(inserts[i], ids[i]);
        r := r + [course];
      }
    }

    /** `getChatMessage`: a plain lookup. */
    method GetChatMessage(id: string) returns (r: Option<ChatMessage>)
      requires Valid()
      ensures r.Some? <==> id in chatMessages
      ensures r.Some? ==> r.value == chatMessages[id] && r.value.id == id
    {
      r := Lookup(chatMessages, id);
    }

    /** `getChatMessagesBySession`: exactly the session's messages, ascending
        by timestamp, and for every timestamp the messages carrying it in
        insertion order. */
    method GetChatMessagesBySession(sessionId: string) returns (r: seq<ChatMessage>)
      requires Valid()
      ensures r == History(AllMessages(), sessionId)
      ensures forall m :: m in r <==> m in AllMessages() && m.sessionId == sessionId
      ensures SortedBy(r, Timestamp)
      ensures forall t :: WithKey(r, Timestamp, t) == WithKey(InSession(AllMessages(), sessionId), Timestamp, t)
    {
      var session := InSession(AllMessages(), sessionId);
      r := SortBy(session, Timestamp);
      forall m ensures m in r <==> m in session {
        assert m in r <==> m in multiset(r);
        assert m in session <==> m in multiset(session);
      }
    }

    /** `createChatMessage`: stamped with `now`; a missing course context is
        stored as null. */
    method CreateChatMessage(insert: InsertChatMessage, id: string, now: int) returns (r: ChatMessage)
      requires Valid() && id !in chatMessages
      modifies this
      ensures Valid()
      ensures r == ChatMessage(id, insert.sessionId, insert.role, insert.content, insert.courseContext, now)
      ensures chatMessages == old(chatMessages)[id := r]
      ensures AllMessages() == old(AllMessages()) + [r]
      ensures programs == old(programs) && programOrder == old(programOrder)
      ensures courses == old(courses) && courseOrder == old(courseOrder)
      ensures initialized == old(initialized)
    {
      r := ChatMessage(id, insert.sessionId, insert.role, insert.content, insert.courseContext, now);
      StoreMessage(r);
    }
  }

  /** A program created under `id` is what a later getProgram(id) returns,
      even when that call is the one that seeds the sample data. */
  method CreatedProgramIsFound(s: MemStorage, insert: InsertProgram, id: string, seed: seq<string>)
    returns (created: Program, found: Option<Program>)
    requires s.Valid() && id !in s.programs
    requires !s.initialized ==> s.FreshSeed(seed) && seed[0] != id
    modifies s
    ensures found == Some(created) && created.id == id && created.name == insert.name
  {
    created := s.CreateProgram(insert, id);
    found := s.GetProgram(id, seed);
  }

  /** A course created under `id` is what a later getCourse(id) returns. */
  method CreatedCourseIsFound(s: MemStorage, insert: InsertCourse, id: string)
    returns (created: Course, found: Option<Course>)
    requires s.Valid() && id !in s.courses
    modifies s
    ensures found == Some(created) && created.id == id && created.code == insert.code
  {
    created := s.CreateCourse(insert, id);
    found := s.GetCourse(id);
  }
}
