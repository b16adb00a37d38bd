# Course pathway planner: a Dafny model of its core

This project models the data logic of a web application that turns a Merced
College program pathway into a semester-by-semester plan of course cards.
It covers four parts of the application:

- **The pathway transformer** (`MercedTransformer`). It maps a Merced
  pathway map to a program record and one course record per pathway
  element. The element index and the prerequisite map are built as the
  program's forEach loops build them. A choice slot gets its minimum units, and a
  course gets its maximum units, or its minimum when the maximum is 0.
  Semester labels read "<custom label> Year <ceil(term / 2)>". The
  program total is the sum of the minimum units, rounded once.
- **The in-memory store** (`Storage`, class `MemStorage`). It holds three
  tables kept in JavaScript `Map` insertion order. The sample program and
  its nine courses are seeded lazily by the program getters. The class
  also has the create and lookup operations for programs, courses and chat
  messages, and the session history sorted stably by timestamp.
- **The pathway view** (`PathwayMapper`). It groups courses by semester
  name, orders the groups by their first course's term order, adds up each
  semester's units and flags the cards that are in the conversation or
  already taken.
- **The course card** (`CourseCard`). It normalises the requirement type,
  picks a colour palette, writes the unit badge and shows the optional
  sections.

Shared pieces:

- `Common`: option values, JavaScript truthiness, decimal rendering and
  parsing, substring search, and duplicate-free lists.
- `Sorting`: a stable sort by an integer key. It plays the part of
  `Array.prototype.sort` with a `a - b` comparator.
- `Schema`: the record types and their unit sum.

Ids drawn from `randomUUID()` and the clock read by `new Date()` are
parameters of the operations that use them.

## Model

| member | source | states |
|---|---|---|
| MercedTransformer.Round | server/merced-transformer.ts:88 | Math.round gives the integer within half a unit of x, with halves rounded up. |
| MercedTransformer.YearOf | server/merced-transformer.ts:40-41 | The year of a term is ceil(term / 2): term lies in {2y-1, 2y}. |
| MercedTransformer.SemesterLabelReadsBack | server/merced-transformer.ts:40-43 | A label is the custom label, " Year ", then the year in plain decimal with no leading zero, which parses back to ceil(term / 2). The year is at least 1 from term 1 on. |
| Common.CanonicalUnique | server/merced-transformer.ts:42 | Integer text as a template literal prints it is canonical (no leading zero, no "-0"), and it is the only canonical text that reads back as that integer. |
| MercedTransformer.FallOfTheSecondYear | server/merced-transformer.ts:40-43 | Term 3 with label Fall is "Fall Year 2", term 1 is "Fall Year 1", term 4 with Spring is "Spring Year 2". |
| MercedTransformer.ElementIndexLookup | server/merced-transformer.ts:50-51 | An id is in the element map exactly when some element carries it, and it maps to the last such element. |
| MercedTransformer.BuildElementIndex | server/merced-transformer.ts:50-51 | The loop builds exactly the element map. |
| MercedTransformer.ApplyAssociationFacts | server/merced-transformer.ts:61-73 | One association adds exactly what it asserts. REQUIRES adds the associated id to the owner's set. REQUIREMENT_OF opens the target's entry and adds the owner. Sets stay duplicate-free. |
| MercedTransformer.ApplyAssociationsFacts | server/merced-transformer.ts:61-74 | The inner loop over one element's associations adds exactly the prerequisites they assert and opens exactly the entries they target. |
| MercedTransformer.ApplyElementsFacts | server/merced-transformer.ts:56-75 | The outer loop keeps earlier entries. It gives an entry to every listed element and every REQUIREMENT_OF target, and adds exactly the asserted pairs. |
| MercedTransformer.PrerequisiteIdsExact | server/merced-transformer.ts:55-75 | Every key of the prerequisite map is listed or targeted. p is in e's set iff some association asserts it. No set holds an id twice. |
| MercedTransformer.EveryElementHasEntry | server/merced-transformer.ts:57-60 | Every listed element has an entry, and the entry is empty when nothing asserts a prerequisite for it. |
| MercedTransformer.BuildPrerequisiteIds | server/merced-transformer.ts:55-75 | The nested loops build exactly the prerequisite map. |
| MercedTransformer.CollectCodesFacts | server/merced-transformer.ts:103-113 | Collecting codes keeps the accumulator, stays duplicate-free, and adds exactly the display codes of the indexed ids. |
| MercedTransformer.FirstIndex | server/merced-transformer.ts:105-113 | Gives the first position of the id list that resolves to a code, or the list length when none does: that position resolves, no earlier one does, and "none" means the code resolves nowhere. |
| MercedTransformer.CollectCodesOrder | server/merced-transformer.ts:105-113 | The appended codes follow the Set's insertion order, each code at its first occurrence. Every appended code resolves somewhere, and a code appended earlier first resolves at an earlier id. |
| MercedTransformer.PrerequisiteCodesExact | server/merced-transformer.ts:102-116 | The codes are distinct. A code is present iff some indexed prerequisite id displays as it. Unknown ids are skipped. The codes come in the order of their first resolving ids. |
| MercedTransformer.CollectPrerequisiteCodes | server/merced-transformer.ts:102-116 | The loop over the prerequisite ids yields exactly the prerequisite code list. |
| MercedTransformer.CodesForExact | server/merced-transformer.ts:102-116 | An element's prerequisite codes are distinct, and c is among them iff an asserted prerequisite that is in the element map displays as c. |
| MercedTransformer.CodesForOrder | server/merced-transformer.ts:102-116 | An element's prerequisite codes come in the order in which the ids of its entry in the prerequisite map first display as each code. That entry lists ids in the Set's insertion order over the whole walk: elements in list order, each element's associations in order. A REQUIREMENT_OF id therefore enters when the element listing it is visited. |
| MercedTransformer.TransformMercedProgram | server/merced-transformer.ts:45-135 | The function builds exactly the program and the course list. |
| MercedTransformer.TransformedRecords | server/merced-transformer.ts:93-133 | There is one record per element, in order, with an empty program id and the requirement type copied. Each variant (choice or course) gets its own rules for code, title, units, isChoice, description and choiceDescription. |
| MercedTransformer.TransformedPrerequisites | server/merced-transformer.ts:102-126 | The prerequisites are null when nothing resolves and never an empty list. Otherwise they are distinct codes, in the order of their first resolving prerequisite ids, and c is among them iff an asserted, indexed prerequisite displays as c. |
| MercedTransformer.TotalRoundedOnce | server/merced-transformer.ts:80-88 | The program total rounds the sum of minimum units once: two 1.5-unit slots give 3, not 4. |
| MercedTransformer.TwoCourseScenario | server/merced-transformer.ts:45-135 | When CS102 REQUIRES CS101, only CS102 lists "CS101". The cards show 3 and 4 units, while the program totals the minimums: 6. |
| Storage.SampleCourses | server/storage.ts:56-154 | There is one sample course per id, stored under that id and the sample program's id. |
| Storage.SampleUnits | server/storage.ts:46-147 | The sample program claims 32 total units, while its nine courses carry 30. |
| Storage.OfProgram | server/storage.ts:185-189 | A course is kept iff it is in the input and belongs to the program. |
| Storage.InSession | server/storage.ts:222-224 | A message is kept iff it is in the input and belongs to the session. |
| Storage.CourseRecord | server/storage.ts:191-204 | The created course carries the new id and every insert field unchanged. |
| Storage.MemStorage.constructor | server/storage.ts:35-39 | A new store has three empty tables and is not yet seeded. |
| Storage.MemStorage.StoreProgram | server/storage.ts:176 | Setting a fresh key adds the entry and appends its value to the table's iteration order. Nothing else changes. |
| Storage.MemStorage.StoreCourse | server/storage.ts:204 | Setting a fresh key adds the entry and appends its value to the table's iteration order. Nothing else changes. |
| Storage.MemStorage.StoreMessage | server/storage.ts:238 | Setting a fresh key adds the entry and appends its value to the table's iteration order. Nothing else changes. |
| Storage.MemStorage.InitializeSampleData | server/storage.ts:41-155 | The first call sets the flag and appends the sample program and its nine courses, keeping every earlier course. Later calls change nothing. Messages are never touched. |
| Storage.MemStorage.StoreCourses | server/storage.ts:150-154 | Storing courses with distinct fresh ids appends them to the course list in order, keeps every earlier course and changes nothing else. |
| Storage.MemStorage.GetProgram | server/storage.ts:158-161 | The store is seeded as above, then the result is the program stored under id, or none. |
| Storage.MemStorage.GetAllPrograms | server/storage.ts:163-166 | The store is seeded as above, then the result is all programs in insertion order. |
| Storage.MemStorage.CreateProgram | server/storage.ts:168-178 | The program gets the new id, its name and its description. Missing total units become 0. It is appended to the table, and nothing else changes. |
| Storage.MemStorage.GetCourse | server/storage.ts:181-183 | The result is present iff the id is stored, and it is that course. The store is not seeded and does not change. |
| Storage.MemStorage.GetCoursesByProgram | server/storage.ts:185-189 | The result is the program's courses in insertion order: a course is in it iff it is stored and belongs to the program. |
| Storage.MemStorage.CreateCourse | server/storage.ts:191-206 | The insert is stored under the new id and appended to the course order. Nothing else changes. |
| Storage.MemStorage.CreateCourses | server/storage.ts:208-215 | There is one created course per insert, in order. The course list grows by exactly those courses. Programs and messages are unchanged. |
| Storage.MemStorage.GetChatMessage | server/storage.ts:218-220 | The result is present iff the id is stored, and it is that message. |
| Storage.MemStorage.GetChatMessagesBySession | server/storage.ts:222-226 | The result holds exactly the session's messages, ascending by timestamp. Equal timestamps keep insertion order. |
| Storage.MemStorage.CreateChatMessage | server/storage.ts:228-240 | The message gets the new id, the insert's fields and the current time. It is appended to the table, and nothing else changes. |
| Storage.CreatedProgramIsFound | server/storage.ts:158-178 | A created program is what getProgram returns for its id, even when that call seeds the sample data. |
| Storage.CreatedCourseIsFound | server/storage.ts:181-206 | A created course is what getCourse returns for its id. |
| Sorting.SortBy | server/storage.ts:225 | The sort by a numeric key is a permutation. It is ordered by the key and stable: for every key, the elements carrying it keep their relative order. |
| Schema.UnitsAppend | client/src/components/PathwayMapper.tsx:33-35 | The unit sum of two lists joined is the sum of their unit sums. |
| Schema.UnitsPermutation | client/src/components/PathwayMapper.tsx:33-35 | The unit sum does not depend on the order of the courses. |
| PathwayMapper.InSemesterMembers | client/src/components/PathwayMapper.tsx:19-25 | A semester's list holds exactly the input courses of that semester. |
| PathwayMapper.InSemesterCount | client/src/components/PathwayMapper.tsx:19-25 | A course occurs in its semester's list as often as in the input, and in no other list. |
| PathwayMapper.SemesterKeysExact | client/src/components/PathwayMapper.tsx:19-27 | The group names are distinct and are exactly the semesters that occur. |
| PathwayMapper.GroupBySemester | client/src/components/PathwayMapper.tsx:19-25 | The reduce builds exactly one group per semester in order of first appearance, holding that semester's courses in input order. |
| PathwayMapper.GroupedPartition | client/src/components/PathwayMapper.tsx:19-27 | The groups partition the courses. Groups are non-empty with distinct names and each holds its semester's courses. Every course has its group, and the groups' courses are the input as a multiset. |
| PathwayMapper.FlattenSortBy | client/src/components/PathwayMapper.tsx:27-31 | Sorting the groups reorders the listed courses and nothing else. |
| PathwayMapper.SortedSemestersFacts | client/src/components/PathwayMapper.tsx:27-31 | The groups are ascending by first term order and stably sorted. The sort is a permutation of the groups, and the rendered courses are the input as a multiset. |
| PathwayMapper.SemesterSections | client/src/components/PathwayMapper.tsx:19-40 | The rendered sections are the sorted groups. Each is non-empty and holds its semester's courses, and together they list every course exactly as often as given. |
| PathwayMapper.TotalOfSemestersFlatten | client/src/components/PathwayMapper.tsx:33-35 | The semester totals added up equal the units of the listed courses. |
| PathwayMapper.SemesterTotalsAddUp | client/src/components/PathwayMapper.tsx:33-52 | The per-semester unit totals shown add up to the units of all courses. |
| PathwayMapper.CardsOf | client/src/components/PathwayMapper.tsx:59-65 | There is one card per course of the semester, in order. A card is flagged in conversation (resp. taken) iff its id occurs among the selected (resp. taken) ids. |
| Common.Contains | client/src/components/CourseCard.tsx:22-47 | includes holds iff the substring occurs at some position. |
| CourseCard.DropSpace | client/src/components/CourseCard.tsx:20 | Dropping a whitespace run leaves a string that does not start with whitespace. |
| CourseCard.CollapseSpace | client/src/components/CourseCard.tsx:20 | Replacing each whitespace run with "_" leaves no whitespace. |
| CourseCard.CollapseRun | client/src/components/CourseCard.tsx:20 | A whitespace run between two texts becomes exactly one "_". |
| CourseCard.NormalizedTypeFacts | client/src/components/CourseCard.tsx:20 | The normalised type has no whitespace and no lower-case letter. A missing type gives "". Normalising twice changes nothing. |
| CourseCard.GetCourseColorClasses | client/src/components/CourseCard.tsx:14-64 | The result is one of the three palettes. |
| CourseCard.ColorClassesExact | client/src/components/CourseCard.tsx:14-64 | Major iff a major/core type, or no known type and not a choice. General education iff no major type and a GE type. Elective iff neither, and an elective type or a choice. |
| CourseCard.GeneralEducationSubsumed | client/src/components/CourseCard.tsx:31-38 | The general-education test is the same as containing "GE". |
| CourseCard.UntypedCards | client/src/components/CourseCard.tsx:49-67 | An untyped choice card is drawn as an elective, an untyped course as a major course. |
| CourseCard.UnitBadgeReadsBack | client/src/components/CourseCard.tsx:99 | The badge is the units in plain decimal with no leading zero, a space, then "unit" iff there is one unit and "units" otherwise. |
| CourseCard.CardSections | client/src/components/CourseCard.tsx:130-169 | The choice text shows only on choice cards, the description only on others, and never both. The prerequisite badges show iff the list is non-empty, the type badge iff the type is non-empty, and the chat marker iff the card is in conversation. |

## Left out

- Floating point: units are exact rationals, so IEEE rounding and NaN are not modelled. `minUnits || 0` and `maxUnits || minUnits` treat only 0 as falsy.
- Unicode: upper-casing covers the ASCII letters only. Other scripts are left as they are.
- `randomUUID()`: each creating method is given its id, and that id is not yet in its table. An id collision, which would overwrite a record, is not modelled.
- `new Date()`: the clock reading is a parameter, in milliseconds.
- Promises and `async`: every storage call is modelled as running to completion before the next.
- Chat course context: this JSON value is kept as its serialised text.
- Not part of this model: the HTTP routes, the OpenAI calls, the chat widget, the dialogs, the legend and the home page.
- Markup: the card's HTML, class-name joining, `data-testid` slugs, the checkbox and the click handlers are left out. The card is modelled as the data it shows.
- Object.entries ordering: integer-like semester names would be listed first. This is not modelled, because semester names are never numeric ("Fall Year 1").
- PathwayMapper.GroupBySemester: the reduce keys a plain object literal (client/src/components/PathwayMapper.tsx:19-25). A semester named after an inherited Object.prototype member ("constructor", "toString", "__proto__", ...) finds that member instead of a list, and the push at line 23 throws. The model groups such a course like any other. This is not modelled, because semester names are "<label> Year <n>" labels or the sample data's names, and none of them is a prototype member.
- The transformer's extra fields (requirement type, isChoice, choice description) are not columns of the courses table. The store keeps only the table's columns.
- MercedTransformer.TransformedRecords: an ordinary course's opportunity description is never emitted. Its description and choiceDescription are null (server/merced-transformer.ts:125, 131).
- Storage.SampleUnits: the sample program's declared 32 units and its courses' 30 are recorded as they are in the code, not corrected.
- CourseCard.GeneralEducationSubsumed: the general-education test matches any type containing "GE", e.g. "COLLEGE_ELECTIVE". The model keeps this substring test as written.
- Storage.MemStorage.CreateCourses: the new course key order is not stated separately. It follows from the stated course list together with the store's invariant.
