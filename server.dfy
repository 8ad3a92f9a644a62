/** The seven request handlers, as operations on a store of two collections. */
module Server {
  import opened Wrappers
  import opened Records

  const MentorNotFound: string := "Mentor not found"
  const StudentNotFound: string := "Student not found"
  const AlreadyAssigned: string := "Some students already have a mentor"

  /** Every reference held by a document names an existing document: a student's
      mentor and previous mentors are mentors, a mentor's students are students. */
  predicate Referential(mentors: map<Id, Mentor>, students: map<Id, Student>) {
    && (forall id :: id in students && students[id].mentor.Some? ==> students[id].mentor.value in mentors)
    && (forall id, k :: id in students && 0 <= k < |students[id].previousMentors| ==>
          students[id].previousMentors[k] in mentors)
    && (forall id, k :: id in mentors && 0 <= k < |mentors[id].students| ==>
          mentors[id].students[k] in students)
  }

  /** `Student.updateMany({_id: {$in: ids}}, {$set: {mentor: mentorId}})`. */
  function SetMentor(students: map<Id, Student>, ids: set<Id>, mentorId: Id): map<Id, Student> {
    map id | id in students :: if id in ids then students[id].(mentor := Some(mentorId)) else students[id]
  }

  /** A student after assign-mentor: a current mentor, if any, is pushed onto the
      history before the new one takes its place. */
  function Reassigned(st: Student, mentorId: Id): Student {
    st.(mentor := Some(mentorId),
        previousMentors := if st.mentor.Some? then st.previousMentors + [st.mentor.value] else st.previousMentors)
  }

  /** Bulk assignment keeps every reference resolvable: the pushed ids name students,
      and the mentor they are set to exists. */
  lemma BulkAssignKeepsReferential(mentors: map<Id, Mentor>, students: map<Id, Student>, mentorId: Id,
                                   block: seq<Id>, ids: seq<Id>)
    requires Referential(mentors, students)
    requires mentorId in mentors
    requires forall k :: 0 <= k < |block| ==> block[k] in students
    ensures Referential(mentors[mentorId := mentors[mentorId].(students := mentors[mentorId].students + block)],
                        SetMentor(students, Elements(ids), mentorId))
  {
  }

  /** How the students table may change between requests: records are never removed,
      ids and names never change, a history only grows at its end, and a student
      once assigned is never unassigned. */
  predicate Grows(before: map<Id, Student>, after: map<Id, Student>) {
    forall id :: id in before ==>
      && id in after
      && after[id].id == before[id].id
      && after[id].name == before[id].name
      && before[id].previousMentors <= after[id].previousMentors
      && (before[id].mentor.Some? ==> after[id].mentor.Some?)
  }

  lemma GrowsTransitive(a: map<Id, Student>, b: map<Id, Student>, c: map<Id, Student>)
    requires Grows(a, b) && Grows(b, c)
    ensures Grows(a, c)
  {
  }

  /** The bulk update keeps every record under its own id and only ever assigns. */
  lemma SetMentorGrows(students: map<Id, Student>, ids: set<Id>, mentorId: Id)
    ensures SetMentor(students, ids, mentorId).Keys == students.Keys
    ensures KeyedById(students) ==> KeyedById(SetMentor(students, ids, mentorId))
    ensures Grows(students, SetMentor(students, ids, mentorId))
  {
  }

  class Store {
    var mentors: map<Id, Mentor>
    var students: map<Id, Student>
    /** The natural order of the students collection: insertion order. */
    var studentOrder: seq<Id>
    /** Every id below this one has been handed out. */
    var nextId: Id

    ghost predicate Valid()
      reads this
    {
      && (forall id :: id in mentors ==> mentors[id].id == id && id < nextId)
      && KeyedById(students)
      && (forall id :: id in students ==> id < nextId && id !in mentors)
      && Distinct(studentOrder)
      && (forall id :: id in studentOrder <==> id in students)
      && Referential(mentors, students)
    }

    constructor ()
      ensures Valid()
      ensures mentors == map[] && students == map[] && studentOrder == []
    {
      mentors, students, studentOrder, nextId := map[], map[], [], 0;
    }

    /** POST /api/mentor: a new mentor with a fresh id and no students. */
    method CreateMentor(name: string) returns (m: Mentor)
      requires Valid()
      modifies this
      ensures Valid()
      ensures Grows(old(students), students)
      ensures m.id !in old(mentors) && m.id !in old(students)
      ensures m == Mentor(m.id, name, [])
      ensures mentors == old(mentors)[m.id := m]
      ensures students == old(students) && studentOrder == old(studentOrder)
    {
      m := Mentor(nextId, name, []);
      mentors := mentors[nextId := m];
      nextId := nextId + 1;
    }

    /** POST /api/student: a new unassigned student with a fresh id and no history,
        inserted at the end of the collection. */
    method CreateStudent(name: string) returns (st: Student)
      requires Valid()
      modifies this
      ensures Valid()
      ensures Grows(old(students), students)
      ensures st.id !in old(students) && st.id !in old(mentors)
      ensures st == Student(st.id, name, None, [])
      ensures students == old(students)[st.id := st]
      ensures studentOrder == old(studentOrder) + [st.id]
      ensures mentors == old(mentors)
    {
      st := Student(nextId, name, None, []);
      students := students[nextId := st];
      studentOrder := studentOrder + [nextId];
      nextId := nextId + 1;
    }

    /** PUT /api/mentor/:mentorId/assign. */
    method AssignStudents(mentorId: Id, studentIds: seq<Id>) returns (r: Response<Mentor>)
      requires Valid()
      modifies this
      ensures Valid()
      ensures Grows(old(students), students)
      ensures mentorId !in old(mentors) ==> r == NotFound(MentorNotFound)
      ensures mentorId in old(mentors) && !Assignable(studentIds, old(students)) ==> r == BadRequest(AlreadyAssigned)
      ensures r.Ok? <==> mentorId in old(mentors) && Assignable(studentIds, old(students))
      ensures !r.Ok? ==> mentors == old(mentors) && students == old(students)
      ensures r.Ok? ==>
        var before := old(mentors)[mentorId];
        && r.value == before.(students := r.value.students)
        && |r.value.students| == |before.students| + |studentIds|
        && r.value.students[..|before.students|] == before.students
        && multiset(r.value.students[|before.students|..]) == multiset(studentIds)
        && mentors == old(mentors)[mentorId := r.value]
        && students == SetMentor(old(students), Elements(studentIds), mentorId)
      ensures studentIds == [] && mentorId in old(mentors) ==> r.Ok? && students == old(students)
      ensures studentOrder == old(studentOrder) && nextId == old(nextId)
    {
      if mentorId !in mentors {
        return NotFound(MentorNotFound);
      }
      var found := Find(studentOrder, students, RequestFilter(studentIds));
      MatchCount(studentOrder, students, studentIds);
      if |found| != |studentIds| {
        return BadRequest(AlreadyAssigned);
      }
      MatchedBlock(studentOrder, students, studentIds);
      var block := IdsOf(found);
      var mentor := mentors[mentorId];
      mentor := mentor.(students := mentor.students + block);
      assert mentor.students[|mentors[mentorId].students|..] == block;
      BulkAssignKeepsReferential(mentors, students, mentorId, block, studentIds);
      SetMentorGrows(students, Elements(studentIds), mentorId);
      students := SetMentor(students, Elements(studentIds), mentorId);
      mentors := mentors[mentorId := mentor];
      r := Ok(mentor);
    }

    /** GET /api/students/unassigned: exactly the students without a mentor. */
    function UnassignedStudents(): (r: seq<Student>)
      reads this
      requires Valid()
      ensures forall st :: st in r <==> st in students.Values && st.mentor == None
      ensures DistinctIds(r)
    {
      Find(studentOrder, students, StudentFilter(None, None))
    }

    /** PUT /api/student/:studentId/assign-mentor: the student is checked before the mentor;
        no mentor's student list changes. */
    method AssignMentor(studentId: Id, mentorId: Id) returns (r: Response<Student>)
      requires Valid()
      modifies this
      ensures Valid()
      ensures Grows(old(students), students)
      ensures studentId !in old(students) ==> r == NotFound(StudentNotFound)
      ensures studentId in old(students) && mentorId !in old(mentors) ==> r == NotFound(MentorNotFound)
      ensures r.Ok? <==> studentId in old(students) && mentorId in old(mentors)
      ensures !r.Ok? ==> students == old(students)
      ensures r.Ok? ==>
        && r.value == Reassigned(old(students)[studentId], mentorId)
        && students == old(students)[studentId := r.value]
      ensures mentors == old(mentors)
      ensures studentOrder == old(studentOrder) && nextId == old(nextId)
    {
      if studentId !in students {
        return NotFound(StudentNotFound);
      }
      if mentorId !in mentors {
        return NotFound(MentorNotFound);
      }
      var student := students[studentId];
      if student.mentor.Some? {
        student := student.(previousMentors := student.previousMentors + [student.mentor.value]);
      }
      student := student.(mentor := Some(mentorId));
      students := students[studentId := student];
      r := Ok(student);
    }

    /** GET /api/mentor/:mentorId/students: exactly the students whose mentor is mentorId;
        nothing for an id that names no mentor. */
    function StudentsOf(mentorId: Id): (r: seq<Student>)
      reads this
      requires Valid()
      ensures forall st :: st in r <==> st in students.Values && st.mentor == Some(mentorId)
      ensures DistinctIds(r)
      ensures mentorId !in mentors ==> r == []
    {
      var r := Find(studentOrder, students, StudentFilter(None, Some(mentorId)));
      assert r != [] ==> students[r[0].id].mentor == Some(mentorId);
      r
    }

    /** GET /api/student/:studentId/previous-mentors: the mentor records of the history,
        in the order recorded. Every id resolves, by Referential. */
    function PreviousMentors(studentId: Id): (r: Response<seq<Mentor>>)
      reads this
      requires Valid()
      ensures r.NotFound? <==> studentId !in students
      ensures !r.Ok? ==> r == NotFound(StudentNotFound)
      ensures r.Ok? ==>
        var history := students[studentId].previousMentors;
        && |r.value| == |history|
        && forall k :: 0 <= k < |history| ==> history[k] in mentors && r.value[k] == mentors[history[k]] && r.value[k].id == history[k]
    {
      if studentId !in students then NotFound(StudentNotFound)
      else
        var history, table := students[studentId].previousMentors, mentors;
        assert forall k :: 0 <= k < |history| ==> history[k] in table;
        Ok(seq(|history|, k requires 0 <= k < |history| => table[history[k]]))
    }
  }
}
