/** The two sides of an assignment: a mentor's `students` list and a student's `mentor`.
    Bulk assignment keeps them in agreement; assign-mentor does not update any mentor's
    list, so it can leave a student listed by a mentor it no longer has. */
module Consistency {
  import opened Wrappers
  import opened Records
  import opened Server

  /** Every student a mentor lists names that mentor as its own. */
  predicate Consistent(mentors: map<Id, Mentor>, students: map<Id, Student>) {
    forall m, k :: m in mentors && 0 <= k < |mentors[m].students| ==>
      mentors[m].students[k] in students && students[mentors[m].students[k]].mentor == Some(m)
  }

  /** A successful bulk assignment keeps both sides in agreement: the pushed students
      now name the mentor, and no listed student was among the unassigned ones changed. */
  lemma BulkAssignKeepsConsistent(mentors: map<Id, Mentor>, students: map<Id, Student>, mentorId: Id,
                                  block: seq<Id>, ids: seq<Id>)
    requires Consistent(mentors, students)
    requires mentorId in mentors
    requires Assignable(ids, students)
    requires multiset(block) == multiset(ids)
    ensures Consistent(mentors[mentorId := mentors[mentorId].(students := mentors[mentorId].students + block)],
                       SetMentor(students, Elements(ids), mentorId))
  {
    var after := mentors[mentorId := mentors[mentorId].(students := mentors[mentorId].students + block)];
    var updated := SetMentor(students, Elements(ids), mentorId);
    forall m, k | m in after && 0 <= k < |after[m].students|
      ensures after[m].students[k] in updated && updated[after[m].students[k]].mentor == Some(m)
    {
      var listed := mentors[m].students;
      if m == mentorId && k >= |listed| {
        var id := block[k - |listed|];
        assert id in multiset(ids);
        assert id in ids;
      } else {
        var id := listed[k];
        assert students[id].mentor == Some(m);
      }
    }
  }

  /** Assign-mentor breaks the agreement whenever it moves a listed student to another
      mentor: the old mentor still lists it. */
  lemma ReassignLeavesStaleEntry(mentors: map<Id, Mentor>, students: map<Id, Student>,
                                  studentId: Id, oldMentor: Id, newMentor: Id)
    requires Consistent(mentors, students)
    requires oldMentor in mentors && studentId in mentors[oldMentor].students
    requires newMentor in mentors && newMentor != oldMentor
    ensures !Consistent(mentors, students[studentId := Reassigned(students[studentId], newMentor)])
  {
  }

  /** Assigning a student to the mentor it already has still records that mentor in
      its history: the current mentor can appear at the end of `previousMentors`. */
  lemma ReassignToSameMentorRecordsIt(st: Student, m: Id)
    requires st.mentor == Some(m)
    ensures Reassigned(st, m).mentor == Some(m)
    ensures Reassigned(st, m).previousMentors == st.previousMentors + [m]
  {
  }
}
