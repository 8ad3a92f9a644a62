/** A client of the store: the worked example of the API (mentor Alice takes Bob and
    Carol, then Bob moves to Dave), checked against the handlers' contracts alone. */
module Scenario {
  import opened Wrappers
  import opened Records
  import opened Server

  /** The store after Bob and Carol were bulk-assigned to Alice. */
  ghost predicate AfterBulk(store: Store, alice: Id, bob: Id, carol: Id)
    reads store
  {
    && store.Valid()
    && bob != carol
    && alice in store.mentors && store.mentors[alice].name == "Alice"
    && multiset(store.mentors[alice].students) == multiset{bob, carol}
    && store.students == map[bob := Student(bob, "Bob", Some(alice), []),
                             carol := Student(carol, "Carol", Some(alice), [])]
  }

  lemma SetMentorOfTwo(bob: Id, carol: Id, b: Student, c: Student, alice: Id)
    requires bob != carol
    ensures SetMentor(map[bob := b, carol := c], {bob, carol}, alice)
         == map[bob := b.(mentor := Some(alice)), carol := c.(mentor := Some(alice))]
  {
  }

  method CreateAliceBobAndCarol() returns (store: Store, alice: Id, bob: Id, carol: Id)
    ensures fresh(store) && store.Valid() && bob != carol
    ensures store.mentors == map[alice := Mentor(alice, "Alice", [])]
    ensures store.students == map[bob := Student(bob, "Bob", None, []), carol := Student(carol, "Carol", None, [])]
  {
    store := new Store();
    var m := store.CreateMentor("Alice");
    var b := store.CreateStudent("Bob");
    var c := store.CreateStudent("Carol");
    alice, bob, carol := m.id, b.id, c.id;
  }

  method AssignBobAndCarolToAlice() returns (store: Store, alice: Id, bob: Id, carol: Id)
    ensures AfterBulk(store, alice, bob, carol)
  {
    store, alice, bob, carol := CreateAliceBobAndCarol();
    assert Assignable([bob, carol], store.students);
    ghost var before := store.students;
    var r := store.AssignStudents(alice, [bob, carol]);
    assert store.mentors[alice] == r.value;
    assert r.value.students == r.value.students[0..];
    assert Elements([bob, carol]) == {bob, carol};
    SetMentorOfTwo(bob, carol, before[bob], before[carol], alice);
  }

  method NobodyIsUnassigned(store: Store, alice: Id, bob: Id, carol: Id)
    requires AfterBulk(store, alice, bob, carol)
  {
    var unassigned := store.UnassignedStudents();
    assert store.students.Values == {Student(bob, "Bob", Some(alice), []), Student(carol, "Carol", Some(alice), [])};
    assert forall st :: st !in unassigned;
  }

  method MoveBobToDave(store: Store, alice: Id, bob: Id, carol: Id)
    requires AfterBulk(store, alice, bob, carol)
    modifies store
  {
    var dave := store.CreateMentor("Dave");
    assert bob in store.students && store.students[bob].mentor == Some(alice);
    var moved := store.AssignMentor(bob, dave.id);
    assert moved.value == Reassigned(Student(bob, "Bob", Some(alice), []), dave.id);
    assert [] + [alice] == [alice];
    assert moved == Ok(Student(bob, "Bob", Some(dave.id), [alice]));

    var history := store.PreviousMentors(bob);
    assert history.Ok? && |history.value| == 1;
    assert history.value[0].name == "Alice";

    var ofAlice := store.StudentsOf(alice);
    assert store.students[carol] in ofAlice;
    assert store.students[bob] !in ofAlice;
  }
}
