/** The two document kinds of the store, and `Student.find` over a filter. */
module Records {
  import opened Wrappers

  /** Document identifiers. The store gives every inserted document a fresh one. */
  type Id = nat

  /** A mentor document: `students` lists the ids pushed by bulk assignment. */
  datatype Mentor = Mentor(id: Id, name: string, students: seq<Id>)

  /** A student document: `mentor` is null (None) until assigned; `previousMentors`
      records every mentor replaced by a reassignment, oldest first. */
  datatype Student = Student(id: Id, name: string, mentor: Option<Id>, previousMentors: seq<Id>)

  /** The filters the handlers pass to `Student.find`: an optional `_id: {$in: ids}`
      and an equality on `mentor`, where `mentor: null` is `None`. */
  datatype StudentFilter = StudentFilter(idIn: Option<set<Id>>, mentor: Option<Id>)

  predicate Matches(f: StudentFilter, st: Student) {
    && (f.idIn.Some? ==> st.id in f.idIn.value)
    && st.mentor == f.mentor
  }

  predicate Distinct(s: seq<Id>) {
    forall i, j :: 0 <= i < j < |s| ==> s[i] != s[j]
  }

  predicate DistinctIds(rs: seq<Student>) {
    forall i, j :: 0 <= i < j < |rs| ==> rs[i].id != rs[j].id
  }

  /** Every document is stored under its own id. */
  predicate KeyedById(students: map<Id, Student>) {
    forall id :: id in students ==> students[id].id == id
  }

  function IdsOf(rs: seq<Student>): seq<Id> {
    seq(|rs|, k requires 0 <= k < |rs| => rs[k].id)
  }

  /** `Student.find(f)`: the stored students matching `f`, each once, in the
      collection's natural order `order`. */
  function Find(order: seq<Id>, students: map<Id, Student>, f: StudentFilter): (r: seq<Student>)
    requires KeyedById(students)
    requires Distinct(order)
    ensures forall st :: st in r <==> st.id in order && st.id in students && students[st.id] == st && Matches(f, st)
    ensures DistinctIds(r)
  {
    if order == [] then []
    else
      var rest := Find(order[1..], students, f);
      if order[0] in students && Matches(f, students[order[0]]) then [students[order[0]]] + rest else rest
  }

  /** The ids `Find` selects, as a set. */
  ghost function MatchingIds(order: seq<Id>, students: map<Id, Student>, f: StudentFilter): set<Id> {
    set id | id in order && id in students && Matches(f, students[id])
  }

  /** `find(...).length`: the number of documents found is the number of matching ids. */
  lemma {:induction false} FindSize(order: seq<Id>, students: map<Id, Student>, f: StudentFilter)
    requires KeyedById(students)
    requires Distinct(order)
    ensures |Find(order, students, f)| == |MatchingIds(order, students, f)|
  {
    if order != [] {
      FindSize(order[1..], students, f);
      var tail := MatchingIds(order[1..], students, f);
      assert order[0] !in order[1..];
      if order[0] in students && Matches(f, students[order[0]]) {
        assert MatchingIds(order, students, f) == {order[0]} + tail;
      } else {
        assert MatchingIds(order, students, f) == tail;
      }
    }
  }

  /** The students a bulk assignment may take: requested ids naming an unassigned student. */
  ghost function Eligible(ids: seq<Id>, students: map<Id, Student>): set<Id> {
    set id | id in ids && id in students && students[id].mentor == None
  }

  /** The condition under which bulk assignment succeeds. */
  predicate Assignable(ids: seq<Id>, students: map<Id, Student>) {
    && Distinct(ids)
    && forall i :: 0 <= i < |ids| ==> ids[i] in students && students[ids[i]].mentor == None
  }

  /** The elements of a sequence, as a set. */
  function Elements(s: seq<Id>): set<Id> {
    set x | x in s
  }

  /** A sequence has at most as many distinct elements as entries, and exactly as many
      if and only if no entry repeats. */
  lemma {:induction false} DistinctCount(s: seq<Id>)
    ensures |Elements(s)| <= |s|
    ensures |Elements(s)| == |s| <==> Distinct(s)
  {
    if s != [] {
      DistinctCount(s[1..]);
      var tail := Elements(s[1..]);
      assert Elements(s) == {s[0]} + tail;
      if s[0] in s[1..] {
        assert Elements(s) == tail;
        var j :| 0 <= j < |s[1..]| && s[1..][j] == s[0];
        assert s[0] == s[j + 1];
      } else {
        assert |Elements(s)| == |tail| + 1;
        assert Distinct(s[1..]) ==> Distinct(s);
      }
    }
  }

  /** A subset is no larger than its superset, and one of the same size is the superset. */
  lemma {:induction false} SubsetSize(a: set<Id>, b: set<Id>)
    requires a <= b
    ensures |a| <= |b|
    ensures |a| == |b| ==> a == b
    decreases |b|
  {
    if b != {} {
      var x :| x in b;
      SubsetSize(a - {x}, b - {x});
      assert b == (b - {x}) + {x};
      if x in a {
        assert a == (a - {x}) + {x};
      } else {
        assert a == a - {x};
      }
    }
  }

  /** The count check of bulk assignment: as many eligible students as requested ids
      exactly when the ids are distinct and each names an existing, unassigned student. */
  lemma {:induction false} EligibleCount(ids: seq<Id>, students: map<Id, Student>)
    ensures |Eligible(ids, students)| == |ids| <==> Assignable(ids, students)
  {
    var all := Elements(ids);
    var e := Eligible(ids, students);
    DistinctCount(ids);
    assert e <= all;
    SubsetSize(e, all);
    if |e| == |ids| {
      forall i | 0 <= i < |ids|
        ensures ids[i] in students && students[ids[i]].mentor == None
      {
        assert ids[i] in all;
      }
    }
    if Assignable(ids, students) {
      assert all <= e;
      assert e == all;
    }
  }

  /** A sequence without repeats holds each of its elements exactly once. */
  lemma {:induction false} DistinctMultiplicity(s: seq<Id>, x: Id)
    requires Distinct(s)
    ensures multiset(s)[x] == if x in s then 1 else 0
  {
    if s != [] {
      assert s == [s[0]] + s[1..];
      assert Distinct(s[1..]);
      DistinctMultiplicity(s[1..], x);
      assert s[0] !in s[1..];
    }
  }

  /** Two repeat-free sequences with the same elements are permutations of each other. */
  lemma SameElementsPermutation(a: seq<Id>, b: seq<Id>)
    requires Distinct(a) && Distinct(b)
    requires forall x :: x in a <==> x in b
    ensures multiset(a) == multiset(b)
  {
    forall x ensures multiset(a)[x] == multiset(b)[x] {
      DistinctMultiplicity(a, x);
      DistinctMultiplicity(b, x);
    }
  }

  /** The filter of the bulk assignment: requested ids whose student has no mentor. */
  function RequestFilter(ids: seq<Id>): StudentFilter {
    StudentFilter(Some(Elements(ids)), None)
  }

  /** The count check of bulk assignment passes exactly when the request is assignable. */
  lemma MatchCount(order: seq<Id>, students: map<Id, Student>, ids: seq<Id>)
    requires KeyedById(students) && Distinct(order)
    requires forall id :: id in order <==> id in students
    ensures |Find(order, students, RequestFilter(ids))| == |ids| <==> Assignable(ids, students)
  {
    FindSize(order, students, RequestFilter(ids));
    assert MatchingIds(order, students, RequestFilter(ids)) == Eligible(ids, students);
    EligibleCount(ids, students);
  }

  /** When the count check passes, the ids pushed onto the mentor are the requested
      ids, each exactly once. */
  lemma MatchedBlock(order: seq<Id>, students: map<Id, Student>, ids: seq<Id>)
    requires KeyedById(students) && Distinct(order)
    requires forall id :: id in order <==> id in students
    requires Assignable(ids, students)
    ensures multiset(IdsOf(Find(order, students, RequestFilter(ids)))) == multiset(ids)
  {
    var found := Find(order, students, RequestFilter(ids));
    var block := IdsOf(found);
    assert Distinct(block) by {
      assert DistinctIds(found);
    }
    forall id ensures id in block <==> id in ids {
      if id in ids {
        var st := students[id];
        assert st in found;
        var k :| 0 <= k < |found| && found[k] == st;
        assert block[k] == id;
      }
    }
    SameElementsPermutation(block, ids);
  }
}
