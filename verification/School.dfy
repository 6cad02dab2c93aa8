/** The school registry of old-school/handlers.go: four tables and the handlers' own checks,
    one request at a time. Ids count from 1, as the database assigns them. */
module School {

  datatype Class = Class(name: string, school: nat, teacher: nat)

  /** `enrolled` holds the rows (class_id, student_id); the pair is the primary key. */
  datatype Tables = Tables(
    schools: seq<string>, people: seq<string>, classes: seq<Class>, enrolled: set<(nat, nat)>)

  const EMPTY := Tables([], [], [], {})

  datatype Request =
    | CreateSchool(name: string)
    | CreatePerson(name: string)
    | CreateClass(name: string, school: nat, teacher: nat)
    | AddStudent(student: nat, classId: nat)
    | WhoAmI(id: nat)

  datatype Reason =
    | NameRequired | SchoolIdRequired | TeacherIdRequired | SchoolNotFound | TeacherNotFound
    | StudentCannotTeach | IdsRequired | StudentNotFound | ClassNotFound | TeacherCannotAttend
    | OneSchoolOnly | AlreadyEnrolled | IdRequired | PersonNotFound

  datatype Response =
    | Failure(reason: Reason)
    | Created(id: nat, name: string)
    | ClassCreated(id: nat, row: Class, teacherName: string)
    | Person(id: nat, name: string, classes: seq<nat>)

  // ---------- Queries ----------

  predicate HasId<T>(table: seq<T>, id: nat) {
    1 <= id <= |table|
  }

  predicate Teaches(t: Tables, person: nat) {
    exists i :: 0 <= i < |t.classes| && t.classes[i].teacher == person
  }

  predicate Attends(t: Tables, person: nat) {
    exists row :: row in t.enrolled && row.1 == person
  }

  predicate InOtherSchool(t: Tables, student: nat, school: nat) {
    exists row :: row in t.enrolled && row.1 == student
                  && HasId(t.classes, row.0) && t.classes[row.0 - 1].school != school
  }

  predicate TakesPart(t: Tables, person: nat, c: nat) {
    HasId(t.classes, c) && (t.classes[c - 1].teacher == person || (c, person) in t.enrolled)
  }

  /** Ids up to n of the classes the person teaches, in order. */
  function TaughtIds(t: Tables, person: nat, n: nat): (r: seq<nat>)
    requires n <= |t.classes|
  {
    if n == 0 then []
    else TaughtIds(t, person, n - 1) + if t.classes[n - 1].teacher == person then [n] else []
  }

  function AttendedIds(t: Tables, person: nat, n: nat): (r: seq<nat>) {
    if n == 0 then []
    else AttendedIds(t, person, n - 1) + if (n, person) in t.enrolled then [n] else []
  }

  // ---------- Handlers ----------

  function AddClass(t: Tables, c: Class): Tables {
    t.(classes := t.classes + [c])
  }

  function Enrol(t: Tables, classId: nat, student: nat): Tables {
    t.(enrolled := t.enrolled + {(classId, student)})
  }

  /** What a request makes of the tables and what it is answered. */
  function Handle(t: Tables, req: Request): (Tables, Response) {
    match req
    case CreateSchool(name) =>
      if name == "" then (t, Failure(NameRequired))
      else (t.(schools := t.schools + [name]), Created(|t.schools| + 1, name))
    case CreatePerson(name) =>
      if name == "" then (t, Failure(NameRequired))
      else (t.(people := t.people + [name]), Created(|t.people| + 1, name))
    case CreateClass(name, school, teacher) =>
      if name == "" then (t, Failure(NameRequired))
      else if school == 0 then (t, Failure(SchoolIdRequired))
      else if teacher == 0 then (t, Failure(TeacherIdRequired))
      else if !HasId(t.schools, school) then (t, Failure(SchoolNotFound))
      else if !HasId(t.people, teacher) then (t, Failure(TeacherNotFound))
      else if Attends(t, teacher) then (t, Failure(StudentCannotTeach))
      else
        var c := Class(name, school, teacher);
        (AddClass(t, c), ClassCreated(|t.classes| + 1, c, t.people[teacher - 1]))
    case AddStudent(student, classId) =>
      if student == 0 || classId == 0 then (t, Failure(IdsRequired))
      else if !HasId(t.people, student) then (t, Failure(StudentNotFound))
      else if !HasId(t.classes, classId) then (t, Failure(ClassNotFound))
      else if Teaches(t, student) then (t, Failure(TeacherCannotAttend))
      else if InOtherSchool(t, student, t.classes[classId - 1].school) then (t, Failure(OneSchoolOnly))
      else if (classId, student) in t.enrolled then (t, Failure(AlreadyEnrolled))
      else
        var t' := Enrol(t, classId, student);
        (t', Person(student, t.people[student - 1], AttendedIds(t', student, |t.classes|)))
    case WhoAmI(id) =>
      if id == 0 then (t, Failure(IdRequired))
      else if !HasId(t.people, id) then (t, Failure(PersonNotFound))
      else
        var taught := TaughtIds(t, id, |t.classes|);
        (t, Person(id, t.people[id - 1], if |taught| > 0 then taught else AttendedIds(t, id, |t.classes|)))
  }

  // ---------- What any sequence of requests keeps ----------

  /** All references exist. */
  ghost predicate References(t: Tables) {
    && (forall i :: 0 <= i < |t.classes| ==>
          HasId(t.schools, t.classes[i].school) && HasId(t.people, t.classes[i].teacher))
    && forall row :: row in t.enrolled ==> HasId(t.classes, row.0) && HasId(t.people, row.1)
  }

  /** No person is both teacher and student. */
  ghost predicate OneRole(t: Tables) {
    forall i, row :: 0 <= i < |t.classes| && row in t.enrolled ==> t.classes[i].teacher != row.1
  }

  /** Each student's classes lie in one school. */
  ghost predicate OneSchool(t: Tables)
    requires References(t)
  {
    forall a, b :: a in t.enrolled && b in t.enrolled && a.1 == b.1 ==>
      t.classes[a.0 - 1].school == t.classes[b.0 - 1].school
  }

  ghost predicate Valid(t: Tables) {
    References(t) && OneRole(t) && OneSchool(t)
  }

  ghost predicate Accepts(t: Tables, req: Request) {
    !Handle(t, req).1.Failure?
  }

  /** A class is accepted exactly if it has a name and its row keeps the tables valid. */
  lemma ClassChecksAreExact(t: Tables, name: string, school: nat, teacher: nat)
    requires Valid(t)
    ensures Accepts(t, CreateClass(name, school, teacher)) <==>
            name != "" && Valid(AddClass(t, Class(name, school, teacher)))
  {
    var c := Class(name, school, teacher);
    var t' := AddClass(t, c);
    assert t'.classes[|t.classes|] == c;
    assert forall i :: 0 <= i < |t.classes| ==> t'.classes[i] == t.classes[i];
    if Accepts(t, CreateClass(name, school, teacher)) {
      assert References(t');
      assert OneSchool(t');
    } else if Attends(t, teacher) {
      var row :| row in t.enrolled && row.1 == teacher;
      assert t'.classes[|t.classes|].teacher == row.1;
    }
  }

  /** An enrolment is accepted exactly if it is new and its row keeps the tables valid. */
  lemma EnrolmentChecksAreExact(t: Tables, student: nat, classId: nat)
    requires Valid(t)
    ensures Accepts(t, AddStudent(student, classId)) <==>
            (classId, student) !in t.enrolled && Valid(Enrol(t, classId, student))
  {
    var row := (classId, student);
    var t' := Enrol(t, classId, student);
    assert row in t'.enrolled;
    if row !in t.enrolled && HasId(t.people, student) && HasId(t.classes, classId) {
      var school := t.classes[classId - 1].school;
      assert References(t');
      assert OneRole(t') <==> !Teaches(t, student);
      if InOtherSchool(t, student, school) {
        var other :| other in t.enrolled && other.1 == student && HasId(t.classes, other.0)
                     && t.classes[other.0 - 1].school != school;
        assert other in t'.enrolled;
        assert !OneSchool(t');
      } else {
        assert OneSchool(t');
      }
    }
  }

  lemma EmptyIsValid()
    ensures Valid(EMPTY)
  {
  }

  lemma HandleKeepsValid(t: Tables, req: Request)
    requires Valid(t)
    ensures Valid(Handle(t, req).0)
  {
    match req
    case CreateClass(name, school, teacher) => ClassChecksAreExact(t, name, school, teacher);
    case AddStudent(student, classId) => EnrolmentChecksAreExact(t, student, classId);
    case _ =>
  }

  function Run(t: Tables, requests: seq<Request>): Tables {
    if requests == [] then t
    else Handle(Run(t, requests[..|requests| - 1]), requests[|requests| - 1]).0
  }

  lemma {:induction false} RunKeepsValid(t: Tables, requests: seq<Request>)
    requires Valid(t)
    ensures Valid(Run(t, requests))
  {
    hide Valid, Handle;
    if requests != [] {
      RunKeepsValid(t, requests[..|requests| - 1]);
      HandleKeepsValid(Run(t, requests[..|requests| - 1]), requests[|requests| - 1]);
    }
  }

  /** Rows are only ever added, and ids keep their meaning. */
  ghost predicate Grows(t: Tables, t': Tables) {
    t.schools <= t'.schools && t.people <= t'.people && t.classes <= t'.classes && t.enrolled <= t'.enrolled
  }

  lemma {:induction false} RunGrows(t: Tables, requests: seq<Request>)
    ensures Grows(t, Run(t, requests))
  {
    if requests != [] {
      var before := Run(t, requests[..|requests| - 1]);
      RunGrows(t, requests[..|requests| - 1]);
      HandleGrows(before, requests[|requests| - 1]);
    }
  }

  lemma HandleGrows(t: Tables, req: Request)
    ensures Grows(t, Handle(t, req).0)
  {
  }

  /** Whoever teaches once can never attend later, and the other way round. */
  lemma RolesAreForever(t: Tables, requests: seq<Request>, person: nat)
    requires Valid(t)
    ensures Teaches(t, person) ==> !Attends(Run(t, requests), person)
    ensures Attends(t, person) ==> !Teaches(Run(t, requests), person)
  {
    hide Run;
    var t' := Run(t, requests);
    RunKeepsValid(t, requests);
    RunGrows(t, requests);
    if Teaches(t, person) {
      var i :| 0 <= i < |t.classes| && t.classes[i].teacher == person;
      assert t'.classes[i].teacher == person;
    }
    if Attends(t, person) {
      var row :| row in t.enrolled && row.1 == person;
      assert row in t'.enrolled;
    }
  }

  // ---------- WhoAmI ----------

  ghost predicate Ascending(ids: seq<nat>) {
    forall i, j :: 0 <= i < j < |ids| ==> ids[i] < ids[j]
  }

  lemma LastIsLargest(ids: seq<nat>, n: nat)
    requires Ascending(ids) && forall c :: c in ids ==> c < n
    ensures Ascending(ids + [n]) && ids + [] == ids
  {
    assert forall i :: 0 <= i < |ids| ==> ids[i] in ids;
  }

  lemma {:induction false} TaughtIdsAre(t: Tables, person: nat, n: nat)
    requires n <= |t.classes|
    ensures Ascending(TaughtIds(t, person, n))
    ensures forall c :: c in TaughtIds(t, person, n) <==> 1 <= c <= n && t.classes[c - 1].teacher == person
  {
    if n > 0 {
      TaughtIdsAre(t, person, n - 1);
      LastIsLargest(TaughtIds(t, person, n - 1), n);
    }
  }

  lemma {:induction false} AttendedIdsAre(t: Tables, person: nat, n: nat)
    ensures Ascending(AttendedIds(t, person, n))
    ensures forall c :: c in AttendedIds(t, person, n) <==> 1 <= c <= n && (c, person) in t.enrolled
  {
    if n > 0 {
      AttendedIdsAre(t, person, n - 1);
      LastIsLargest(AttendedIds(t, person, n - 1), n);
    }
  }

  /** WhoAmI lists all classes the person teaches or attends, ascending, though it asks for the
      attended ones only if none is taught. */
  lemma WhoAmIListsAll(t: Tables, id: nat)
    requires Valid(t) && HasId(t.people, id)
    ensures var (t', r) := Handle(t, WhoAmI(id));
      && t' == t && r.Person? && r.id == id && r.name == t.people[id - 1]
      && Ascending(r.classes)
      && forall c :: c in r.classes <==> TakesPart(t, id, c)
  {
    hide TaughtIds, AttendedIds;
    var taught := TaughtIds(t, id, |t.classes|);
    TaughtIdsAre(t, id, |t.classes|);
    AttendedIdsAre(t, id, |t.classes|);
    var attended := AttendedIds(t, id, |t.classes|);
    if |taught| > 0 {
      var c := taught[0];
      assert c in taught;
      forall d: nat ensures d in taught <==> TakesPart(t, id, d) {
        assert t.classes[c - 1].teacher == id == (d, id).1;
      }
    } else {
      forall d: nat ensures d in attended <==> TakesPart(t, id, d) {
        assert d !in taught;
        if (d, id) in t.enrolled {
          assert HasId(t.classes, (d, id).0);
        }
      }
    }
  }

  /** The answer to an accepted enrolment lists the student's classes, the new one included. */
  lemma EnrolmentAnswersAll(t: Tables, student: nat, classId: nat)
    requires Valid(t) && Accepts(t, AddStudent(student, classId))
    ensures var (t', r) := Handle(t, AddStudent(student, classId));
      && Ascending(r.classes) && classId in r.classes
      && forall c :: c in r.classes <==> TakesPart(t', student, c)
  {
    var t' := Enrol(t, classId, student);
    HandleKeepsValid(t, AddStudent(student, classId));
    AttendedIdsAre(t', student, |t.classes|);
    forall c | HasId(t.classes, c) ensures t.classes[c - 1].teacher != student {
    }
  }

  // ---------- What an answer promises ----------

  /** What was answered to a creating request stands in the tables: under the id it was given, with
      the fields that were asked for. */
  ghost predicate Stands(req: Request, r: Response, t: Tables) {
    match req
    case CreateSchool(name) =>
      !r.Failure? ==> r == Created(r.id, name) && HasId(t.schools, r.id) && t.schools[r.id - 1] == name
    case CreatePerson(name) =>
      !r.Failure? ==> r == Created(r.id, name) && HasId(t.people, r.id) && t.people[r.id - 1] == name
    case CreateClass(name, school, teacher) =>
      !r.Failure? ==>
        && HasId(t.people, teacher) && r == ClassCreated(r.id, Class(name, school, teacher), t.people[teacher - 1])
        && HasId(t.classes, r.id) && t.classes[r.id - 1] == Class(name, school, teacher)
    case AddStudent(student, classId) => !r.Failure? ==> (classId, student) in t.enrolled
    case WhoAmI(_) => true
  }

  lemma AnswerStands(t: Tables, req: Request)
    ensures Stands(req, Handle(t, req).1, Handle(t, req).0)
  {
  }

  lemma StandsLater(req: Request, r: Response, t: Tables, t': Tables)
    requires Stands(req, r, t) && Grows(t, t')
    ensures Stands(req, r, t')
  {
  }

  /** The tables after the first j requests have grown from those after the first i. */
  lemma {:induction false} RunGrowsFrom(t: Tables, requests: seq<Request>, i: nat, j: nat)
    requires i <= j <= |requests|
    ensures Grows(Run(t, requests[..i]), Run(t, requests[..j]))
  {
    if i < j {
      RunGrowsFrom(t, requests, i, j - 1);
      assert requests[..j][..j - 1] == requests[..j - 1];
      HandleGrows(Run(t, requests[..j - 1]), requests[j - 1]);
    }
  }

  function Answer(t: Tables, requests: seq<Request>, i: nat): Response
    requires i < |requests|
  {
    Handle(Run(t, requests[..i]), requests[i]).1
  }

  /** Whatever a creation answered is still true after any later requests. */
  lemma AnswersLast(t: Tables, requests: seq<Request>, i: nat, j: nat)
    requires i < j <= |requests|
    ensures Stands(requests[i], Answer(t, requests, i), Run(t, requests[..j]))
  {
    hide Handle, Stands, Grows;
    var before := Run(t, requests[..i]);
    assert requests[..i + 1][..i] == requests[..i];
    AnswerStands(before, requests[i]);
    RunGrowsFrom(t, requests, i + 1, j);
    StandsLater(requests[i], Answer(t, requests, i), Run(t, requests[..i + 1]), Run(t, requests[..j]));
  }

  /** A class that was created is in every later answer to its teacher's WhoAmI, and an enrolment
      in every later answer to the student's. */
  lemma WhoAmIShowsCreated(t: Tables, requests: seq<Request>, i: nat, j: nat)
    requires Valid(t) && i < j < |requests| && requests[j].WhoAmI? && !Answer(t, requests, i).Failure?
    ensures requests[i].CreateClass? && requests[j].id == requests[i].teacher ==>
              Answer(t, requests, j).Person? && Answer(t, requests, i).id in Answer(t, requests, j).classes
    ensures requests[i].AddStudent? && requests[j].id == requests[i].student ==>
              Answer(t, requests, j).Person? && requests[i].classId in Answer(t, requests, j).classes
  {
    hide Run;
    var now := Run(t, requests[..j]);
    AnswersLast(t, requests, i, j);
    RunKeepsValid(t, requests[..j]);
    if requests[i].CreateClass? && requests[j].id == requests[i].teacher {
      WhoAmIListsAll(now, requests[j].id);
      assert TakesPart(now, requests[j].id, Answer(t, requests, i).id);
    }
    if requests[i].AddStudent? && requests[j].id == requests[i].student {
      assert (requests[i].classId, requests[i].student) in now.enrolled;
      WhoAmIListsAll(now, requests[j].id);
      assert TakesPart(now, requests[j].id, requests[i].classId);
    }
  }

  /** Of two accepted creations of one kind the later one has the larger id. */
  lemma IdsRise(t: Tables, requests: seq<Request>, i: nat, j: nat)
    requires i < j < |requests| && !Answer(t, requests, i).Failure? && !Answer(t, requests, j).Failure?
    ensures requests[i].CreateSchool? && requests[j].CreateSchool? ==>
              Answer(t, requests, i).id < Answer(t, requests, j).id
    ensures requests[i].CreatePerson? && requests[j].CreatePerson? ==>
              Answer(t, requests, i).id < Answer(t, requests, j).id
    ensures requests[i].CreateClass? && requests[j].CreateClass? ==>
              Answer(t, requests, i).id < Answer(t, requests, j).id
  {
    hide Run;
    AnswersLast(t, requests, i, j);
  }

  /** Which of its checks a class creation fails: the first, in this order, that does not hold. */
  lemma ClassReasons(t: Tables, name: string, school: nat, teacher: nat)
    ensures var r := Handle(t, CreateClass(name, school, teacher)).1;
      var given := name != "" && school != 0 && teacher != 0;
      && (r == Failure(NameRequired) <==> name == "")
      && (r == Failure(SchoolIdRequired) <==> name != "" && school == 0)
      && (r == Failure(TeacherIdRequired) <==> name != "" && school != 0 && teacher == 0)
      && (r == Failure(SchoolNotFound) <==> given && school > |t.schools|)
      && (r == Failure(TeacherNotFound) <==> given && school <= |t.schools| && teacher > |t.people|)
      && (r == Failure(StudentCannotTeach) <==>
            given && school <= |t.schools| && teacher <= |t.people|
            && exists row :: row in t.enrolled && row.1 == teacher)
  {
    assert Attends(t, teacher) <==> exists row :: row in t.enrolled && row.1 == teacher;
  }

  /** Which of its checks an enrolment fails. */
  lemma EnrolmentReasons(t: Tables, student: nat, classId: nat)
    ensures var r := Handle(t, AddStudent(student, classId)).1;
      && (r == Failure(IdsRequired) <==> student == 0 || classId == 0)
      && (r == Failure(StudentNotFound) <==> student != 0 && classId != 0 && student > |t.people|)
      && (r == Failure(ClassNotFound) <==> HasId(t.people, student) && classId > |t.classes|)
      && (HasId(t.people, student) && HasId(t.classes, classId) ==>
            var teaches := exists i :: 0 <= i < |t.classes| && t.classes[i].teacher == student;
            var elsewhere := exists row :: row in t.enrolled && row.1 == student && HasId(t.classes, row.0)
                                           && t.classes[row.0 - 1].school != t.classes[classId - 1].school;
            && (r == Failure(TeacherCannotAttend) <==> teaches)
            && (r == Failure(OneSchoolOnly) <==> !teaches && elsewhere)
            && (r == Failure(AlreadyEnrolled) <==> !teaches && !elsewhere && (classId, student) in t.enrolled))
  {
    if HasId(t.people, student) && HasId(t.classes, classId) {
      var school := t.classes[classId - 1].school;
      assert Teaches(t, student) <==> exists i :: 0 <= i < |t.classes| && t.classes[i].teacher == student;
      assert InOtherSchool(t, student, school) <==>
             exists row :: row in t.enrolled && row.1 == student && HasId(t.classes, row.0)
                           && t.classes[row.0 - 1].school != school;
    }
  }

  // ---------- The server ----------

  /** The server, its tables updated in place. */
  class Server {
    var schools: seq<string>
    var people: seq<string>
    var classes: seq<Class>
    var enrolled: set<(nat, nat)>

    ghost function View(): Tables
      reads this
    {
      Tables(schools, people, classes, enrolled)
    }

    constructor ()
      ensures View() == EMPTY
    {
      schools, people, classes, enrolled := [], [], [], {};
    }

    method GetTeacherClassIds(person: nat) returns (ids: seq<nat>)
      ensures ids == TaughtIds(View(), person, |classes|)
    {
      ids := [];
      for i := 0 to |classes|
        invariant ids == TaughtIds(View(), person, i)
      {
        if classes[i].teacher == person {
          ids := ids + [i + 1];
        }
      }
    }

    method GetStudentClassIds(person: nat) returns (ids: seq<nat>)
      ensures ids == AttendedIds(View(), person, |classes|)
    {
      ids := [];
      for i := 0 to |classes|
        invariant ids == AttendedIds(View(), person, i)
      {
        if (i + 1, person) in enrolled {
          ids := ids + [i + 1];
        }
      }
    }

    method HandleCreateSchool(name: string) returns (r: Response)
      modifies this`schools
      ensures (View(), r) == Handle(old(View()), CreateSchool(name))
      ensures name != "" ==> schools == old(schools) + [name] && r == Created(|schools|, name)
      ensures name == "" ==> schools == old(schools) && r == Failure(NameRequired)
    {
      if name == "" {
        return Failure(NameRequired);
      }
      schools := schools + [name];
      return Created(|schools|, name);
    }

    method HandleCreatePerson(name: string) returns (r: Response)
      modifies this`people
      ensures (View(), r) == Handle(old(View()), CreatePerson(name))
      ensures name != "" ==> people == old(people) + [name] && r == Created(|people|, name)
      ensures name == "" ==> people == old(people) && r == Failure(NameRequired)
    {
      if name == "" {
        return Failure(NameRequired);
      }
      people := people + [name];
      return Created(|people|, name);
    }

    method HandleCreateClass(name: string, school: nat, teacher: nat) returns (r: Response)
      modifies this`classes
      ensures (View(), r) == Handle(old(View()), CreateClass(name, school, teacher))
      ensures !r.Failure? ==>
                && classes == old(classes) + [Class(name, school, teacher)] && HasId(people, teacher)
                && r == ClassCreated(|classes|, Class(name, school, teacher), people[teacher - 1])
      ensures r.Failure? ==> classes == old(classes)
      ensures old(Valid(View())) ==> Valid(View())
      ensures old(Valid(View())) ==>
                (!r.Failure? <==> name != "" && Valid(AddClass(old(View()), Class(name, school, teacher))))
    {
      ghost var before := View();
      if Valid(before) {
        ClassChecksAreExact(before, name, school, teacher);
        HandleKeepsValid(before, CreateClass(name, school, teacher));
      }
      hide Valid;
      if name == "" {
        return Failure(NameRequired);
      }
      if school == 0 {
        return Failure(SchoolIdRequired);
      }
      if teacher == 0 {
        return Failure(TeacherIdRequired);
      }
      if school > |schools| {
        return Failure(SchoolNotFound);
      }
      if teacher > |people| {
        return Failure(TeacherNotFound);
      }
      if exists row :: row in enrolled && row.1 == teacher {
        return Failure(StudentCannotTeach);
      }
      var c := Class(name, school, teacher);
      classes := classes + [c];
      return ClassCreated(|classes|, c, people[teacher - 1]);
    }

    method HandleAddStudentToClass(student: nat, classId: nat) returns (r: Response)
      modifies this`enrolled
      ensures (View(), r) == Handle(old(View()), AddStudent(student, classId))
      ensures !r.Failure? ==>
                && enrolled == old(enrolled) + {(classId, student)}
                && HasId(people, student) && r == Person(student, people[student - 1], r.classes)
      ensures r.Failure? ==> enrolled == old(enrolled)
      ensures old(Valid(View())) ==> Valid(View())
      ensures old(Valid(View())) ==>
                (!r.Failure? <==>
                 (classId, student) !in old(enrolled) && Valid(Enrol(old(View()), classId, student)))
      ensures old(Valid(View())) && !r.Failure? ==>
                forall c :: c in r.classes <==> TakesPart(View(), student, c)
    {
      ghost var before := View();
      if Valid(before) {
        EnrolmentChecksAreExact(before, student, classId);
        HandleKeepsValid(before, AddStudent(student, classId));
        if Accepts(before, AddStudent(student, classId)) {
          EnrolmentAnswersAll(before, student, classId);
        }
      }
      hide Valid;
      if student == 0 || classId == 0 {
        return Failure(IdsRequired);
      }
      if student > |people| {
        return Failure(StudentNotFound);
      }
      if classId > |classes| {
        return Failure(ClassNotFound);
      }
      var school := classes[classId - 1].school;
      if exists i :: 0 <= i < |classes| && classes[i].teacher == student {
        return Failure(TeacherCannotAttend);
      }
      if exists row :: row in enrolled && row.1 == student
                       && HasId(classes, row.0) && classes[row.0 - 1].school != school {
        return Failure(OneSchoolOnly);
      }
      if (classId, student) in enrolled {
        return Failure(AlreadyEnrolled);
      }
      enrolled := enrolled + {(classId, student)};
      var ids := GetStudentClassIds(student);
      return Person(student, people[student - 1], ids);
    }

    method HandleWhoAmI(id: nat) returns (r: Response)
      ensures (View(), r) == Handle(View(), WhoAmI(id))
      ensures r.Failure? <==> !HasId(people, id)
      ensures Valid(View()) && HasId(people, id) ==>
                && r == Person(id, people[id - 1], r.classes) && Ascending(r.classes)
                && forall c :: c in r.classes <==> TakesPart(View(), id, c)
    {
      if Valid(View()) && HasId(people, id) {
        WhoAmIListsAll(View(), id);
      }
      hide Valid;
      if id == 0 {
        return Failure(IdRequired);
      }
      if id > |people| {
        return Failure(PersonNotFound);
      }
      var taught := GetTeacherClassIds(id);
      if |taught| > 0 {
        return Person(id, people[id - 1], taught);
      }
      var attended := GetStudentClassIds(id);
      return Person(id, people[id - 1], attended);
    }
  }

  method Dispatch(s: Server, req: Request) returns (r: Response)
    modifies s
    ensures (s.View(), r) == Handle(old(s.View()), req)
  {
    hide Handle;
    match req
    case CreateSchool(name) => r := s.HandleCreateSchool(name);
    case CreatePerson(name) => r := s.HandleCreatePerson(name);
    case CreateClass(name, school, teacher) => r := s.HandleCreateClass(name, school, teacher);
    case AddStudent(student, classId) => r := s.HandleAddStudentToClass(student, classId);
    case WhoAmI(id) => r := s.HandleWhoAmI(id);
  }

  /** The server answers as Handle says and its tables stay valid, for any requests. */
  method Serve(requests: seq<Request>) returns (s: Server, responses: seq<Response>)
    ensures s.View() == Run(EMPTY, requests) && Valid(s.View())
    ensures |responses| == |requests|
    ensures forall i :: 0 <= i < |requests| ==> responses[i] == Answer(EMPTY, requests, i)
    ensures forall i :: 0 <= i < |requests| ==> Stands(requests[i], responses[i], s.View())
    ensures forall i, j :: 0 <= i < j < |requests| && requests[i].CreateClass? && !responses[i].Failure?
                           && requests[j] == WhoAmI(requests[i].teacher) ==>
              responses[j].Person? && responses[i].id in responses[j].classes
  {
    s := new Server();
    responses := [];
    hide Handle, Valid;
    for i := 0 to |requests|
      invariant s.View() == Run(EMPTY, requests[..i]) && |responses| == i
      invariant forall k :: 0 <= k < i ==> responses[k] == Answer(EMPTY, requests, k)
    {
      assert requests[..i + 1][..i] == requests[..i];
      var r := Dispatch(s, requests[i]);
      responses := responses + [r];
    }
    assert requests[..|requests|] == requests;
    EmptyIsValid();
    RunKeepsValid(EMPTY, requests);
    hide Run, Answer, Stands;
    forall i | 0 <= i < |requests| ensures Stands(requests[i], responses[i], s.View()) {
      AnswersLast(EMPTY, requests, i, |requests|);
    }
    forall i, j | 0 <= i < j < |requests| && requests[i].CreateClass? && !responses[i].Failure?
                  && requests[j] == WhoAmI(requests[i].teacher)
      ensures responses[j].Person? && responses[i].id in responses[j].classes
    {
      WhoAmIShowsCreated(EMPTY, requests, i, j);
    }
  }
}
