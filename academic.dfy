/**
  The academic views of the admin dashboard: question papers,
  universities, degrees and exams. Question paper, university and exam
  changes are logged; degree changes are not. Deleting a university or a
  degree deletes, through `on_delete=CASCADE`, every row that depends on it.
*/
module AcademicViews {
  import opened Support
  import opened Models
  import opened Http
  import opened Tables
  import opened Crud
  import opened ActivityLogs
  import opened AdminForms

  /**
    The foreign keys between the four tables: every degree's university,
    and every exam's and question paper's degree and university, exist.
  */
  predicate AcademicLinks(universities: set<int>, degrees: map<int, Degree>,
                          exams: map<int, Exam>, questions: map<int, QuestionPaper>)
  {
    && (forall k :: k in degrees ==> degrees[k].data.university in universities)
    && (forall k :: k in exams ==> exams[k].data.degree in degrees && exams[k].data.university in universities)
    && (forall k :: k in questions ==>
          questions[k].data.degree in degrees && questions[k].data.university in universities)
  }

  // ---------------------------------------------------------------------------
  // Question papers
  // ---------------------------------------------------------------------------

  const QuestionFormPage := "admindashboard/academic/question_form.html"
  const QuestionListRoute := "admindashboard:question_list"
  const QuestionCreated := "Created question paper"
  const QuestionUpdated := "Updated question paper"
  const QuestionDeleted := "Deleted question paper"

  /** `str(degree)` for a stored degree; the empty text for a key the tables do not hold. */
  function DegreeText(pk: int, degrees: map<int, Degree>, universities: map<int, University>): (s: string)
  {
    if pk in degrees && degrees[pk].data.university in universities then DegreeLabel(degrees[pk], universities)
    else ""
  }

  /** `f"<action> for {subject} - {degree}"`. */
  function QuestionText(action: string, degrees: map<int, Degree>, universities: map<int, University>): QuestionPaper -> string
  {
    (q: QuestionPaper) => action + " for " + q.data.subject + " - " + DegreeText(q.data.degree, degrees, universities)
  }

  /** `question_list`: every paper, most recently saved first. */
  function QuestionList(req: Request, rows: map<int, QuestionPaper>): (r: Option<seq<(int, QuestionPaper)>>)
    ensures r.None? <==> req.actor.Anonymous?
    ensures r.Some? ==> ListsAll(r.value, rows)
    ensures r.Some? ==> forall i, j :: 0 <= i < j < |r.value| ==> r.value[i].1.updatedAt >= r.value[j].1.updatedAt
  {
    ListDescending(req, rows, (q: QuestionPaper) => q.updatedAt)
  }

  function QuestionBuild(form: Option<QuestionData>, degrees: set<int>, universities: set<int>, now: int)
    : Option<int -> QuestionPaper>
  {
    if form.Some? && QuestionFormValid(form.value, degrees, universities) then
      Some((user: int) => QuestionPaper(form.value, now, user))
    else None
  }

  function QuestionApply(form: Option<QuestionData>, degrees: set<int>, universities: set<int>, now: int)
    : QuestionPaper -> Option<QuestionPaper>
  {
    (q: QuestionPaper) =>
      if form.Some? && QuestionFormValid(form.value, degrees, universities) then
        Some(q.(data := form.value, updatedAt := now))
      else None
  }

  method QuestionCreate(questions: Table<QuestionPaper>, log: ActivityLog, req: Request, form: Option<QuestionData>,
                        degrees: map<int, Degree>, universities: map<int, University>, profiles: set<int>, now: int)
    returns (resp: Response)
    requires questions.Valid()
    modifies questions, log
    ensures questions.Valid()
    ensures var s := CreateStep(req, QuestionBuild(form, degrees.Keys, universities.Keys, now), profiles,
                                old(questions.rows), old(questions.nextPk), QuestionFormPage, QuestionListRoute);
      && Applied(resp, questions, s)
      && log.entries == old(log.entries) +
           Logged(req, s.saved, QuestionCreated, QuestionText(QuestionCreated, degrees, universities), now)
  {
    var saved;
    resp, saved := Create(questions, req, QuestionBuild(form, degrees.Keys, universities.Keys, now), profiles,
                          QuestionFormPage, QuestionListRoute);
    if saved.Some? {
      var details := QuestionCreated + " for " + saved.value.data.subject + " - "
                     + DegreeText(saved.value.data.degree, degrees, universities);
      log.LogActivity(req.actor.user, QuestionCreated, Some(details), Some(req), now);
    }
  }

  method QuestionEdit(questions: Table<QuestionPaper>, log: ActivityLog, req: Request, pk: int,
                      form: Option<QuestionData>, degrees: map<int, Degree>, universities: map<int, University>, now: int)
    returns (resp: Response)
    requires questions.Valid()
    modifies questions, log
    ensures questions.Valid()
    ensures var s := EditStep(req, pk, QuestionApply(form, degrees.Keys, universities.Keys, now),
                              old(questions.rows), old(questions.nextPk), QuestionFormPage, QuestionListRoute);
      && Applied(resp, questions, s)
      && log.entries == old(log.entries) +
           Logged(req, s.saved, QuestionUpdated, QuestionText(QuestionUpdated, degrees, universities), now)
  {
    var saved;
    resp, saved := Edit(questions, req, pk, QuestionApply(form, degrees.Keys, universities.Keys, now),
                        QuestionFormPage, QuestionListRoute);
    if saved.Some? {
      var details := QuestionUpdated + " for " + saved.value.data.subject + " - "
                     + DegreeText(saved.value.data.degree, degrees, universities);
      log.LogActivity(req.actor.user, QuestionUpdated, Some(details), Some(req), now);
    }
  }

  /** `question_delete` has no confirmation step: any method deletes. */
  method QuestionDelete(questions: Table<QuestionPaper>, log: ActivityLog, req: Request, pk: int,
                        degrees: map<int, Degree>, universities: map<int, University>, now: int)
    returns (resp: Response)
    requires questions.Valid()
    modifies questions, log
    ensures questions.Valid()
    ensures var s := DeleteStep(req, pk, true, old(questions.rows), old(questions.nextPk), "", QuestionListRoute);
      && Applied(resp, questions, s)
      && log.entries == old(log.entries) +
           Logged(req, s.saved, QuestionDeleted, QuestionText(QuestionDeleted, degrees, universities), now)
  {
    var removed;
    resp, removed := Delete(questions, req, pk, true, "", QuestionListRoute);
    if removed.Some? {
      var details := QuestionDeleted + " for " + removed.value.data.subject + " - "
                     + DegreeText(removed.value.data.degree, degrees, universities);
      log.LogActivity(req.actor.user, QuestionDeleted, Some(details), Some(req), now);
    }
  }

  /**
    A GET on `question_delete` deletes the paper and logs it, naming its
    subject and its degree as they were before the delete.
  */
  lemma QuestionDeleteOnGet(req: Request, pk: int, rows: map<int, QuestionPaper>, nextPk: int,
                            degrees: map<int, Degree>, universities: map<int, University>, now: int)
    requires req.actor.Member? && req.verb == Get && pk in rows
    requires rows[pk].data.degree in degrees && degrees[rows[pk].data.degree].data.university in universities
    ensures var s := DeleteStep(req, pk, true, rows, nextPk, "", QuestionListRoute);
      var q := rows[pk];
      var d := degrees[q.data.degree];
      && s.rows == rows - {pk} && s.resp == Redirect(QuestionListRoute)
      && Logged(req, s.saved, QuestionDeleted, QuestionText(QuestionDeleted, degrees, universities), now)
         == [LogEntry(req.actor.user, QuestionDeleted,
                      Some("Deleted question paper for " + q.data.subject + " - " + DegreeLabel(d, universities)),
                      ClientIp(req.meta), now)]
  {
    assert QuestionDeleted + " for " == "Deleted question paper for ";
  }

  // ---------------------------------------------------------------------------
  // Universities
  // ---------------------------------------------------------------------------

  const UniversityFormPage := "admindashboard/university/form.html"
  const UniversityDeletePage := "admindashboard/university/delete.html"
  const UniversityListRoute := "admindashboard:university_list"
  const UniversityCreated := "Created university"
  const UniversityUpdated := "Updated university"
  const UniversityDeleted := "Deleted university"

  function UniversityName(action: string): University -> string
  {
    (u: University) => action + ": " + u.data.name
  }

  /**
    `university_list`: the model has no ordering and the view asks for
    none, so the database may return the rows in any order; the model
    lists them in key order.
  */
  function UniversityList(req: Request, rows: map<int, University>): (r: Option<seq<(int, University)>>)
    ensures r.None? <==> req.actor.Anonymous?
    ensures r.Some? ==> ListsAll(r.value, rows)
    ensures r.Some? ==> forall i, j :: 0 <= i < j < |r.value| ==> r.value[i].0 < r.value[j].0
  {
    ListByPk(req, rows)
  }

  function UniversityBuild(form: Option<UniversityData>): Option<int -> University>
  {
    if form.Some? then Some((user: int) => University(form.value, user)) else None
  }

  function UniversityApply(form: Option<UniversityData>): University -> Option<University>
  {
    (u: University) => if form.Some? then Some(u.(data := form.value)) else None
  }

  /** The degrees of university `pk`. */
  function DegreesOf(pk: int, degrees: map<int, Degree>): (ks: set<int>)
    ensures forall k :: k in ks <==> k in degrees && degrees[k].data.university == pk
  {
    KeysWhere(degrees, (d: Degree) => d.data.university == pk)
  }

  /**
    The rows a university delete leaves: no degree of it, and no exam or
    question paper of it or of one of its degrees; every other row as it was.
  */
  function WithoutUniversity(pk: int, degrees: map<int, Degree>, exams: map<int, Exam>,
                             questions: map<int, QuestionPaper>)
    : (r: (map<int, Degree>, map<int, Exam>, map<int, QuestionPaper>))
    ensures forall k :: k in r.0 <==> k in degrees && degrees[k].data.university != pk
    ensures forall k :: k in r.1 <==>
      k in exams && exams[k].data.university != pk && exams[k].data.degree !in DegreesOf(pk, degrees)
    ensures forall k :: k in r.2 <==>
      k in questions && questions[k].data.university != pk && questions[k].data.degree !in DegreesOf(pk, degrees)
    ensures (forall k :: k in r.0 ==> r.0[k] == degrees[k]) && (forall k :: k in r.1 ==> r.1[k] == exams[k])
    ensures forall k :: k in r.2 ==> r.2[k] == questions[k]
  {
    var gone := DegreesOf(pk, degrees);
    (Without(degrees, gone),
     Without(exams, KeysWhere(exams, (e: Exam) => e.data.university == pk || e.data.degree in gone)),
     Without(questions, KeysWhere(questions, (q: QuestionPaper) => q.data.university == pk || q.data.degree in gone)))
  }

  method UniversityCreate(universities: Table<University>, log: ActivityLog, req: Request,
                          form: Option<UniversityData>, profiles: set<int>, now: int)
    returns (resp: Response)
    requires universities.Valid()
    modifies universities, log
    ensures universities.Valid()
    ensures var s := CreateStep(req, UniversityBuild(form), profiles, old(universities.rows),
                                old(universities.nextPk), UniversityFormPage, UniversityListRoute);
      && Applied(resp, universities, s)
      && log.entries == old(log.entries) + Logged(req, s.saved, UniversityCreated, UniversityName(UniversityCreated), now)
  {
    var saved;
    resp, saved := Create(universities, req, UniversityBuild(form), profiles, UniversityFormPage, UniversityListRoute);
    if saved.Some? {
      log.LogActivity(req.actor.user, UniversityCreated, Some(UniversityCreated + ": " + saved.value.data.name),
                      Some(req), now);
    }
  }

  method UniversityEdit(universities: Table<University>, log: ActivityLog, req: Request, pk: int,
                        form: Option<UniversityData>, now: int)
    returns (resp: Response)
    requires universities.Valid()
    modifies universities, log
    ensures universities.Valid()
    ensures var s := EditStep(req, pk, UniversityApply(form), old(universities.rows), old(universities.nextPk),
                              UniversityFormPage, UniversityListRoute);
      && Applied(resp, universities, s)
      && log.entries == old(log.entries) + Logged(req, s.saved, UniversityUpdated, UniversityName(UniversityUpdated), now)
  {
    var saved;
    resp, saved := Edit(universities, req, pk, UniversityApply(form), UniversityFormPage, UniversityListRoute);
    if saved.Some? {
      log.LogActivity(req.actor.user, UniversityUpdated, Some(UniversityUpdated + ": " + saved.value.data.name),
                      Some(req), now);
    }
  }

  method UniversityDelete(universities: Table<University>, degrees: Table<Degree>, exams: Table<Exam>,
                          questions: Table<QuestionPaper>, log: ActivityLog, req: Request, pk: int, now: int)
    returns (resp: Response)
    requires universities.Valid() && degrees.Valid() && exams.Valid() && questions.Valid()
    modifies universities, degrees, exams, questions, log
    ensures universities.Valid() && degrees.Valid() && exams.Valid() && questions.Valid()
    ensures var s := DeleteStep(req, pk, false, old(universities.rows), old(universities.nextPk),
                                UniversityDeletePage, UniversityListRoute);
      var rest := WithoutUniversity(pk, old(degrees.rows), old(exams.rows), old(questions.rows));
      && Applied(resp, universities, s)
      && (s.saved.Some? ==> degrees.rows == rest.0 && exams.rows == rest.1 && questions.rows == rest.2)
      && (s.saved.None? ==>
            degrees.rows == old(degrees.rows) && exams.rows == old(exams.rows) && questions.rows == old(questions.rows))
      && log.entries == old(log.entries) + Logged(req, s.saved, UniversityDeleted, UniversityName(UniversityDeleted), now)
    ensures degrees.nextPk == old(degrees.nextPk) && exams.nextPk == old(exams.nextPk)
    ensures questions.nextPk == old(questions.nextPk)
  {
    var removed;
    resp, removed := Delete(universities, req, pk, false, UniversityDeletePage, UniversityListRoute);
    if removed.Some? {
      var rest := WithoutUniversity(pk, degrees.rows, exams.rows, questions.rows);
      degrees.Replace(rest.0);
      exams.Replace(rest.1);
      questions.Replace(rest.2);
      log.LogActivity(req.actor.user, UniversityDeleted, Some(UniversityDeleted + ": " + removed.value.data.name),
                      Some(req), now);
    }
  }

  /** The cascade of a university delete keeps every remaining link valid. */
  lemma UniversityDeleteKeepsLinks(universities: set<int>, degrees: map<int, Degree>, exams: map<int, Exam>,
                                   questions: map<int, QuestionPaper>, pk: int)
    requires AcademicLinks(universities, degrees, exams, questions)
    ensures var rest := WithoutUniversity(pk, degrees, exams, questions);
      AcademicLinks(universities - {pk}, rest.0, rest.1, rest.2)
  {
  }

  // ---------------------------------------------------------------------------
  // Degrees (not logged)
  // ---------------------------------------------------------------------------

  const DegreeFormPage := "admindashboard/degree/form.html"
  const DegreeDeletePage := "admindashboard/degree/delete.html"
  const DegreeListRoute := "admindashboard:degree_list"

  /** `degree_list`, the view that mirrors `university_list`: no ordering either; listed in key order. */
  function DegreeList(req: Request, rows: map<int, Degree>): (r: Option<seq<(int, Degree)>>)
    ensures r.None? <==> req.actor.Anonymous?
    ensures r.Some? ==> ListsAll(r.value, rows)
    ensures r.Some? ==> forall i, j :: 0 <= i < j < |r.value| ==> r.value[i].0 < r.value[j].0
  {
    ListByPk(req, rows)
  }

  function DegreeBuild(form: Option<DegreeData>, universities: set<int>): Option<int -> Degree>
  {
    if form.Some? && DegreeFormValid(form.value, universities) then Some((user: int) => Degree(form.value, user))
    else None
  }

  function DegreeApply(form: Option<DegreeData>, universities: set<int>): Degree -> Option<Degree>
  {
    (d: Degree) => if form.Some? && DegreeFormValid(form.value, universities) then Some(d.(data := form.value)) else None
  }

  /** The rows a degree delete leaves: no exam or question paper of that degree. */
  function WithoutDegree(pk: int, exams: map<int, Exam>, questions: map<int, QuestionPaper>)
    : (r: (map<int, Exam>, map<int, QuestionPaper>))
    ensures forall k :: k in r.0 <==> k in exams && exams[k].data.degree != pk
    ensures forall k :: k in r.1 <==> k in questions && questions[k].data.degree != pk
    ensures (forall k :: k in r.0 ==> r.0[k] == exams[k]) && (forall k :: k in r.1 ==> r.1[k] == questions[k])
  {
    (Without(exams, KeysWhere(exams, (e: Exam) => e.data.degree == pk)),
     Without(questions, KeysWhere(questions, (q: QuestionPaper) => q.data.degree == pk)))
  }

  method DegreeCreate(degrees: Table<Degree>, log: ActivityLog, req: Request, form: Option<DegreeData>,
                      universities: set<int>, profiles: set<int>)
    returns (resp: Response)
    requires degrees.Valid()
    modifies degrees
    ensures degrees.Valid()
    ensures Applied(resp, degrees, CreateStep(req, DegreeBuild(form, universities), profiles, old(degrees.rows),
                                              old(degrees.nextPk), DegreeFormPage, DegreeListRoute))
    ensures log.entries == old(log.entries)
  {
    var saved;
    resp, saved := Create(degrees, req, DegreeBuild(form, universities), profiles, DegreeFormPage, DegreeListRoute);
  }

  method DegreeEdit(degrees: Table<Degree>, log: ActivityLog, req: Request, pk: int, form: Option<DegreeData>,
                    universities: set<int>)
    returns (resp: Response)
    requires degrees.Valid()
    modifies degrees
    ensures degrees.Valid()
    ensures Applied(resp, degrees, EditStep(req, pk, DegreeApply(form, universities), old(degrees.rows),
                                            old(degrees.nextPk), DegreeFormPage, DegreeListRoute))
    ensures log.entries == old(log.entries)
  {
    var saved;
    resp, saved := Edit(degrees, req, pk, DegreeApply(form, universities), DegreeFormPage, DegreeListRoute);
  }

  method DegreeDelete(degrees: Table<Degree>, exams: Table<Exam>, questions: Table<QuestionPaper>,
                      log: ActivityLog, req: Request, pk: int)
    returns (resp: Response)
    requires degrees.Valid() && exams.Valid() && questions.Valid()
    modifies degrees, exams, questions
    ensures degrees.Valid() && exams.Valid() && questions.Valid()
    ensures var s := DeleteStep(req, pk, false, old(degrees.rows), old(degrees.nextPk), DegreeDeletePage, DegreeListRoute);
      var rest := WithoutDegree(pk, old(exams.rows), old(questions.rows));
      && Applied(resp, degrees, s)
      && (s.saved.Some? ==> exams.rows == rest.0 && questions.rows == rest.1)
      && (s.saved.None? ==> exams.rows == old(exams.rows) && questions.rows == old(questions.rows))
    ensures exams.nextPk == old(exams.nextPk) && questions.nextPk == old(questions.nextPk)
    ensures log.entries == old(log.entries)
  {
    var removed;
    resp, removed := Delete(degrees, req, pk, false, DegreeDeletePage, DegreeListRoute);
    if removed.Some? {
      var rest := WithoutDegree(pk, exams.rows, questions.rows);
      exams.Replace(rest.0);
      questions.Replace(rest.1);
    }
  }

  /** The cascade of a degree delete keeps every remaining link valid. */
  lemma DegreeDeleteKeepsLinks(universities: set<int>, degrees: map<int, Degree>, exams: map<int, Exam>,
                               questions: map<int, QuestionPaper>, pk: int)
    requires AcademicLinks(universities, degrees, exams, questions)
    ensures var rest := WithoutDegree(pk, exams, questions);
      AcademicLinks(universities, degrees - {pk}, rest.0, rest.1)
  {
  }

  // ---------------------------------------------------------------------------
  // Exams
  // ---------------------------------------------------------------------------

  const ExamFormPage := "admindashboard/exam/form.html"
  const ExamDeletePage := "admindashboard/exam/delete.html"
  const ExamListRoute := "admindashboard:exam_list"
  const ExamCreated := "Created exam"
  const ExamUpdated := "Updated exam"
  const ExamDeleted := "Deleted exam"

  function ExamName(action: string): Exam -> string
  {
    (e: Exam) => action + ": " + e.data.examName
  }

  /** `exam_list`: every exam, latest exam date first. */
  function ExamList(req: Request, rows: map<int, Exam>): (r: Option<seq<(int, Exam)>>)
    ensures r.None? <==> req.actor.Anonymous?
    ensures r.Some? ==> ListsAll(r.value, rows)
    ensures r.Some? ==> forall i, j :: 0 <= i < j < |r.value| ==> r.value[i].1.data.examDate >= r.value[j].1.data.examDate
  {
    ListDescending(req, rows, (e: Exam) => e.data.examDate)
  }

  function ExamBuild(form: Option<ExamData>, degrees: set<int>, universities: set<int>, now: int): Option<int -> Exam>
  {
    if form.Some? && ExamFormValid(form.value, degrees, universities) then Some((user: int) => Exam(form.value, now, user))
    else None
  }

  function ExamApply(form: Option<ExamData>, degrees: set<int>, universities: set<int>, now: int): Exam -> Option<Exam>
  {
    (e: Exam) =>
      if form.Some? && ExamFormValid(form.value, degrees, universities) then Some(e.(data := form.value, updatedAt := now))
      else None
  }

  method ExamCreate(exams: Table<Exam>, log: ActivityLog, req: Request, form: Option<ExamData>,
                    degrees: set<int>, universities: set<int>, profiles: set<int>, now: int)
    returns (resp: Response)
    requires exams.Valid()
    modifies exams, log
    ensures exams.Valid()
    ensures var s := CreateStep(req, ExamBuild(form, degrees, universities, now), profiles, old(exams.rows),
                                old(exams.nextPk), ExamFormPage, ExamListRoute);
      && Applied(resp, exams, s)
      && log.entries == old(log.entries) + Logged(req, s.saved, ExamCreated, ExamName(ExamCreated), now)
  {
    var saved;
    resp, saved := Create(exams, req, ExamBuild(form, degrees, universities, now), profiles, ExamFormPage, ExamListRoute);
    if saved.Some? {
      log.LogActivity(req.actor.user, ExamCreated, Some(ExamCreated + ": " + saved.value.data.examName), Some(req), now);
    }
  }

  method ExamEdit(exams: Table<Exam>, log: ActivityLog, req: Request, pk: int, form: Option<ExamData>,
                  degrees: set<int>, universities: set<int>, now: int)
    returns (resp: Response)
    requires exams.Valid()
    modifies exams, log
    ensures exams.Valid()
    ensures var s := EditStep(req, pk, ExamApply(form, degrees, universities, now), old(exams.rows),
                              old(exams.nextPk), ExamFormPage, ExamListRoute);
      && Applied(resp, exams, s)
      && log.entries == old(log.entries) + Logged(req, s.saved, ExamUpdated, ExamName(ExamUpdated), now)
  {
    var saved;
    resp, saved := Edit(exams, req, pk, ExamApply(form, degrees, universities, now), ExamFormPage, ExamListRoute);
    if saved.Some? {
      log.LogActivity(req.actor.user, ExamUpdated, Some(ExamUpdated + ": " + saved.value.data.examName), Some(req), now);
    }
  }

  method ExamDelete(exams: Table<Exam>, log: ActivityLog, req: Request, pk: int, now: int)
    returns (resp: Response)
    requires exams.Valid()
    modifies exams, log
    ensures exams.Valid()
    ensures var s := DeleteStep(req, pk, false, old(exams.rows), old(exams.nextPk), ExamDeletePage, ExamListRoute);
      && Applied(resp, exams, s)
      && log.entries == old(log.entries) + Logged(req, s.saved, ExamDeleted, ExamName(ExamDeleted), now)
  {
    var removed;
    resp, removed := Delete(exams, req, pk, false, ExamDeletePage, ExamListRoute);
    if removed.Some? {
      log.LogActivity(req.actor.user, ExamDeleted, Some(ExamDeleted + ": " + removed.value.data.examName), Some(req), now);
    }
  }

  /**
    Creating or editing a degree through its form keeps every link valid:
    the form only offers stored universities.
  */
  lemma DegreeWritesKeepLinks(req: Request, pk: int, profiles: set<int>, form: Option<DegreeData>,
                              universities: set<int>, degrees: map<int, Degree>, nextPk: int,
                              exams: map<int, Exam>, questions: map<int, QuestionPaper>)
    requires AcademicLinks(universities, degrees, exams, questions)
    ensures AcademicLinks(universities,
      CreateStep(req, DegreeBuild(form, universities), profiles, degrees, nextPk, DegreeFormPage, DegreeListRoute).rows,
      exams, questions)
    ensures AcademicLinks(universities,
      EditStep(req, pk, DegreeApply(form, universities), degrees, nextPk, DegreeFormPage, DegreeListRoute).rows,
      exams, questions)
  {
  }

  /** Creating or editing an exam through its form keeps every link valid. */
  lemma ExamWritesKeepLinks(req: Request, pk: int, profiles: set<int>, now: int, form: Option<ExamData>,
                            universities: set<int>, degrees: map<int, Degree>,
                            exams: map<int, Exam>, nextPk: int, questions: map<int, QuestionPaper>)
    requires AcademicLinks(universities, degrees, exams, questions)
    ensures AcademicLinks(universities, degrees,
      CreateStep(req, ExamBuild(form, degrees.Keys, universities, now), profiles, exams, nextPk,
                 ExamFormPage, ExamListRoute).rows,
      questions)
    ensures AcademicLinks(universities, degrees,
      EditStep(req, pk, ExamApply(form, degrees.Keys, universities, now), exams, nextPk,
               ExamFormPage, ExamListRoute).rows,
      questions)
  {
  }

  /** Creating or editing a question paper through its form keeps every link valid. */
  lemma QuestionWritesKeepLinks(req: Request, pk: int, profiles: set<int>, now: int, form: Option<QuestionData>,
                                universities: set<int>, degrees: map<int, Degree>,
                                exams: map<int, Exam>, questions: map<int, QuestionPaper>, nextPk: int)
    requires AcademicLinks(universities, degrees, exams, questions)
    ensures AcademicLinks(universities, degrees, exams,
      CreateStep(req, QuestionBuild(form, degrees.Keys, universities, now), profiles, questions, nextPk,
                 QuestionFormPage, QuestionListRoute).rows)
    ensures AcademicLinks(universities, degrees, exams,
      EditStep(req, pk, QuestionApply(form, degrees.Keys, universities, now), questions, nextPk,
               QuestionFormPage, QuestionListRoute).rows)
  {
  }
}
