/** The job posting views of the admin dashboard; every change is logged. */
module JobViews {
  import opened Support
  import opened Models
  import opened Http
  import opened Tables
  import opened Crud
  import opened ActivityLogs

  const JobFormPage := "admindashboard/jobs/form.html"
  const JobDeletePage := "admindashboard/jobs/delete.html"
  const JobListRoute := "admindashboard:job_list"
  const JobCreated := "Created job posting"
  const JobUpdated := "Updated job posting"
  const JobDeleted := "Deleted job posting"

  function JobTitle(action: string): Job -> string
  {
    (j: Job) => action + ": " + j.data.title
  }

  /** `job_list`: every posting, most recently saved first. */
  function JobList(req: Request, rows: map<int, Job>): (r: Option<seq<(int, Job)>>)
    ensures r.None? <==> req.actor.Anonymous?
    ensures r.Some? ==> ListsAll(r.value, rows)
    ensures r.Some? ==> forall i, j :: 0 <= i < j < |r.value| ==> r.value[i].1.updatedAt >= r.value[j].1.updatedAt
  {
    ListDescending(req, rows, (j: Job) => j.updatedAt)
  }

  /** `JobForm`, saved with the creator's profile; `updated_at` is stamped on every save. */
  function JobBuild(form: Option<JobData>, now: int): Option<int -> Job>
  {
    if form.Some? then Some((user: int) => Job(form.value, now, user)) else None
  }

  function JobApply(form: Option<JobData>, now: int): Job -> Option<Job>
  {
    (j: Job) => if form.Some? then Some(j.(data := form.value, updatedAt := now)) else None
  }

  method JobCreate(jobs: Table<Job>, log: ActivityLog, req: Request, form: Option<JobData>, profiles: set<int>, now: int)
    returns (resp: Response)
    requires jobs.Valid()
    modifies jobs, log
    ensures jobs.Valid()
    ensures var s := CreateStep(req, JobBuild(form, now), profiles, old(jobs.rows), old(jobs.nextPk), JobFormPage, JobListRoute);
      && Applied(resp, jobs, s)
      && log.entries == old(log.entries) + Logged(req, s.saved, JobCreated, JobTitle(JobCreated), now)
  {
    var saved;
    resp, saved := Create(jobs, req, JobBuild(form, now), profiles, JobFormPage, JobListRoute);
    if saved.Some? {
      log.LogActivity(req.actor.user, JobCreated, Some(JobCreated + ": " + saved.value.data.title), Some(req), now);
    }
  }

  method JobEdit(jobs: Table<Job>, log: ActivityLog, req: Request, pk: int, form: Option<JobData>, now: int)
    returns (resp: Response)
    requires jobs.Valid()
    modifies jobs, log
    ensures jobs.Valid()
    ensures var s := EditStep(req, pk, JobApply(form, now), old(jobs.rows), old(jobs.nextPk), JobFormPage, JobListRoute);
      && Applied(resp, jobs, s)
      && log.entries == old(log.entries) + Logged(req, s.saved, JobUpdated, JobTitle(JobUpdated), now)
  {
    var saved;
    resp, saved := Edit(jobs, req, pk, JobApply(form, now), JobFormPage, JobListRoute);
    if saved.Some? {
      log.LogActivity(req.actor.user, JobUpdated, Some(JobUpdated + ": " + saved.value.data.title), Some(req), now);
    }
  }

  method JobDelete(jobs: Table<Job>, log: ActivityLog, req: Request, pk: int, now: int)
    returns (resp: Response)
    requires jobs.Valid()
    modifies jobs, log
    ensures jobs.Valid()
    ensures var s := DeleteStep(req, pk, false, old(jobs.rows), old(jobs.nextPk), JobDeletePage, JobListRoute);
      && Applied(resp, jobs, s)
      && log.entries == old(log.entries) + Logged(req, s.saved, JobDeleted, JobTitle(JobDeleted), now)
  {
    var removed;
    resp, removed := Delete(jobs, req, pk, false, JobDeletePage, JobListRoute);
    if removed.Some? {
      log.LogActivity(req.actor.user, JobDeleted, Some(JobDeleted + ": " + removed.value.data.title), Some(req), now);
    }
  }

  /**
    A valid job form from a user with a profile stores one posting by that
    user and logs `Created job posting: <title>`; an invalid one stores and
    logs nothing.
  */
  lemma JobCreateRecorded(req: Request, form: Option<JobData>, profiles: set<int>, rows: map<int, Job>,
                          nextPk: int, now: int)
    requires req.actor.Member? && req.verb == Post
    ensures var s := CreateStep(req, JobBuild(form, now), profiles, rows, nextPk, JobFormPage, JobListRoute);
      var log := Logged(req, s.saved, JobCreated, JobTitle(JobCreated), now);
      && (form.None? ==> s.rows == rows && log == [] && s.resp == Rendered(JobFormPage))
      && (form.Some? && req.actor.user in profiles ==>
            && s.rows == rows[nextPk := Job(form.value, now, req.actor.user)]
            && log == [LogEntry(req.actor.user, JobCreated, Some("Created job posting: " + form.value.title),
                                ClientIp(req.meta), now)])
  {
    assert JobCreated + ": " == "Created job posting: ";
  }

  /**
    A POST delete removes only the posting and logs its title as it was; a
    GET shows the confirmation page and changes nothing.
  */
  lemma JobDeleteOnlyOnPost(req: Request, pk: int, rows: map<int, Job>, nextPk: int, now: int)
    requires req.actor.Member? && pk in rows
    ensures var s := DeleteStep(req, pk, false, rows, nextPk, JobDeletePage, JobListRoute);
      var log := Logged(req, s.saved, JobDeleted, JobTitle(JobDeleted), now);
      && (req.verb == Post ==>
            && s.rows == rows - {pk}
            && log == [LogEntry(req.actor.user, JobDeleted, Some("Deleted job posting: " + rows[pk].data.title),
                                ClientIp(req.meta), now)])
      && (req.verb == Get ==> s.rows == rows && log == [] && s.resp == Rendered(JobDeletePage))
  {
    assert JobDeleted + ": " == "Deleted job posting: ";
  }
}
