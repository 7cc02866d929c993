/**
  The activity log: `log_activity` appends one row naming the user, the
  action, optional details and the client address, and
  `activity_log_view` pages through the rows a user may see, newest first.
*/
module ActivityLogs {
  import opened Support
  import opened Models
  import opened Http

  /** Rows per page of the activity log. */
  const PerPage: nat := 20

  /** The address recorded: the client address of the request, none without a request. */
  function LogIp(request: Option<Request>): (ip: Option<string>)
    ensures request.None? ==> ip.None?
    ensures request.Some? ==> ip == ClientIp(request.value.meta)
  {
    match request
    case None => None
    case Some(r) => ClientIp(r.meta)
  }

  /** The `ActivityLog` table, in insertion order. */
  class ActivityLog {
    var entries: seq<LogEntry>

    constructor()
      ensures entries == []
    {
      entries := [];
    }

    /**
      `log_activity(user, action, details=None, request=None)`: exactly one
      new row at the end, every earlier row untouched.
    */
    method LogActivity(user: int, action: string, details: Option<string> := None,
                       request: Option<Request> := None, now: int := 0)
      modifies this
      ensures entries == old(entries) + [LogEntry(user, action, details, LogIp(request), now)]
    {
      var ip: Option<string> := None;
      if request.Some? {
        var xff := request.value.meta.forwardedFor;
        if xff.Some? && xff.value != [] {
          ip := Some(BeforeComma(xff.value));
        } else {
          ip := request.value.meta.remoteAddr;
        }
      }
      entries := entries + [LogEntry(user, action, details, ip, now)];
    }
  }

  /** The rows `actor` may see: every row for staff, otherwise only their own. */
  function Visible(entries: seq<LogEntry>, actor: Actor): (r: seq<LogEntry>)
    requires actor.Member?
    ensures actor.isStaff ==> r == entries
    ensures !actor.isStaff ==> forall e :: e in r <==> e in entries && e.user == actor.user
  {
    if actor.isStaff then entries else Filter(entries, (e: LogEntry) => e.user == actor.user)
  }

  /** `Meta.ordering = ['-timestamp']`. */
  function NewestFirst(): ((LogEntry, LogEntry) -> bool)
  {
    ByKey((e: LogEntry) => -e.timestamp)
  }

  /**
    `activity_log_view`: anonymous users are sent to the login page
    (`None`); everyone else gets the requested page of the rows they may
    see, newest first.
  */
  function ActivityLogView(req: Request, entries: seq<LogEntry>): (r: Option<Page<LogEntry>>)
    ensures r.None? <==> req.actor.Anonymous?
    ensures r.Some? ==> |r.value.items| <= PerPage
  {
    if req.actor.Anonymous? then None
    else Some(GetPage(SortBy(Visible(entries, req.actor), NewestFirst()), PerPage, req.page))
  }

  /** Non-staff users see only their own rows; staff users may see anyone's. */
  lemma ViewShowsOnlyVisible(req: Request, entries: seq<LogEntry>, e: LogEntry)
    requires req.actor.Member?
    requires e in ActivityLogView(req, entries).value.items
    ensures e in entries
    ensures !req.actor.isStaff ==> e.user == req.actor.user
  {
    var sorted := SortBy(Visible(entries, req.actor), NewestFirst());
    var p := GetPage(sorted, PerPage, req.page);
    PageBounds(|sorted|, PerPage, p.number);
    assert e in sorted;
    assert e in multiset(Visible(entries, req.actor));
  }

  /** Every page lists its rows newest first. */
  lemma ViewNewestFirst(req: Request, entries: seq<LogEntry>)
    requires req.actor.Member?
    ensures Sorted(ActivityLogView(req, entries).value.items, NewestFirst())
  {
    var sorted := SortBy(Visible(entries, req.actor), NewestFirst());
    ByKeyIsTotalPreorder((e: LogEntry) => -e.timestamp);
    SortBySorted(Visible(entries, req.actor), NewestFirst());
    PageSorted(sorted, PerPage, req.page, NewestFirst());
  }

  /** Every row a user may see is on one of their pages. */
  lemma ViewComplete(req: Request, entries: seq<LogEntry>, e: LogEntry)
    requires req.actor.Member?
    requires e in entries && (req.actor.isStaff || e.user == req.actor.user)
    ensures exists n: nat :: n >= 1 && e in ActivityLogView(req.(page := Some(n)), entries).value.items
  {
    var visible := Visible(entries, req.actor);
    var sorted := SortBy(visible, NewestFirst());
    assert e in multiset(sorted);
    var i :| 0 <= i < |sorted| && sorted[i] == e;
    PageHolds(sorted, PerPage, i);
    var n := i / PerPage + 1;
    assert ActivityLogView(req.(page := Some(n)), entries).value == GetPage(sorted, PerPage, Some(n));
  }
}
