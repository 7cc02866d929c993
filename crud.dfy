/**
  The shape every admin create, edit, delete and list view shares: the
  `login_required` check, `get_object_or_404`, the POST-only branch, the
  form check, and the single row written or removed. Each view module
  instantiates these with its own table, templates, routes and log text.
*/
module Crud {
  import opened Support
  import opened Models
  import opened Http
  import opened Tables

  /**
    What one view request does to its table: the response, the rows and
    the key counter afterwards, and the row written (create and edit) or
    removed (delete), if any.
  */
  datatype Step<T> = Step(resp: Response, rows: map<int, T>, nextPk: int, saved: Option<T>)

  /** The table holds exactly what `s` says. */
  ghost predicate Applied<T>(resp: Response, t: Table<T>, s: Step<T>)
    reads t
  {
    resp == s.resp && t.rows == s.rows && t.nextPk == s.nextPk
  }

  // ---------------------------------------------------------------------------
  // Specifications
  // ---------------------------------------------------------------------------

  /**
    A create view. `build` is the bound form: `None` when the form is
    invalid, otherwise the new row given its creator's profile
    (`request.user.userprofile`, a server error when the user has none).
  */
  function CreateStep<T>(req: Request, build: Option<int -> T>, profiles: set<int>,
                         rows: map<int, T>, nextPk: int, template: string, route: string): (s: Step<T>)
    ensures s.saved.Some? <==>
      req.actor.Member? && req.verb == Post && build.Some? && req.actor.user in profiles
    ensures s.saved.None? ==> s.rows == rows && s.nextPk == nextPk
    ensures s.saved.Some? ==>
      && s.saved.value == build.value(req.actor.user)
      && s.rows == rows[nextPk := s.saved.value] && s.nextPk == nextPk + 1
      && s.resp == Redirect(route)
    ensures req.actor.Anonymous? ==> s.resp == LoginRedirect
    ensures req.actor.Member? && (req.verb != Post || build.None?) ==> s.resp == Rendered(template)
    ensures req.actor.Member? && req.verb == Post && build.Some? && req.actor.user !in profiles ==>
      s.resp == ServerError
  {
    if req.actor.Anonymous? then Step(LoginRedirect, rows, nextPk, None)
    else if req.verb != Post || build.None? then Step(Rendered(template), rows, nextPk, None)
    else if req.actor.user !in profiles then Step(ServerError, rows, nextPk, None)
    else
      var row := build.value(req.actor.user);
      Step(Redirect(route), rows[nextPk := row], nextPk + 1, Some(row))
  }

  /**
    An edit view. `apply` binds the form to the stored row: `None` when the
    form is invalid, otherwise the updated row.
  */
  function EditStep<T>(req: Request, pk: int, apply: T -> Option<T>,
                       rows: map<int, T>, nextPk: int, template: string, route: string): (s: Step<T>)
    ensures s.nextPk == nextPk
    ensures s.saved.Some? <==>
      req.actor.Member? && pk in rows && req.verb == Post && apply(rows[pk]).Some?
    ensures s.saved.None? ==> s.rows == rows
    ensures s.saved.Some? ==>
      s.saved == apply(rows[pk]) && s.rows == rows[pk := s.saved.value] && s.resp == Redirect(route)
    ensures req.actor.Anonymous? ==> s.resp == LoginRedirect
    ensures req.actor.Member? && pk !in rows ==> s.resp == NotFound
    ensures req.actor.Member? && pk in rows && (req.verb != Post || apply(rows[pk]).None?) ==>
      s.resp == Rendered(template)
  {
    if req.actor.Anonymous? then Step(LoginRedirect, rows, nextPk, None)
    else if pk !in rows then Step(NotFound, rows, nextPk, None)
    else if req.verb != Post then Step(Rendered(template), rows, nextPk, None)
    else match apply(rows[pk])
      case None => Step(Rendered(template), rows, nextPk, None)
      case Some(row) => Step(Redirect(route), rows[pk := row], nextPk, Some(row))
  }

  /**
    A delete view: only on POST unless `anyMethod`; otherwise a confirmation
    page. `saved` is the row as it was before the delete.
  */
  function DeleteStep<T>(req: Request, pk: int, anyMethod: bool,
                         rows: map<int, T>, nextPk: int, template: string, route: string): (s: Step<T>)
    ensures s.nextPk == nextPk
    ensures s.saved.Some? <==> req.actor.Member? && pk in rows && (req.verb == Post || anyMethod)
    ensures s.saved.None? ==> s.rows == rows
    ensures s.saved.Some? ==>
      s.saved.value == rows[pk] && s.rows == rows - {pk} && s.resp == Redirect(route)
    ensures req.actor.Anonymous? ==> s.resp == LoginRedirect
    ensures req.actor.Member? && pk !in rows ==> s.resp == NotFound
    ensures req.actor.Member? && pk in rows && req.verb != Post && !anyMethod ==> s.resp == Rendered(template)
  {
    if req.actor.Anonymous? then Step(LoginRedirect, rows, nextPk, None)
    else if pk !in rows then Step(NotFound, rows, nextPk, None)
    else if req.verb != Post && !anyMethod then Step(Rendered(template), rows, nextPk, None)
    else Step(Redirect(route), rows - {pk}, nextPk, Some(rows[pk]))
  }

  /** A deletion touches the deleted row only. */
  lemma DeleteOnlyThatRow<T>(req: Request, pk: int, anyMethod: bool, rows: map<int, T>, nextPk: int,
                             template: string, route: string, k: int)
    requires k in rows && k != pk
    ensures var s := DeleteStep(req, pk, anyMethod, rows, nextPk, template, route);
      k in s.rows && s.rows[k] == rows[k]
  {
  }

  /**
    The activity-log rows a view appends: one, naming the user, the action,
    the details of the row written or removed and the client address, when
    a row was written or removed; none otherwise.
  */
  function Logged<T>(req: Request, saved: Option<T>, action: string, details: T -> string, now: int): (log: seq<LogEntry>)
    ensures |log| == if saved.Some? && req.actor.Member? then 1 else 0
    ensures |log| == 1 ==>
      log[0] == LogEntry(req.actor.user, action, Some(details(saved.value)), ClientIp(req.meta), now)
  {
    if saved.Some? && req.actor.Member? then
      [LogEntry(req.actor.user, action, Some(details(saved.value)), ClientIp(req.meta), now)]
    else []
  }

  /** The rows of a list view: every row of the table exactly once. */
  ghost predicate ListsAll<T(!new)>(r: seq<(int, T)>, rows: map<int, T>)
  {
    |r| == |rows| && forall x :: x in r <==> x.0 in rows && rows[x.0] == x.1
  }

  /**
    A list view ordered by `-<field>`: the login page for anonymous users
    (`None`), otherwise every row, the largest `key` first.
  */
  function ListDescending<T(!new)>(req: Request, rows: map<int, T>, key: T -> int): (r: Option<seq<(int, T)>>)
    ensures r.None? <==> req.actor.Anonymous?
    ensures r.Some? ==> ListsAll(r.value, rows)
    ensures r.Some? ==> forall i, j :: 0 <= i < j < |r.value| ==> key(r.value[i].1) >= key(r.value[j].1)
  {
    if req.actor.Anonymous? then None
    else
      var le := ByKey((e: (int, T)) => -key(e.1));
      ByKeyIsTotalPreorder((e: (int, T)) => -key(e.1));
      ListingSorted(rows, le);
      Some(Listing(rows, le))
  }

  /** A list view ordered by a text field, in code-point order. */
  function ListAlphabetical<T(!new)>(req: Request, rows: map<int, T>, key: T -> string): (r: Option<seq<(int, T)>>)
    ensures r.None? <==> req.actor.Anonymous?
    ensures r.Some? ==> ListsAll(r.value, rows)
    ensures r.Some? ==> forall i, j :: 0 <= i < j < |r.value| ==> LexLe(key(r.value[i].1), key(r.value[j].1))
  {
    if req.actor.Anonymous? then None
    else
      var le := ByText((e: (int, T)) => key(e.1));
      ByTextIsTotalPreorder((e: (int, T)) => key(e.1));
      ListingSorted(rows, le);
      Some(Listing(rows, le))
  }

  /** A list view of a model without an ordering: primary-key order. */
  function ListByPk<T(!new)>(req: Request, rows: map<int, T>): (r: Option<seq<(int, T)>>)
    ensures r.None? <==> req.actor.Anonymous?
    ensures r.Some? ==> ListsAll(r.value, rows)
    ensures r.Some? ==> forall i, j :: 0 <= i < j < |r.value| ==> r.value[i].0 < r.value[j].0
  {
    if req.actor.Anonymous? then None
    else
      var le := ByKey((e: (int, T)) => e.0);
      ByKeyIsTotalPreorder((e: (int, T)) => e.0);
      ListingSorted(rows, le);
      var r := Listing(rows, le);
      forall i, j | 0 <= i < j < |r| ensures r[i].0 < r[j].0 {
        ListingKeysDistinct(rows, le, i, j);
      }
      Some(r)
  }

  // ---------------------------------------------------------------------------
  // The shared view bodies
  // ---------------------------------------------------------------------------

  method Create<T>(t: Table<T>, req: Request, build: Option<int -> T>, profiles: set<int>,
                   template: string, route: string)
    returns (resp: Response, saved: Option<T>)
    requires t.Valid()
    modifies t
    ensures t.Valid()
    ensures Applied(resp, t, CreateStep(req, build, profiles, old(t.rows), old(t.nextPk), template, route))
    ensures saved == CreateStep(req, build, profiles, old(t.rows), old(t.nextPk), template, route).saved
  {
    if req.actor.Anonymous? {
      return LoginRedirect, None;
    }
    if req.verb != Post || build.None? {
      return Rendered(template), None;
    }
    if req.actor.user !in profiles {
      return ServerError, None;
    }
    var row := build.value(req.actor.user);
    var _ := t.Insert(row);
    resp, saved := Redirect(route), Some(row);
  }

  method Edit<T>(t: Table<T>, req: Request, pk: int, apply: T -> Option<T>, template: string, route: string)
    returns (resp: Response, saved: Option<T>)
    requires t.Valid()
    modifies t
    ensures t.Valid()
    ensures Applied(resp, t, EditStep(req, pk, apply, old(t.rows), old(t.nextPk), template, route))
    ensures saved == EditStep(req, pk, apply, old(t.rows), old(t.nextPk), template, route).saved
  {
    if req.actor.Anonymous? {
      return LoginRedirect, None;
    }
    if pk !in t.rows {
      return NotFound, None;
    }
    if req.verb != Post {
      return Rendered(template), None;
    }
    var updated := apply(t.rows[pk]);
    if updated.None? {
      return Rendered(template), None;
    }
    t.Update(pk, updated.value);
    resp, saved := Redirect(route), updated;
  }

  method Delete<T>(t: Table<T>, req: Request, pk: int, anyMethod: bool, template: string, route: string)
    returns (resp: Response, removed: Option<T>)
    requires t.Valid()
    modifies t
    ensures t.Valid()
    ensures Applied(resp, t, DeleteStep(req, pk, anyMethod, old(t.rows), old(t.nextPk), template, route))
    ensures removed == DeleteStep(req, pk, anyMethod, old(t.rows), old(t.nextPk), template, route).saved
  {
    if req.actor.Anonymous? {
      return LoginRedirect, None;
    }
    if pk !in t.rows {
      return NotFound, None;
    }
    if req.verb != Post && !anyMethod {
      return Rendered(template), None;
    }
    var row := t.rows[pk];
    t.Remove(pk);
    resp, removed := Redirect(route), Some(row);
  }
}
