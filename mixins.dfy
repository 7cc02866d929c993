/**
  The class-based-view mixins: `StaffRequiredMixin`, which answers 403
  instead of redirecting, and `ActivityLogMixin`, which writes one
  activity-log row after the parent view has saved or deleted the object.
*/
module Mixins {
  import opened Support
  import opened Models
  import opened Http
  import opened Tables
  import opened ActivityLogs
  import Decorators

  /** `StaffRequiredMixin.test_func`. */
  predicate TestFunc(actor: Actor)
  {
    actor.Member? && actor.isStaff
  }

  /** `UserPassesTestMixin.dispatch` with `handle_no_permission` raising `PermissionDenied`. */
  function StaffDispatch(req: Request, view: Request -> Response): (r: Response)
    ensures TestFunc(req.actor) ==> r == view(req)
    ensures !TestFunc(req.actor) ==> r == PermissionDenied
  {
    if req.actor.Member? && req.actor.isStaff then view(req) else PermissionDenied
  }

  /**
    The mixin and the decorator let the same users through, but refuse
    differently: 403 for everyone refused by the mixin, where the decorator
    redirects anonymous users to the login page and other users to the
    dashboard.
  */
  lemma MixinAgreesWithDecorator(req: Request, view: Request -> Response)
    ensures TestFunc(req.actor) ==> StaffDispatch(req, view) == Decorators.StaffRequired(req, view).resp
    ensures !TestFunc(req.actor) ==>
      StaffDispatch(req, view) == PermissionDenied && Decorators.StaffRequired(req, view).resp.Redirect?
  {
  }

  // ---------------------------------------------------------------------------
  // Created / Updated label
  // ---------------------------------------------------------------------------

  /** `self.object._state.adding` once the parent `form_valid` has saved: the save clears it. */
  function AddingAfterSave(wasNew: bool): bool
  {
    false
  }

  /** The label as written, read after the save. */
  function LabelAsWritten(wasNew: bool): (verb: string)
  {
    if AddingAfterSave(wasNew) then "Created" else "Updated"
  }

  /** As written, a newly created object is logged as updated. */
  lemma NewObjectLoggedAsUpdated()
    ensures LabelAsWritten(true) == "Updated"
  {
  }

  /** The label evidently intended: whether the object was new before the save. */
  function Label(wasNew: bool): (verb: string)
    ensures verb == "Created" <==> wasNew
    ensures verb == "Updated" <==> !wasNew
  {
    if wasNew then "Created" else "Updated"
  }

  /** `f"{action} {model_name}"` and `f"{action} {model_name}: {str(obj)}"`. */
  function MixinAction(verb: string, modelName: string): string
  {
    verb + " " + modelName
  }

  function MixinDetails(verb: string, modelName: string, text: string): (d: string)
  {
    verb + " " + modelName + ": " + text
  }

  /**
    `ActivityLogMixin.form_valid` over a create (`pk == None`) or update
    view: the parent saves the object, then, when the view has an
    `object`, one row is logged. A log write for an anonymous user fails
    after the save and the request ends in a server error.
  */
  method FormValid<T>(table: Table<T>, log: ActivityLog, req: Request, pk: Option<int>, row: T,
                      modelName: string, text: T -> string, hasObject: bool,
                      successUrl: string, now: int)
    returns (resp: Response)
    requires table.Valid() && (pk.Some? ==> pk.value in table.rows)
    modifies table, log
    ensures table.Valid()
    ensures pk.None? ==> table.rows == old(table.rows)[old(table.nextPk) := row] && table.nextPk == old(table.nextPk) + 1
    ensures pk.Some? ==> table.rows == old(table.rows)[pk.value := row] && table.nextPk == old(table.nextPk)
    ensures !hasObject ==> log.entries == old(log.entries) && resp == Redirect(successUrl)
    ensures hasObject && req.actor.Anonymous? ==> log.entries == old(log.entries) && resp == ServerError
    ensures hasObject && req.actor.Member? ==>
      var verb := Label(pk.None?);
      && log.entries == old(log.entries) + [LogEntry(req.actor.user, MixinAction(verb, modelName),
                                                       Some(MixinDetails(verb, modelName, text(row))),
                                                       ClientIp(req.meta), now)]
      && resp == Redirect(successUrl)
  {
    var wasNew := pk.None?;
    if pk.Some? {
      table.Update(pk.value, row);
    } else {
      var _ := table.Insert(row);
    }
    resp := Redirect(successUrl);
    if hasObject {
      if req.actor.Anonymous? {
        return ServerError;
      }
      var verb := Label(wasNew);
      log.LogActivity(req.actor.user, MixinAction(verb, modelName),
                      Some(MixinDetails(verb, modelName, text(row))), Some(req), now);
    }
  }

  /**
    `ActivityLogMixin.delete`: the object is looked up (404 when missing)
    and described before the parent deletes it; the row logged afterwards
    carries that description.
  */
  method Delete<T>(table: Table<T>, log: ActivityLog, req: Request, pk: int,
                   modelName: string, text: T -> string, successUrl: string, now: int)
    returns (resp: Response)
    requires table.Valid()
    modifies table, log
    ensures table.Valid() && table.nextPk == old(table.nextPk)
    ensures pk !in old(table.rows) ==> resp == NotFound && table.rows == old(table.rows) && log.entries == old(log.entries)
    ensures pk in old(table.rows) ==> table.rows == old(table.rows) - {pk}
    ensures pk in old(table.rows) && req.actor.Anonymous? ==> resp == ServerError && log.entries == old(log.entries)
    ensures pk in old(table.rows) && req.actor.Member? ==>
      && resp == Redirect(successUrl)
      && log.entries == old(log.entries) + [LogEntry(req.actor.user, MixinAction("Deleted", modelName),
                                                       Some(MixinDetails("Deleted", modelName, text(old(table.rows)[pk]))),
                                                       ClientIp(req.meta), now)]
  {
    if pk !in table.rows {
      return NotFound;
    }
    var details := MixinDetails("Deleted", modelName, text(table.rows[pk]));
    table.Remove(pk);
    if req.actor.Anonymous? {
      return ServerError;
    }
    log.LogActivity(req.actor.user, MixinAction("Deleted", modelName), Some(details), Some(req), now);
    resp := Redirect(successUrl);
  }
}
