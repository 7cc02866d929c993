/**
  `staff_required`: a view decorator that lets only staff users through.
  The wrapped view is a function parameter; the flash message is returned
  beside the response.
*/
module Decorators {
  import opened Support
  import opened Http

  const StaffOnlyMessage := "You do not have permission to access this page. Staff access required."

  /** A response with the error message queued for the next page, if any. */
  datatype Guarded = Guarded(resp: Response, message: Option<string>)

  /** `_wrapped_view`: the authentication check first, then the staff check, then the view. */
  function StaffRequired(req: Request, view: Request -> Response): (g: Guarded)
    ensures req.actor.Anonymous? ==> g == Guarded(Redirect("admindashboard:login"), None)
    ensures req.actor.Member? && !req.actor.isStaff ==>
      g == Guarded(Redirect("admindashboard:dashboard"), Some(StaffOnlyMessage))
    ensures req.actor.Member? && req.actor.isStaff ==> g == Guarded(view(req), None)
  {
    if req.actor.Anonymous? then Guarded(Redirect("admindashboard:login"), None)
    else if !req.actor.isStaff then Guarded(Redirect("admindashboard:dashboard"), Some(StaffOnlyMessage))
    else Guarded(view(req), None)
  }

  /**
    The view's answer comes back only for staff; the answer cannot depend
    on the view for anyone else.
  */
  lemma ViewReachedOnlyByStaff(req: Request, v1: Request -> Response, v2: Request -> Response)
    requires v1(req) != v2(req)
    ensures StaffRequired(req, v1) != StaffRequired(req, v2) <==> req.actor.Member? && req.actor.isStaff
  {
  }
}
