/**
  The parts of a Django request the portal's code reads, the outcomes its
  views produce, and the client address the middleware and the activity
  log both derive from `X-Forwarded-For` and `REMOTE_ADDR`.
*/
module Http {
  import opened Support

  datatype Method = Get | Post | OtherMethod

  /** `request.user`: anonymous, or a logged-in `auth.User` with its staff flag. */
  datatype Actor = Anonymous | Member(user: int, isStaff: bool)

  /** The two `request.META` entries read; a missing header is `None`. */
  datatype Meta = Meta(forwardedFor: Option<string>, remoteAddr: Option<string>)

  /**
    A request. `page` is the `page` query parameter as the paginator reads
    it: `None` when it is missing or not an integer.
  */
  datatype Request = Request(verb: Method, path: string, actor: Actor, meta: Meta, page: Option<int>)

  /** What a view answers. */
  datatype Response =
    | Rendered(template: string)   // render(request, template, context)
    | Redirect(route: string)      // redirect('<namespace>:<url name>')
    | LoginRedirect                // login_required sending an anonymous user to LOGIN_URL
    | Forbidden(body: string)      // HttpResponseForbidden(body)
    | NotFound                     // get_object_or_404 missing its row
    | PermissionDenied             // the PermissionDenied exception, a 403 page
    | ServerError                  // an uncaught exception, a 500 page

  /** `s.split(',')[0]`: the text before the first comma, or all of `s` when it has none. */
  function BeforeComma(s: string): (r: string)
    ensures |r| <= |s| && r == s[..|r|]
    ensures forall i :: 0 <= i < |r| ==> r[i] != ','
    ensures |r| < |s| ==> s[|r|] == ','
  {
    if s == [] || s[0] == ',' then []
    else
      var rest := BeforeComma(s[1..]);
      assert s[..|rest| + 1] == [s[0]] + s[1..][..|rest|];
      [s[0]] + rest
  }

  /**
    `get_client_ip` (and the same lines inside `log_activity`): the first
    comma-separated part of a non-empty `X-Forwarded-For`, not trimmed;
    otherwise `REMOTE_ADDR`, which may be missing too.
  */
  function ClientIp(meta: Meta): (ip: Option<string>)
    ensures meta.forwardedFor.Some? && meta.forwardedFor.value != [] ==>
      ip.Some? && ip.value == BeforeComma(meta.forwardedFor.value)
    ensures meta.forwardedFor.None? || meta.forwardedFor.value == [] ==> ip == meta.remoteAddr
  {
    match meta.forwardedFor
    case Some(xff) => if xff != [] then Some(BeforeComma(xff)) else meta.remoteAddr
    case None => meta.remoteAddr
  }

  /** A forwarded address wins over `REMOTE_ADDR` and is a comma-free prefix of the header. */
  lemma ForwardedPrefix(meta: Meta)
    requires meta.forwardedFor.Some? && meta.forwardedFor.value != []
    ensures var xff := meta.forwardedFor.value;
      ClientIp(meta).Some? && xff[..|ClientIp(meta).value|] == ClientIp(meta).value
      && ',' !in ClientIp(meta).value
  {
  }

  /** The first comma (or the end) fixes the result: the contract of `BeforeComma` has one solution. */
  lemma {:induction false} BeforeCommaAt(s: string, i: int)
    requires 0 <= i <= |s|
    requires forall j :: 0 <= j < i ==> s[j] != ','
    requires i == |s| || s[i] == ','
    ensures BeforeComma(s) == s[..i]
  {
    if i > 0 {
      BeforeCommaAt(s[1..], i - 1);
      assert s[..i] == [s[0]] + s[1..][..i - 1];
    }
  }

  /** The leftmost proxy entry is taken, whatever follows the first comma. */
  lemma ClientIpLeftmost(first: string, rest: string, remote: Option<string>)
    requires ',' !in first
    ensures ClientIp(Meta(Some(first + "," + rest), remote)) == Some(first)
  {
    var h := first + "," + rest;
    forall j | 0 <= j < |first| ensures h[j] != ',' {
      assert h[j] == first[j];
    }
    assert h[|first|] == ',';
    BeforeCommaAt(h, |first|);
    assert h[..|first|] == first;
  }

  /** Spaces are not stripped: a header of one entry with a leading space is taken whole. */
  lemma ClientIpUntrimmed(addr: string, remote: Option<string>)
    requires ',' !in addr
    ensures ClientIp(Meta(Some(" " + addr), remote)) == Some(" " + addr)
  {
    var h := " " + addr;
    forall j | 0 <= j < |h| ensures h[j] != ',' {
      if j > 0 {
        assert h[j] == addr[j - 1];
      }
    }
    BeforeCommaAt(h, |h|);
    assert h[..|h|] == h;
  }

  /** An empty header counts as absent. */
  lemma ClientIpEmptyHeader()
    ensures ClientIp(Meta(Some(""), Some("10.0.0.2"))) == Some("10.0.0.2")
  {
  }

  /** Does `path` start with `prefix` (`str.startswith`)? */
  predicate StartsWith(path: string, prefix: string)
  {
    |prefix| <= |path| && path[..|prefix|] == prefix
  }
}
