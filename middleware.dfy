/** The routing guard run before every page: visitors without a session are
    sent to the signup page, visitors with one are sent away from it. */
module Routing {
  import opened Common

  /** What the guard answers: let the request through, or redirect. */
  datatype Response = Next | Redirect(location: string)

  /** Routes reachable without a session. */
  const PublicRoutes: seq<string> := ["/signup"]

  /** `middleware`, on the requested path and the authentication-token cookie. */
  function Middleware(path: string, cookie: Option<string>): (r: Response)
    ensures r.Next? <==> (HasToken(cookie) <==> path != "/signup")
    ensures r.Redirect? ==> r.location != path
    ensures r.Redirect? ==> r.location == (if HasToken(cookie) then "/" else "/signup")
  {
    var isPublicRoute := path in PublicRoutes;
    if !HasToken(cookie) then
      (if isPublicRoute then Next else Redirect("/signup"))
    else if path == "/signup" then Redirect("/")
    else Next
  }

  /** The decision depends on whether the cookie is set, not on its value. */
  lemma CookieValueIrrelevant(path: string, c1: Option<string>, c2: Option<string>)
    requires HasToken(c1) == HasToken(c2)
    ensures Middleware(path, c1) == Middleware(path, c2)
  {
  }
}
