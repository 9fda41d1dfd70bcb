/** The request gate in front of the pages: a chain of guarded early returns over the
    path, the `token` cookie and the role claim of the verified token. The signature and
    expiry check (`jwtVerify`) is an oracle: its answer is a parameter. */
module Middleware {

  import opened Wrappers

  /** The payload of a token that verified; `role` is the claim, if the token carries one. */
  datatype Claims = Claims(role: Option<string>)

  /** `NextResponse.next()`, or a redirect; `clearToken` is the `token` cookie reset to
      `""` with max-age 0. */
  datatype Decision = Next | Redirect(target: string, clearToken: bool)

  /** `if (token)`: the cookie is present and not empty. */
  predicate HasToken(token: Option<string>)
  {
    token.Some? && token.value != ""
  }

  /** `role === "admin"` for the role the middleware derived. */
  predicate IsAdmin(token: Option<string>, verified: Option<Claims>)
  {
    HasToken(token) && verified.Some? && verified.value.role == Some("admin")
  }

  /** `middleware(request)`: `verified` is what `verifyJwt(token)` returns (consulted only
      when there is a token); the rules are tried in order and the first that matches wins. */
  function Gate(pathname: string, token: Option<string>, verified: Option<Claims>): (d: Decision)
    // an invalid token always sends to /login and clears the cookie, and only then is it cleared
    ensures HasToken(token) && verified.None? ==> d == Redirect("/login", true)
    ensures d.Redirect? && d.clearToken ==> HasToken(token) && verified.None?
    // the home page
    ensures pathname == "/" && !HasToken(token) ==> d == Next
    ensures pathname == "/" && IsAdmin(token, verified) ==> d == Redirect("/admin/dashboard", false)
    ensures pathname == "/" && HasToken(token) && verified.Some? && !IsAdmin(token, verified) ==> d == Next
    // anonymous visitors
    ensures !HasToken(token) && "/admin" <= pathname ==> d == Redirect("/unauth-page", false)
    ensures !HasToken(token) && (pathname == "/account" || pathname == "/checkout") ==> d == Redirect("/login", false)
    ensures !HasToken(token) ==> d != Redirect("/admin/dashboard", false)
    // signed-in visitors on the login and register pages
    ensures HasToken(token) && verified.Some? && ("/login" <= pathname || "/register" <= pathname) ==>
              d == Redirect(if IsAdmin(token, verified) then "/admin/dashboard" else "/", false)
    // the admin area
    ensures HasToken(token) && verified.Some? && !IsAdmin(token, verified) && "/admin" <= pathname ==>
              d == Redirect("/unauth-page", false)
    ensures IsAdmin(token, verified) ==> d != Redirect("/unauth-page", false)
    // admins are kept away from the shop pages
    ensures IsAdmin(token, verified) && ("/account" <= pathname || "/checkout" <= pathname) ==>
              d == Redirect("/admin/dashboard", false)
    // the requests every rule passes over
    ensures !HasToken(token) && ("/login" <= pathname || "/register" <= pathname) ==> d == Next
    ensures HasToken(token) && verified.Some? && !IsAdmin(token, verified) && ("/account" <= pathname || "/checkout" <= pathname) ==>
              d == Next
    ensures IsAdmin(token, verified) && "/admin" <= pathname ==> d == Next
    ensures d == Next <==>
              && (!HasToken(token) || verified.Some?)
              && !(pathname == "/" && IsAdmin(token, verified))
              && !(!HasToken(token) && ("/admin" <= pathname || pathname == "/account" || pathname == "/checkout"))
              && !(HasToken(token) && ("/login" <= pathname || "/register" <= pathname))
              && !(HasToken(token) && !IsAdmin(token, verified) && "/admin" <= pathname)
              && !(IsAdmin(token, verified) && ("/account" <= pathname || "/checkout" <= pathname))
  {
    PrefixChars(pathname);
    var hasToken := HasToken(token);
    if hasToken && verified.None? then
      Redirect("/login", true)
    else
      var role := if hasToken then verified.value.role else None;
      var admin := role == Some("admin");
      if pathname == "/" && !hasToken then Next
      else if pathname == "/" && admin then Redirect("/admin/dashboard", false)
      else if !hasToken && "/admin" <= pathname then Redirect("/unauth-page", false)
      else if !hasToken && (pathname == "/account" || pathname == "/checkout") then Redirect("/login", false)
      else if hasToken && ("/login" <= pathname || "/register" <= pathname) then
        Redirect(if admin then "/admin/dashboard" else "/", false)
      else if hasToken && !admin && "/admin" <= pathname then Redirect("/unauth-page", false)
      else if hasToken && admin && ("/account" <= pathname || "/checkout" <= pathname) then
        Redirect("/admin/dashboard", false)
      else Next
  }

  /** The characters that tell the route prefixes apart. */
  lemma PrefixChars(pathname: string)
    ensures "/admin" <= pathname ==> |pathname| >= 3 && pathname[1] == 'a' && pathname[2] == 'd'
    ensures "/account" <= pathname ==> |pathname| >= 3 && pathname[1] == 'a' && pathname[2] == 'c'
    ensures "/checkout" <= pathname ==> |pathname| >= 2 && pathname[1] == 'c'
    ensures "/login" <= pathname ==> |pathname| >= 2 && pathname[1] == 'l'
    ensures "/register" <= pathname ==> |pathname| >= 2 && pathname[1] == 'r'
  {
  }

  /** Without a token the shop pages are matched exactly: a sub-path of `/account` passes. */
  lemma AccountIsExactMatch()
    ensures Gate("/account", None, None) == Redirect("/login", false)
    ensures Gate("/account/orders", None, None) == Next
  {
  }

  /** Anything no rule matches is let through, with or without a token. */
  lemma UnmatchedPathsPass(pathname: string, token: Option<string>, verified: Option<Claims>)
    requires !HasToken(token) || verified.Some?
    requires pathname != "/" && !("/admin" <= pathname) && !("/login" <= pathname) && !("/register" <= pathname)
    requires !("/account" <= pathname) && !("/checkout" <= pathname)
    ensures Gate(pathname, token, verified) == Next
  {
  }

  /** The `config.matcher` paths the gate runs on: the five pages exactly and `/admin` with
      any sub-path. */
  predicate Matched(pathname: string)
  {
    || pathname in ["/", "/login", "/register", "/account", "/checkout"]
    || pathname == "/admin" || "/admin/" <= pathname
  }

  /** The decision for a request: paths outside the matcher never reach the middleware. */
  function Route(pathname: string, token: Option<string>, verified: Option<Claims>): (d: Decision)
    ensures !Matched(pathname) ==> d == Next
    ensures Matched(pathname) ==> d == Gate(pathname, token, verified)
  {
    if Matched(pathname) then Gate(pathname, token, verified) else Next
  }

  /** Once the matcher is taken into account, the admin rule for the shop pages only ever fires
      on exactly `/account` or `/checkout`: their sub-paths never reach the middleware. */
  lemma AdminShopRedirectOnlyOnExactPaths(pathname: string, token: Option<string>, verified: Option<Claims>)
    requires IsAdmin(token, verified) && ("/account" <= pathname || "/checkout" <= pathname)
    ensures Route(pathname, token, verified) == Redirect("/admin/dashboard", false) <==>
              pathname == "/account" || pathname == "/checkout"
  {
    PrefixChars(pathname);
  }
}
