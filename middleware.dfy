/**
  The route guard (src/middleware.ts): signed-in users are sent away from
  the sign-in, sign-up and verification pages to the dashboard, and
  signed-out users are sent from the dashboard to sign-in, with the page
  they asked for as `callbackUrl`.
*/
module Middleware {
  import opened Text

  datatype Decision =
    | Proceed
    | RedirectToDashboard
    | RedirectToSignIn(callbackUrl: string)

  predicate IsAuthPage(pathname: string) {
    StartsWith(pathname, "/sign-in") || StartsWith(pathname, "/sign-up") || StartsWith(pathname, "/verify")
  }

  predicate IsProtectedRoute(pathname: string) {
    StartsWith(pathname, "/dashboard")
  }

  /** The decision for a request to `pathname`, with or without a token. */
  function Guard(hasToken: bool, pathname: string): Decision {
    if hasToken && IsAuthPage(pathname) then RedirectToDashboard
    else if !hasToken && IsProtectedRoute(pathname) then RedirectToSignIn(pathname)
    else Proceed
  }

  lemma SecondChar(pathname: string, prefix: string)
    requires StartsWith(pathname, prefix) && |prefix| > 1
    ensures pathname[1] == prefix[1]
  {
    assert pathname[..|prefix|][1] == prefix[1];
  }

  /** No path is both an auth page and a protected route: the second
      character tells them apart. */
  lemma AuthPagesNotProtected(pathname: string)
    ensures !(IsAuthPage(pathname) && IsProtectedRoute(pathname))
  {
    if IsProtectedRoute(pathname) { SecondChar(pathname, "/dashboard"); }
    if StartsWith(pathname, "/sign-in") { SecondChar(pathname, "/sign-in"); }
    if StartsWith(pathname, "/sign-up") { SecondChar(pathname, "/sign-up"); }
    if StartsWith(pathname, "/verify") { SecondChar(pathname, "/verify"); }
  }

  /** Each redirect happens exactly when its rule applies, the sign-in
      redirect carries the requested path back, and every other request
      proceeds. A signed-in user is never sent to sign-in and a signed-out
      user never to the dashboard. */
  lemma GuardDecides(hasToken: bool, pathname: string)
    ensures Guard(hasToken, pathname) == RedirectToDashboard <==> hasToken && IsAuthPage(pathname)
    ensures Guard(hasToken, pathname).RedirectToSignIn? <==> !hasToken && IsProtectedRoute(pathname)
    ensures Guard(hasToken, pathname).RedirectToSignIn? ==> Guard(hasToken, pathname).callbackUrl == pathname
    ensures Guard(hasToken, pathname) == Proceed <==>
              (!IsAuthPage(pathname) && !IsProtectedRoute(pathname))
              || (hasToken && IsProtectedRoute(pathname))
              || (!hasToken && IsAuthPage(pathname))
  {
    AuthPagesNotProtected(pathname);
  }
}
