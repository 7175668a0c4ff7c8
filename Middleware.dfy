/**
 * The Next.js request middleware: static assets and API calls pass, a signed-in visitor is
 * sent home from the sign-in and sign-up pages, and a visitor without the `auth` cookie is
 * sent to the welcome page from every page that is not public.
 */
module Middleware {
  import opened Wrappers
  import opened Text

  const PUBLIC_PATHS: seq<string> := ["/welcome", "/auth/signin", "/auth/signup"]
  const AUTH_PATHS: seq<string> := ["/auth/signin", "/auth/signup"]
  const HOME: string := "/"
  const WELCOME: string := "/welcome"

  /** What the middleware answers: let the request through, or redirect it. */
  datatype Decision = Next | Redirect(location: string)

  /** Paths that always pass: Next.js assets, static files, API routes and the icon. */
  predicate AlwaysAllowed(pathname: string) {
    StartsWith(pathname, "/_next") || StartsWith(pathname, "/static") || StartsWith(pathname, "/api")
    || pathname == "/favicon.ico"
  }

  /** The `auth` cookie counts only when present and non-empty, as JavaScript truthiness has it. */
  predicate SignedIn(auth: Option<string>) {
    auth.Some? && auth.value != ""
  }

  /** `middleware` for a request to `pathname` carrying the `auth` cookie `auth`, if any. */
  function Decide(pathname: string, auth: Option<string>): (d: Decision)
    ensures d == Redirect(HOME) <==> !AlwaysAllowed(pathname) && SignedIn(auth) && pathname in AUTH_PATHS
    ensures d == Redirect(WELCOME) <==> !AlwaysAllowed(pathname) && !SignedIn(auth) && pathname !in PUBLIC_PATHS
    ensures d.Redirect? ==> d.location == HOME || d.location == WELCOME
  {
    if AlwaysAllowed(pathname) then Next
    else if SignedIn(auth) && pathname in AUTH_PATHS then Redirect(HOME)
    else if !SignedIn(auth) && pathname !in PUBLIC_PATHS then Redirect(WELCOME)
    else if !SignedIn(auth) && pathname in PUBLIC_PATHS then Next
    else Next
  }

  /** Following a redirect with the same cookie is let through: the middleware never loops. */
  lemma NoRedirectLoop(pathname: string, auth: Option<string>)
    ensures var d := Decide(pathname, auth);
      d.Redirect? ==> Decide(d.location, auth) == Next
  {
    var d := Decide(pathname, auth);
    if d == Redirect(HOME) {
      assert !StartsWith(HOME, "/_next") && !StartsWith(HOME, "/static") && !StartsWith(HOME, "/api");
    } else if d == Redirect(WELCOME) {
      assert WELCOME[..4][1] == 'w' && WELCOME[..6][1] == 'w' && WELCOME[..7][1] == 'w';
      assert !StartsWith(WELCOME, "/_next") && !StartsWith(WELCOME, "/static") && !StartsWith(WELCOME, "/api");
    }
  }

  /**
   * A page that is neither always allowed nor public is reached exactly when the visitor is
   * signed in; a public page is always reached by a visitor who is not.
   */
  lemma ProtectedPages(pathname: string, auth: Option<string>)
    requires !AlwaysAllowed(pathname)
    ensures pathname !in PUBLIC_PATHS ==> (Decide(pathname, auth) == Next <==> SignedIn(auth))
    ensures pathname in PUBLIC_PATHS && !SignedIn(auth) ==> Decide(pathname, auth) == Next
    ensures pathname in AUTH_PATHS ==> pathname in PUBLIC_PATHS
  {
  }
}
