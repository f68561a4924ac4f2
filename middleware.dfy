/**
 * The route gate that runs before every page: public routes and the login
 * page pass, a protected route without a session is sent to the login page
 * with the original path as `callbackUrl`, and every other request passes
 * with four security headers. Whether the NextAuth token is present is the
 * parameter `authenticated`.
 */
module Middleware {
  import opened JsString

  const ProtectedRoutes: seq<string> := ["/pdf", "/addpdf", "/profile"]
  const AuthPageRoutes: seq<string> := ["/login"]
  const PublicRoutes: seq<string> := ["/", "/api"]

  /** What the gate answers: `NextResponse.next()` with the headers it set, or a redirect. */
  datatype Decision = Pass(headers: map<string, string>) | Redirect(location: string, callbackUrl: string)

  const SecurityHeaders: map<string, string> := map[
    "X-Content-Type-Options" := "nosniff",
    "X-Frame-Options" := "DENY",
    "X-XSS-Protection" := "1; mode=block",
    "Strict-Transport-Security" := "max-age=31536000; includeSubDomains"]

  /** `routes.some(route => pathname.startsWith(route))`. */
  predicate SomePrefix(pathname: string, routes: seq<string>) {
    exists k :: 0 <= k < |routes| && StartsWith(pathname, routes[k])
  }

  predicate IsProtected(pathname: string) {
    SomePrefix(pathname, ProtectedRoutes)
  }

  /** `authPageRoutes.includes(pathname)`: an exact match. */
  predicate IsAuthPage(pathname: string) {
    pathname in AuthPageRoutes
  }

  /** The part of the gate after the public-route test. */
  function AfterPublic(pathname: string, authenticated: bool): Decision {
    if IsAuthPage(pathname) then Pass(map[])
    else if IsProtected(pathname) && !authenticated then Redirect("/login", pathname)
    else Pass(SecurityHeaders)
  }

  /** The public-route test as written: a prefix test against a list that holds "/". */
  predicate IsPublicAsWritten(pathname: string) {
    SomePrefix(pathname, PublicRoutes)
  }

  /** `middleware` as written. */
  function MiddlewareAsWritten(pathname: string, authenticated: bool): Decision {
    if IsPublicAsWritten(pathname) then Pass(map[]) else AfterPublic(pathname, authenticated)
  }

  /** As written, every path the router can hand over (they all start with "/") passes untouched, logged in or not. */
  lemma AsWrittenPassesEverything(pathname: string, authenticated: bool)
    requires StartsWith(pathname, "/")
    ensures MiddlewareAsWritten(pathname, authenticated) == Pass(map[])
  {
    assert StartsWith(pathname, PublicRoutes[0]);
  }

  /** As written, an anonymous visitor reaches a protected page, and the redirect and headers are never produced. */
  lemma AsWrittenOpensProtectedPage()
    ensures IsProtected("/pdf")
    ensures MiddlewareAsWritten("/pdf", false) == Pass(map[])
  {
    assert StartsWith("/pdf", ProtectedRoutes[0]);
    AsWrittenPassesEverything("/pdf", false);
  }

  /** The public-route test as intended: the home page exactly, and everything under "/api". */
  predicate IsPublic(pathname: string) {
    pathname == "/" || StartsWith(pathname, "/api")
  }

  /** `middleware` with the home page matched exactly. */
  function Decide(pathname: string, authenticated: bool): Decision {
    if IsPublic(pathname) then Pass(map[]) else AfterPublic(pathname, authenticated)
  }

  /** The gate, building the response as the handler does: headers are set one by one on the passing response. */
  method Handle(pathname: string, authenticated: bool) returns (d: Decision)
    ensures d == Decide(pathname, authenticated)
  {
    if IsPublic(pathname) {
      return Pass(map[]);
    }
    if pathname in AuthPageRoutes {
      return Pass(map[]);
    }
    var isProtectedRoute := IsProtected(pathname);
    if isProtectedRoute && !authenticated {
      return Redirect("/login", pathname);
    }
    var headers: map<string, string> := map[];
    headers := headers["X-Content-Type-Options" := "nosniff"];
    headers := headers["X-Frame-Options" := "DENY"];
    headers := headers["X-XSS-Protection" := "1; mode=block"];
    headers := headers["Strict-Transport-Security" := "max-age=31536000; includeSubDomains"];
    return Pass(headers);
  }

  /** A request is redirected exactly when it is for a protected page, is not public or the login page, and has no session; the redirect carries the path. */
  lemma RedirectIff(pathname: string, authenticated: bool)
    ensures Decide(pathname, authenticated).Redirect? <==>
              !IsPublic(pathname) && !IsAuthPage(pathname) && IsProtected(pathname) && !authenticated
    ensures Decide(pathname, authenticated).Redirect? ==>
              Decide(pathname, authenticated) == Redirect("/login", pathname)
  {
  }

  /** The security headers are set exactly on the requests that go through the session decision and pass it. */
  lemma HeadersIff(pathname: string, authenticated: bool)
    ensures Decide(pathname, authenticated) == Pass(SecurityHeaders) <==>
              !IsPublic(pathname) && !IsAuthPage(pathname) && (authenticated || !IsProtected(pathname))
  {
    assert "X-Frame-Options" in SecurityHeaders;
  }

  /** With the fix, an anonymous visitor asking for a protected page is sent to log in. */
  lemma ProtectedPageRedirects()
    ensures Decide("/pdf", false) == Redirect("/login", "/pdf")
    ensures Decide("/pdfs", false) == Redirect("/login", "/pdfs")
  {
    assert StartsWith("/pdf", ProtectedRoutes[0]);
    assert StartsWith("/pdfs", ProtectedRoutes[0]);
    assert "/pdf"[1] != "/api"[1] && "/pdfs"[1] != "/api"[1];
    assert "/pdf" != "/login" && "/pdfs" != "/login";
  }

  /** "/login" is matched exactly: a path below it is not the login page. */
  lemma LoginMatchedExactly()
    ensures IsAuthPage("/login") && Decide("/login", false) == Pass(map[])
    ensures !IsAuthPage("/login/x")
  {
  }
}
