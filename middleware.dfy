/** The request routing decision of src/middleware.ts: every pathname
    either passes through or is redirected with 302 Found (section 15.4.3
    of RFC 9110) to a path under the default locale. */
module Middleware {
  import opened Options
  import opened Text
  import opened I18n

  datatype Decision = Next | Redirect(location: string, status: int)

  /** extractLocaleFromPath: the first path segment, or null. */
  function ExtractLocale(pathname: string): (r: Option<string>)
    ensures Segments(pathname) == [] <==> r.None?
    ensures r.Some? ==> r.value == Segments(pathname)[0] && r.value != "" && '/' !in r.value
  {
    var segments := Segments(pathname);
    if segments == [] then None
    else
      assert segments[0] in Split(pathname, '/');
      Some(segments[0])
  }

  /** Internal routes, static assets, API endpoints, anything with a file
      extension and the four root files are never rerouted. */
  predicate IsPassThrough(pathname: string)
    ensures IsPassThrough(pathname) ==> pathname != "/" && pathname != ""
  {
    StartsWith(pathname, "/_") || StartsWith(pathname, "/assets/") || StartsWith(pathname, "/api/") ||
    '.' in pathname ||
    pathname in ["/favicon.ico", "/robots.txt", "/sitemap.xml", "/site.webmanifest"]
  }

  /** onRequest, as a decision on the pathname. */
  function OnRequest(pathname: string): (d: Decision)
    ensures d.Redirect? ==> d.status == 302
    ensures IsPassThrough(pathname) ==> d == Next
    ensures !IsPassThrough(pathname) && pathname == "/" ==> d == Redirect("/" + DefaultLocale + "/", 302)
    ensures !IsPassThrough(pathname) && pathname != "/" ==>
      (d == Next <==> ExtractLocale(pathname).Some? && IsValidLocale(ExtractLocale(pathname).value))
    ensures !IsPassThrough(pathname) && pathname != "/" && d.Redirect? ==> d.location == "/" + DefaultLocale + pathname
  {
    if IsPassThrough(pathname) then Next
    else if pathname == "/" then Redirect("/" + DefaultLocale + "/", 302)
    else
      var pathLocale := ExtractLocale(pathname);
      if pathLocale.Some? && IsValidLocale(pathLocale.value) then Next
      else Redirect("/" + DefaultLocale + pathname, 302)
  }

  /** '/' goes to '/zh/'. */
  lemma RootRedirect(p: string)
    requires p == "/"
    ensures OnRequest(p) == Redirect("/zh/", 302)
  {
    assert !IsPassThrough(p) by { assert !StartsWith(p, "/_"); }
  }

  /** Paths under a locale pass through. */
  lemma LocalePathPasses(l: string, rest: string)
    requires IsValidLocale(l) && (rest == "" || rest[0] == '/')
    ensures OnRequest("/" + l + rest) == Next
  {
    FirstSegment(l, rest);
  }

  /** No redirect loops: for a pathname starting with '/', the target of a
      redirect passes through on the next request. */
  lemma NoRedirectLoop(pathname: string)
    requires StartsWith(pathname, "/")
    requires OnRequest(pathname).Redirect?
    ensures OnRequest(OnRequest(pathname).location) == Next
  {
    if pathname == "/" {
      LocalePathPasses(DefaultLocale, "/");
    } else {
      LocalePathPasses(DefaultLocale, pathname);
    }
  }
}
