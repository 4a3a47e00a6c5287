/** The primary navigation of the Astro site (src/components/astro/PrimaryNav.jsx):
    which links are shown, where each one points and which one is active.
    `nav`, `currentPath` and `lang` are the component's inputs; hrefs are
    strings and the falsy href is the empty string. */
module AstroNav {
  import opened Text
  import opened Json
  import UrlUtils

  /** The hrefs that `normalizePath` and `resolveHref` return untouched:
      a case-sensitive `http`, `mailto:` or `#` prefix. */
  predicate PassThrough(href: string) {
    StartsWith(href, "http") || StartsWith(href, "mailto:") || StartsWith(href, "#")
  }

  /** A path that starts with '/' is never passed through. */
  lemma SlashNotPassThrough(p: string)
    requires p != [] && p[0] == '/'
    ensures !PassThrough(p)
  {
    assert p[..1][0] == '/';
    assert |p| >= 4 ==> p[..4][0] == '/';
    assert |p| >= 7 ==> p[..7][0] == '/';
  }

  /** A string ending in '/' does not end in `.html`. */
  lemma SlashEndNotHtml(p: string)
    requires p != [] && p[|p| - 1] == '/'
    ensures !EndsWithCI(p, ".html")
  {
    assert Lower(".html")[4] == 'l';
    assert |p| >= 5 ==> Lower(p[|p| - 5..])[4] == '/';
  }

  /** `normalizePath`: drops one `.html` suffix in any case, maps `index` and
      `/index` to `/` and adds a missing leading '/'. Trailing slashes stay. */
  function NormalizePath(href: string): (r: string)
    ensures href == "" ==> r == "/"
    ensures href != "" && PassThrough(href) ==> r == href
    ensures href == "" || !PassThrough(href) ==> r != [] && r[0] == '/' && !PassThrough(r)
    ensures PassThrough(r) <==> href != "" && PassThrough(href)
    ensures r != "/index"
    ensures href != "" && !PassThrough(href) ==>
      var n := UrlUtils.StripHtmlExtension(href);
      r == (if n == "index" || n == "/index" then "/"
            else if StartsWith(n, "/") then n else "/" + n)
  {
    if href == "" then SlashNotPassThrough("/"); "/"
    else if PassThrough(href) then SlashNotPassThrough("/index"); href
    else
      var n := UrlUtils.StripHtmlExtension(href);
      var r := if n == "index" || n == "/index" then "/"
        else if StartsWith(n, "/") then n
        else "/" + n;
      SlashNotPassThrough(r);
      r
  }

  /** A page name with its `.html` (in any case) becomes the page's path. */
  lemma NormalizePathPage(x: string, e: string)
    requires x != [] && x[0] != '/' && x != "index" && !PassThrough(x + e)
    requires |e| == 5 && Lower(e) == ".html"
    ensures NormalizePath(x + e) == "/" + x
  {
    UrlUtils.HtmlSuffix(x, e);
    assert !StartsWith(x, "/") by { assert |x| >= 1 ==> x[..1][0] == x[0]; }
  }

  /** 'about.html' becomes '/about'. */
  lemma NormalizePathAboutHtml(x: string)
    requires x == "about"
    ensures NormalizePath(x + ".html") == "/" + x
  {
    UrlUtils.LowerNoCapitals(".html");
    var h := x + ".html";
    assert h[0] == 'a';
    assert !PassThrough(h) by {
      assert h[..1][0] == 'a';
      assert |h| >= 4 ==> h[..4][0] == 'a';
      assert |h| >= 7 ==> h[..7][0] == 'a';
    }
    NormalizePathPage(x, ".html");
  }

  /** A trailing slash on an internal href survives normalisation, even though
      the function's own doc comment promises to remove it. */
  lemma NormalizeKeepsTrailingSlash(href: string)
    requires href != "" && !PassThrough(href) && href[|href| - 1] == '/'
    ensures var r := NormalizePath(href); r != [] && r[|r| - 1] == '/'
  {
    SlashEndNotHtml(href);
  }

  /** An internal path that is already normalised is left alone. */
  lemma NormalizeFixed(p: string)
    requires p != [] && p[0] == '/' && p != "/index" && !EndsWithCI(p, ".html")
    ensures NormalizePath(p) == p
  {
    SlashNotPassThrough(p);
  }

  /** normalizePath is idempotent unless it leaves a `.html` suffix behind
      (as for `a.html.html`). */
  lemma NormalizeIdempotent(href: string)
    requires !EndsWithCI(NormalizePath(href), ".html")
    ensures NormalizePath(NormalizePath(href)) == NormalizePath(href)
  {
    var r := NormalizePath(href);
    if href == "" {
      NormalizeFixed(r);
    } else if !PassThrough(href) {
      NormalizeFixed(r);
    }
  }

  /** `link?.href && !link.hidden` */
  predicate Shown(link: Json) {
    Truthy(Get(link, "href")) && !Truthy(Get(link, "hidden"))
  }

  function ShownLinks(links: seq<Json>): (r: seq<Json>)
    ensures |r| <= |links|
    ensures forall x :: x in r <==> x in links && Shown(x)
  {
    if links == [] then []
    else (if Shown(links[0]) then [links[0]] else []) + ShownLinks(links[1..])
  }

  /** Filtering commutes with concatenation, so the shown links keep their
      relative order. */
  lemma {:induction false} ShownLinksAppend(a: seq<Json>, b: seq<Json>)
    ensures ShownLinks(a + b) == ShownLinks(a) + ShownLinks(b)
  {
    if a == [] {
      assert a + b == b;
    } else {
      assert (a + b)[0] == a[0];
      assert (a + b)[1..] == a[1..] + b;
      ShownLinksAppend(a[1..], b);
    }
  }

  /** A list whose links are all shown is kept whole. */
  lemma {:induction false} ShownLinksAll(links: seq<Json>)
    requires forall i :: 0 <= i < |links| ==> Shown(links[i])
    ensures ShownLinks(links) == links
  {
    if links != [] {
      ShownLinksAll(links[1..]);
    }
  }

  /** `navLinks`: the shown entries of `nav`, or none when `nav` is not an array. */
  function NavLinks(nav: Json): (r: seq<Json>)
    ensures !nav.Arr? ==> r == []
    ensures nav.Arr? ==> r == ShownLinks(nav.items)
  {
    if nav.Arr? then ShownLinks(nav.items) else []
  }

  /** `isActiveLink(href)` for the page at `currentPath` in language `lang`. */
  function IsActiveLink(href: string, currentPath: string, lang: string): (r: bool)
    ensures StartsWith(href, "http") || StartsWith(href, "mailto:") ==> !r
    ensures NormalizePath(href) == "/" ==>
      (r <==> NormalizePath(currentPath) in {"/", "/" + lang, "/" + lang + "/"})
    ensures var h := NormalizePath(href);
      h != "/" && !StartsWith(h, "http") && !StartsWith(h, "mailto:") ==>
      (r <==> EndsWith(NormalizePath(currentPath), h) || NormalizePath(currentPath) == "/" + lang + h)
  {
    var h := NormalizePath(href);
    var c := NormalizePath(currentPath);
    if StartsWith(h, "http") || StartsWith(h, "mailto:") then false
    else if h == "/" || h == "/index" then c == "/" || c == "/" + lang || c == "/" + lang + "/"
    else EndsWith(c, h) || c == "/" + lang + h
  }

  /** `resolveHref(href)`: the language-prefixed target of a nav link. */
  function ResolveHref(href: string, lang: string): (r: string)
    ensures href != "" && PassThrough(href) ==> r == href
    ensures NormalizePath(href) == "/" ==> r == "/" + lang + "/"
    ensures href == "" || !PassThrough(href) ==>
      StartsWith(r, "/" + lang + "/") && r[|r| - 1] == '/'
    ensures href == "" || !PassThrough(href) ==>
      r == (if NormalizePath(href) == "/" then "/" + lang + "/" else "/" + lang + NormalizePath(href) + "/")
  {
    var n := NormalizePath(href);
    SlashNotPassThrough("/");
    if PassThrough(n) then n
    else if n == "/" || n == "/index" then "/" + lang + "/"
    else
      assert ("/" + lang + n + "/")[..|lang| + 2] == "/" + lang + "/";
      "/" + lang + n + "/"
  }

  /** An href that normalises to a string starting with `http` or `mailto:`
      is never active, whatever the current page. */
  lemma ExternalNeverActive(href: string, currentPath: string, lang: string)
    requires href != "" && (StartsWith(href, "http") || StartsWith(href, "mailto:"))
    ensures !IsActiveLink(href, currentPath, lang)
  {
  }

  /** The home link is active on the language root, and so on the page it
      resolves to. */
  lemma HomeActiveOnLanguageRoot(href: string, lang: string)
    requires NormalizePath(href) == "/"
    ensures IsActiveLink(href, "/" + lang + "/", lang)
    ensures IsActiveLink(href, ResolveHref(href, lang), lang)
  {
    var page := "/" + lang + "/";
    SlashEndNotHtml(page);
    NormalizeFixed(page);
  }

  /** A string whose last character differs from that of `b` does not end with `b`. */
  lemma LastCharDiffers(a: string, b: string)
    requires a != [] && b != [] && a[|a| - 1] != b[|b| - 1]
    ensures !EndsWith(a, b)
  {
    if |b| <= |a| {
      assert a[|a| - |b|..][|b| - 1] == a[|a| - 1];
    }
  }

  /** As written, an internal link that does not end in '/' is never active on
      the page it resolves to: `about.html` resolves to `/zh/about/`, which
      normalises to itself, neither ends with `/about` nor equals `/zh/about`. */
  lemma NotActiveOnOwnPage(href: string, lang: string)
    requires href != "" && !PassThrough(href)
    requires NormalizePath(href) != "/"
    requires !EndsWith(NormalizePath(href), "/")
    ensures !IsActiveLink(href, ResolveHref(href, lang), lang)
  {
    var n := NormalizePath(href);
    var page := "/" + lang + n + "/";
    assert ResolveHref(href, lang) == page;
    assert n[|n| - 1] != '/' by { assert n[|n| - 1..] == [n[|n| - 1]]; }
    SlashEndNotHtml(page);
    NormalizeFixed(page);
    LastCharDiffers(page, n);
    assert |page| != |"/" + lang + n|;
  }

  /** The normalisation the doc comment of `normalizePath` describes: trailing
      slashes are removed along with the `.html` suffix, before `index` is
      recognised. */
  function NormalizePathIntended(href: string): (r: string)
    ensures href == "" ==> r == "/"
    ensures href != "" && PassThrough(href) ==> r == href
    ensures href == "" || !PassThrough(href) ==>
      r != [] && r[0] == '/' && r != "/index" && (r == "/" || r[|r| - 1] != '/')
  {
    if href == "" then "/"
    else if PassThrough(href) then href
    else
      var n := UrlUtils.DropTrailingSlashes(UrlUtils.StripHtmlExtension(href));
      if n == "" || n == "index" || n == "/index" then "/"
      else if n[0] == '/' then n
      else
        assert ("/" + n)[|n|] == n[|n| - 1];
        assert ("/" + n)[1..] == n;
        "/" + n
  }

  /** The intended normalisation differs from the written one only on results
      that end in '/'. */
  lemma IntendedAgreesWithoutTrailingSlash(href: string)
    requires NormalizePath(href) == "/" || NormalizePath(href)[|NormalizePath(href)| - 1] != '/'
    ensures NormalizePathIntended(href) == NormalizePath(href)
  {
    if href != "" && !PassThrough(href) {
      var n := UrlUtils.StripHtmlExtension(href);
      if n != "" && n[|n| - 1] != '/' {
        AgreeWithoutSlash(href, n);
      } else if n != "" {
        AgreeOnRoot(href, n);
      }
    }
  }

  lemma AgreeWithoutSlash(href: string, n: string)
    requires href != "" && !PassThrough(href) && n == UrlUtils.StripHtmlExtension(href)
    requires n != "" && n[|n| - 1] != '/'
    ensures NormalizePathIntended(href) == NormalizePath(href)
  {
    assert UrlUtils.DropTrailingSlashes(n) == n;
    assert StartsWith(n, "/") <==> n[0] == '/';
  }

  lemma AgreeOnRoot(href: string, n: string)
    requires href != "" && !PassThrough(href) && n == UrlUtils.StripHtmlExtension(href)
    requires n != "" && n[|n| - 1] == '/'
    requires NormalizePath(href) == "/" || NormalizePath(href)[|NormalizePath(href)| - 1] != '/'
    ensures NormalizePathIntended(href) == NormalizePath(href)
  {
    var r := NormalizePath(href);
    assert n != "index" && n != "/index";
    assert r == n || r == "/" + n;
    assert r[|r| - 1] == '/';
    assert n == "/";
    assert UrlUtils.DropTrailingSlashes(n) == "";
  }

  function IsActiveLinkIntended(href: string, currentPath: string, lang: string): (r: bool)
    ensures StartsWith(href, "http") || StartsWith(href, "mailto:") ==> !r
    ensures NormalizePathIntended(href) == "/" ==>
      (r <==> NormalizePathIntended(currentPath) in {"/", "/" + lang, "/" + lang + "/"})
    ensures var h := NormalizePathIntended(href);
      h != "/" && !StartsWith(h, "http") && !StartsWith(h, "mailto:") ==>
      (r <==> EndsWith(NormalizePathIntended(currentPath), h) || NormalizePathIntended(currentPath) == "/" + lang + h)
  {
    var h := NormalizePathIntended(href);
    var c := NormalizePathIntended(currentPath);
    if StartsWith(h, "http") || StartsWith(h, "mailto:") then false
    else if h == "/" then c == "/" || c == "/" + lang || c == "/" + lang + "/"
    else EndsWith(c, h) || c == "/" + lang + h
  }

  function ResolveHrefIntended(href: string, lang: string): (r: string)
    ensures href != "" && PassThrough(href) ==> r == href
    ensures NormalizePathIntended(href) == "/" ==> r == "/" + lang + "/"
    ensures href == "" || !PassThrough(href) ==>
      StartsWith(r, "/" + lang + "/") && r[|r| - 1] == '/'
    ensures href == "" || !PassThrough(href) ==>
      r == (if NormalizePathIntended(href) == "/" then "/" + lang + "/" else "/" + lang + NormalizePathIntended(href) + "/")
  {
    var n := NormalizePathIntended(href);
    SlashNotPassThrough("/");
    if href != "" && PassThrough(href) then n
    else if n == "/" then "/" + lang + "/"
    else
      assert ("/" + lang + n + "/")[..|lang| + 2] == "/" + lang + "/";
      "/" + lang + n + "/"
  }

  /** With trailing slashes removed as documented, every internal link is
      active on the page it resolves to. */
  lemma ActiveOnOwnPageIntended(href: string, lang: string)
    requires href == "" || !PassThrough(href)
    requires lang != "" && lang[|lang| - 1] != '/'
    ensures IsActiveLinkIntended(href, ResolveHrefIntended(href, lang), lang)
  {
    if NormalizePathIntended(href) == "/" {
      HomeActiveIntended(href, lang);
    } else {
      PageActiveIntended(href, lang);
    }
  }

  lemma HomeActiveIntended(href: string, lang: string)
    requires NormalizePathIntended(href) == "/"
    requires lang != "" && lang[|lang| - 1] != '/'
    ensures IsActiveLinkIntended(href, "/" + lang + "/", lang)
  {
    IntendedOfPage(lang, "");
    assert "/" + lang + "" == "/" + lang;
  }

  lemma PageActiveIntended(href: string, lang: string)
    requires href == "" || !PassThrough(href)
    requires NormalizePathIntended(href) != "/"
    requires lang != "" && lang[|lang| - 1] != '/'
    ensures IsActiveLinkIntended(href, "/" + lang + NormalizePathIntended(href) + "/", lang)
  {
    var n := NormalizePathIntended(href);
    SlashNotPassThrough(n);
    IntendedOfPage(lang, n);
    var d := "/" + lang + n;
    assert d != "/index" by {
      assert d[1..][|lang|] == '/';
      assert '/' !in "/index"[1..];
    }
    assert NormalizePathIntended(d + "/") == d;
  }

  /** The intended normalisation of the page `/<lang><n>/` is `/<lang><n>`,
      or `/` when that spells `/index`. */
  lemma IntendedOfPage(lang: string, n: string)
    requires lang != "" && lang[|lang| - 1] != '/'
    requires n == "" || (n[0] == '/' && n[|n| - 1] != '/')
    ensures var d := "/" + lang + n;
      NormalizePathIntended(d + "/") == (if d == "/index" then "/" else d)
  {
    var d := "/" + lang + n;
    var page := d + "/";
    SlashNotPassThrough(page);
    SlashEndNotHtml(page);
    assert d[|d| - 1] == (if n == "" then lang[|lang| - 1] else n[|n| - 1]);
    DropOneTrailingSlash(d);
  }

  lemma DropOneTrailingSlash(d: string)
    requires d != [] && d[|d| - 1] != '/'
    ensures UrlUtils.DropTrailingSlashes(d + "/") == d
  {
    assert (d + "/")[..|d + "/"| - 1] == d;
  }
}
