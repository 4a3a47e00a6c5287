/** The primary navigation of the Next.js site (src/components/ui/PrimaryNav.jsx):
    the visible links, their targets and which one is active, with the current
    `pathname` as an input. */
module UiNav {
  import opened Options
  import opened Text
  import opened Json

  /** The links whose `hidden` flag is not truthy, in order. */
  function Unhidden(links: seq<Json>): (r: seq<Json>)
    ensures |r| <= |links|
  {
    if links == [] then []
    else (if Truthy(Get(links[0], "hidden")) then [] else [links[0]]) + Unhidden(links[1..])
  }

  /** The filter keeps exactly the links that are not hidden. */
  lemma {:induction false} UnhiddenMembers(links: seq<Json>)
    ensures forall x :: x in Unhidden(links) <==> x in links && !Truthy(Get(x, "hidden"))
  {
    if links != [] {
      UnhiddenMembers(links[1..]);
      assert links == [links[0]] + links[1..];
    }
  }

  /** Filtering distributes over concatenation. */
  lemma {:induction false} UnhiddenAppend(a: seq<Json>, b: seq<Json>)
    ensures Unhidden(a + b) == Unhidden(a) + Unhidden(b)
  {
    if a == [] {
      assert a + b == b;
    } else {
      assert (a + b)[0] == a[0];
      assert (a + b)[1..] == a[1..] + b;
      UnhiddenAppend(a[1..], b);
    }
  }

  /** `(content?.nav || []).filter(link => !link.hidden)`. A truthy `nav` that
      is not an array has no `filter`, and reading `hidden` of a null or
      undefined entry throws: both are failures. */
  function NavLinks(content: Json): (r: Result<seq<Json>>)
    ensures !Truthy(Get(content, "nav")) ==> r == Ok([])
    ensures Truthy(Get(content, "nav")) && !Get(content, "nav").Arr? ==> r.Fail?
    ensures Get(content, "nav").Arr? ==>
      var items := Get(content, "nav").items;
      (r.Ok? <==> forall i :: 0 <= i < |items| ==> !Nullish(items[i]))
    ensures r.Ok? ==> forall x :: x in r.value ==> !Truthy(Get(x, "hidden"))
    ensures r.Ok? && Get(content, "nav").Arr? ==>
      forall x :: x in Get(content, "nav").items && !Truthy(Get(x, "hidden")) ==> x in r.value
    ensures r.Ok? && Get(content, "nav").Arr? ==> r.value == Unhidden(Get(content, "nav").items)
  {
    var nav := Get(content, "nav");
    if !Truthy(nav) then Ok([])
    else if !nav.Arr? then Fail("nav.filter is not a function")
    else if exists i :: 0 <= i < |nav.items| && Nullish(nav.items[i]) then
      Fail("Cannot read properties of null (reading 'hidden')")
    else
      UnhiddenMembers(nav.items);
      Ok(Unhidden(nav.items))
  }

  /** `isActiveLink(href)` on the page `pathname`. */
  function IsActiveLink(href: string, pathname: string): (r: bool)
    ensures href == "index.html" || href == "/" ==> (r <==> pathname == "/")
    ensures href != "index.html" && href != "/" ==>
      (r <==> ReplaceFirst(href, ".html", "") == ReplaceFirst(pathname, "/", ""))
  {
    if href == "index.html" || href == "/" then pathname == "/"
    else ReplaceFirst(href, ".html", "") == ReplaceFirst(pathname, "/", "")
  }

  /** `getHref(href)`: the Next.js route of a content href. */
  function GetHref(href: string): (r: string)
    ensures r != [] && r[0] == '/'
    ensures href == "index.html" ==> r == "/"
    ensures href != "index.html" ==> r == "/" + ReplaceFirst(href, ".html", "")
  {
    if href == "index.html" then "/" else "/" + ReplaceFirst(href, ".html", "")
  }

  /** Removing the first '/' from `/` + `s` gives back `s`. */
  lemma DropFirstSlash(s: string)
    ensures ReplaceFirst("/" + s, "/", "") == s
  {
    assert MatchesAt("/" + s, 0, "/");
    assert ("/" + s)[1..] == s;
  }

  /** Every link other than `/` is active on the route it links to. */
  lemma ActiveOnOwnRoute(href: string)
    requires href != "/"
    ensures IsActiveLink(href, GetHref(href))
  {
    if href != "index.html" {
      DropFirstSlash(ReplaceFirst(href, ".html", ""));
    }
  }

  /** As written, the link `/` routes to `//` and is not active there. */
  lemma RootLinkAsWritten()
    ensures GetHref("/") == "//"
    ensures !IsActiveLink("/", GetHref("/"))
  {
    assert IndexOf("/", ".html").None?;
  }

  /** `getHref` with `/` recognised as the home link, as `isActiveLink` does. */
  function GetHrefIntended(href: string): (r: string)
    ensures r != [] && r[0] == '/'
    ensures href == "index.html" || href == "/" ==> r == "/"
    ensures href != "index.html" && href != "/" ==> r == GetHref(href)
  {
    if href == "index.html" || href == "/" then "/" else "/" + ReplaceFirst(href, ".html", "")
  }

  /** With the home link recognised in both places, every link is active on
      the route it links to. */
  lemma ActiveOnOwnRouteIntended(href: string)
    ensures IsActiveLink(href, GetHrefIntended(href))
  {
    if href != "index.html" && href != "/" {
      ActiveOnOwnRoute(href);
    }
  }
}
