/** The homepage cards (src/components/astro/FeaturedPostItem.jsx and
    src/components/astro/WebsiteItem.jsx): the link a card opens and the
    values a post card derives from its item. Both files carry the same
    `resolveContentHref`, defined here once. */
module Cards {
  import opened Options
  import opened Text
  import opened Json

  predicate External(s: string) {
    StartsWith(s, "http://") || StartsWith(s, "https://")
  }

  /** `resolveContentHref(href)`: `#` for a falsy href, external links as
      they are, other links rooted at `/`. A truthy href that is not a
      string has no `startsWith` and throws. */
  function ResolveContentHref(href: Json): (r: Result<string>)
    ensures !Truthy(href) ==> r == Ok("#")
    ensures Truthy(href) && !href.Str? ==> r.Fail?
    ensures href.Str? && External(href.s) ==> r == Ok(href.s)
    ensures href.Str? && href.s != "" && !External(href.s) ==>
      r.Ok? && StartsWith(r.value, "/") && (r.value == href.s || r.value == "/" + href.s)
    ensures href.Str? && StartsWith(href.s, "/") ==> r == Ok(href.s)
    ensures r.Ok? ==> r.value != ""
  {
    if !Truthy(href) then Ok("#")
    else if !href.Str? then Fail("href.startsWith is not a function")
    else if External(href.s) then Ok(href.s)
    else if StartsWith(href.s, "/") then Ok(href.s)
    else
      assert ("/" + href.s)[..1] == "/";
      Ok("/" + href.s)
  }

  /** Resolving a resolved non-empty href changes nothing. */
  lemma ResolveIdempotent(s: string)
    requires s != ""
    ensures ResolveContentHref(Str(ResolveContentHref(Str(s)).value)) == ResolveContentHref(Str(s))
  {
    var t := ResolveContentHref(Str(s)).value;
    if !External(s) && !StartsWith(s, "/") {
      assert t == "/" + s;
      assert StartsWith(t, "/") by { assert t[..1] == "/"; }
    }
  }

  /** The empty href is the exception: `''` becomes `#`, which becomes `/#`. */
  lemma ResolveEmptyNotIdempotent()
    ensures ResolveContentHref(Str("")) == Ok("#")
    ensures ResolveContentHref(Str("#")) == Ok("/#")
  {
    assert "#"[..1][0] == '#';
    assert !External("#");
    assert !StartsWith("#", "/");
    assert ("/" + "#") == "/#";
  }

  /** The external check is case-sensitive: `HTTP://` links are treated as
      internal paths. */
  lemma ResolveCaseSensitive(rest: string)
    ensures ResolveContentHref(Str("HTTP://" + rest)) == Ok("/HTTP://" + rest)
  {
    var s := "HTTP://" + rest;
    assert s[..1][0] == 'H' && s[..7][0] == 'H' && (|s| >= 8 ==> s[..8][0] == 'H');
    assert !External(s);
    assert !StartsWith(s, "/");
    assert "/" + s == "/HTTP://" + rest;
  }

  /** `item.categories || (item.category ? [item.category] : [])` */
  function Categories(item: Json): (r: Json)
    ensures Truthy(r) && (r.Arr? || r == Get(item, "categories"))
    ensures Truthy(Get(item, "categories")) ==> r == Get(item, "categories")
    ensures !Truthy(Get(item, "categories")) && Truthy(Get(item, "category")) ==> r == Arr([Get(item, "category")])
    ensures !Truthy(Get(item, "categories")) && !Truthy(Get(item, "category")) ==> r == Arr([])
  {
    Or(Get(item, "categories"), if Truthy(Get(item, "category")) then Arr([Get(item, "category")]) else Arr([]))
  }

  /** `item.pubDate || item.updated || item.published || null`: the first
      truthy date field, else `null`. */
  function PubDate(item: Json): (r: Json)
    ensures Truthy(r) <==> Truthy(Get(item, "pubDate")) || Truthy(Get(item, "updated")) || Truthy(Get(item, "published"))
    ensures !Truthy(r) ==> r == Null
    ensures Truthy(Get(item, "pubDate")) ==> r == Get(item, "pubDate")
    ensures !Truthy(Get(item, "pubDate")) && Truthy(Get(item, "updated")) ==> r == Get(item, "updated")
    ensures !Truthy(Get(item, "pubDate")) && !Truthy(Get(item, "updated")) ==> r == Or(Get(item, "published"), Null)
  {
    Or(Or(Or(Get(item, "pubDate"), Get(item, "updated")), Get(item, "published")), Null)
  }

  /** `POST_STYLES`: the overlay classes of particular posts. */
  const PostStyles: map<string, string> := map[
    "about-MyWork" := "bg-yellow-500 bg-opacity-80",
    "markdown-syntax" := "bg-blue-900 bg-opacity-80"]

  const DefaultOverlay: string := "bg-gradient-to-b from-black/80 via-black/20 to-black/90 dark:via-black/40"

  /** `POST_STYLES[item.id] || null` */
  function CustomOverlay(item: Json): (r: Option<string>)
    ensures r.Some? <==> Get(item, "id").Str? && Get(item, "id").s in PostStyles
    ensures r.Some? ==> r.value == PostStyles[Get(item, "id").s]
  {
    var id := Get(item, "id");
    if id.Str? && id.s in PostStyles then Some(PostStyles[id.s]) else None
  }

  /** The overlay class of a post card: its own style, or the black gradient
      exactly when it has none (`isBlackOverlay`). */
  function OverlayClass(item: Json): (r: string)
    ensures r == DefaultOverlay <==> CustomOverlay(item).None?
    ensures CustomOverlay(item).Some? ==> r == CustomOverlay(item).value
  {
    var custom := CustomOverlay(item);
    assert |DefaultOverlay| == 73;
    assert forall k :: k in PostStyles ==> |PostStyles[k]| < 73;
    if custom.None? then DefaultOverlay else custom.value
  }

  /** The date locale: US English for `en`, Simplified Chinese otherwise. */
  function DateLocale(language: string): (r: string)
    ensures r == "en-US" || r == "zh-CN"
    ensures r == "en-US" <==> language == "en"
  {
    if language == "en" then "en-US" else "zh-CN"
  }
}
