/** Content href normalisation (src/lib/urlUtils.js). An href is a string;
    the falsy href is the empty string. */
module UrlUtils {
  import opened Text

  /** `/^(https?:|mailto:|tel:)/i` on `href || ''`: an external href starts
      with a scheme letter, so never with whitespace or '#'. */
  predicate IsExternalHref(href: string)
    ensures IsExternalHref(href) ==> |href| >= 4 && LowerChar(href[0]) in {'h', 'm', 't'}
  {
    assert forall p :: |p| <= |href| && MatchesAtCI(href, 0, p) && p != [] ==>
      LowerChar(href[0]) == Lower(p)[0] by {
      forall p | |p| <= |href| && MatchesAtCI(href, 0, p) && p != []
        ensures LowerChar(href[0]) == Lower(p)[0]
      {
        assert Lower(href[0..|p|])[0] == LowerChar(href[0]);
      }
    }
    StartsWithCI(href, "http:") || StartsWithCI(href, "https:") ||
    StartsWithCI(href, "mailto:") || StartsWithCI(href, "tel:")
  }

  /** `isHashHref`: the trimmed href starts with '#'. No href is both a hash
      href and an external one. */
  predicate IsHashHref(href: string)
    ensures IsHashHref(href) ==> '#' in href && !IsExternalHref(href)
  {
    if StartsWith(Trim(href), "#") then TrimmedHash(href); true else false
  }

  lemma TrimmedHash(href: string)
    requires StartsWith(Trim(href), "#")
    ensures '#' in href && !IsExternalHref(href)
  {
    var t := Trim(href);
    assert t[..1][0] == '#';
    assert t[0] in href;
  }

  /** Removes one trailing `.html`, in any case. */
  function StripHtmlExtension(v: string): (r: string)
    ensures EndsWithCI(v, ".html") ==> r == v[..|v| - 5]
    ensures !EndsWithCI(v, ".html") ==> r == v
  {
    if EndsWithCI(v, ".html") then v[..|v| - 5] else v
  }

  function DropLeadingSlashes(s: string): (r: string)
    ensures r == [] || r[0] != '/'
    ensures |r| <= |s| && r == s[|s| - |r|..]
    ensures forall k :: 0 <= k < |s| - |r| ==> s[k] == '/'
  {
    if s != [] && s[0] == '/' then DropLeadingSlashes(s[1..]) else s
  }

  function DropTrailingSlashes(s: string): (r: string)
    ensures r == [] || r[|r| - 1] != '/'
    ensures |r| <= |s| && r == s[..|r|]
    ensures forall k :: |r| <= k < |s| ==> s[k] == '/'
  {
    if s != [] && s[|s| - 1] == '/' then DropTrailingSlashes(s[..|s| - 1]) else s
  }

  /** Strips every leading and every trailing '/': what is left once the
      leading run and then the trailing run of slashes are gone. */
  function TrimSlashes(s: string): (r: string)
    ensures r == [] || (r[0] != '/' && r[|r| - 1] != '/')
    ensures r == DropTrailingSlashes(DropLeadingSlashes(s))
    ensures |r| <= |s|
    ensures forall c :: c in r ==> c in s
  {
    var t := DropLeadingSlashes(s);
    var u := DropTrailingSlashes(t);
    assert forall c :: c in u ==> c in t;
    u
  }

  lemma TrimSlashesNoSlashes(s: string)
    requires s == [] || (s[0] != '/' && s[|s| - 1] != '/')
    ensures TrimSlashes(s) == s
  {
    assert DropLeadingSlashes(s) == s;
    assert DropTrailingSlashes(s) == s;
  }

  /** Lower-casing leaves text without ASCII capitals alone. */
  lemma LowerNoCapitals(s: string)
    requires forall k :: 0 <= k < |s| ==> !('A' <= s[k] <= 'Z')
    ensures Lower(s) == s
  {
  }

  /** An href whose first character cannot start a scheme is not external. */
  lemma NotExternal(s: string)
    requires s != [] && LowerChar(s[0]) !in {'h', 'm', 't'}
    ensures !IsExternalHref(s)
  {
    forall p | p in ["http:", "https:", "mailto:", "tel:"] ensures !StartsWithCI(s, p) {
      if |p| <= |s| {
        assert Lower(s[..|p|])[0] == LowerChar(s[0]);
        assert Lower(p)[0] == LowerChar(p[0]);
      }
    }
  }

  lemma EndsWithHtml(s: string)
    requires |s| >= 5 && s[|s| - 5..] == ".html"
    ensures EndsWithCI(s, ".html")
  {
    LowerNoCapitals(".html");
  }

  /** `normalizeSegment(value)`: one `.html` suffix removed, then the
      surrounding whitespace, then the surrounding slashes; '' for an empty
      input and for what is left being empty or 'index' in any case. */
  function NormalizeSegment(v: string): (r: string)
    ensures v == "" ==> r == ""
    ensures v != "" ==> var t := TrimSlashes(Trim(StripHtmlExtension(v)));
      r == (if t == "" || Lower(t) == "index" then "" else t)
    ensures r == [] || (r[0] != '/' && r[|r| - 1] != '/')
    ensures Lower(r) != "index"
    ensures |r| <= |StripHtmlExtension(v)|
    ensures forall c :: c in r ==> c in v
  {
    if v == "" then ""
    else
      var trimmed := TrimSlashes(Trim(StripHtmlExtension(v)));
      if trimmed == "" || Lower(trimmed) == "index" then "" else trimmed
  }

  /** The path a content href points to: '/' for the empty segment, else
      '/' followed by the segment. */
  function PathOf(segment: string): (r: string)
    ensures |r| >= 1 && r[0] == '/'
    ensures segment == "" ==> r == "/"
    ensures segment != "" ==> r[1..] == segment
  {
    if segment != "" then "/" + segment else "/"
  }

  /** normalizeContentPath(href). */
  function NormalizeContentPath(href: string): (r: string)
    ensures href == "" ==> r == "/"
    ensures href != "" && (IsHashHref(href) || IsExternalHref(href)) ==> r == href
  {
    if href == "" then "/"
    else if IsHashHref(href) || IsExternalHref(href) then href
    else PathOf(NormalizeSegment(BeforeChar(href, '#')))
  }

  /** resolveContentHref(href). */
  function ResolveContentHref(href: string): (r: string)
    ensures href == "" ==> r == "/"
    ensures href != "" && (IsHashHref(href) || IsExternalHref(href)) ==> r == href
  {
    if href == "" then "/"
    else if IsHashHref(href) || IsExternalHref(href) then href
    else
      var base := PathOf(NormalizeSegment(BeforeChar(href, '#')));
      var hash := SecondPiece(href, '#');
      if hash != "" then base + "#" + hash else base
  }

  /** An internal href becomes a path: it starts with '/', ends with '/'
      only when it is '/', and holds no '#' (everything from the first '#'
      is dropped). */
  lemma NormalizedPathShape(href: string)
    requires href != "" && !IsHashHref(href) && !IsExternalHref(href)
    ensures var r := NormalizeContentPath(href);
      r[0] == '/' && (r == "/" || r[|r| - 1] != '/') && '#' !in r
  {
    var seg := NormalizeSegment(BeforeChar(href, '#'));
    assert '#' !in seg;
    PathOfShape(seg);
  }

  lemma PathOfShape(seg: string)
    requires seg == [] || seg[|seg| - 1] != '/'
    requires '#' !in seg
    ensures var r := PathOf(seg); r[0] == '/' && (r == "/" || r[|r| - 1] != '/') && '#' !in r
  {
    if seg != "" {
      var r := PathOf(seg);
      assert r == "/" + seg && r[|r| - 1] == seg[|seg| - 1];
      assert forall c :: c in r ==> c == '/' || c in seg;
    }
  }

  /** Both helpers agree on every href without '#'. */
  lemma NormalizeResolveAgree(href: string)
    requires '#' !in href
    ensures ResolveContentHref(href) == NormalizeContentPath(href)
  {
  }

  /** For an internal href, the resolved href is the normalised path, plus
      '#' and the text between the first and the second '#' only when that
      text is non-empty; anything after a second '#' is lost. */
  lemma ResolveExtendsNormalize(href: string)
    requires href != "" && !IsHashHref(href) && !IsExternalHref(href)
    ensures ResolveContentHref(href) ==
      NormalizeContentPath(href) + (if SecondPiece(href, '#') != "" then "#" + SecondPiece(href, '#') else "")
  {
  }

  /** The normalised path is always a prefix of the resolved href. */
  lemma NormalizePrefixOfResolve(href: string)
    ensures StartsWith(ResolveContentHref(href), NormalizeContentPath(href))
  {
    if href != "" && !IsHashHref(href) && !IsExternalHref(href) {
      ResolveExtendsNormalize(href);
      var base := NormalizeContentPath(href);
      assert ResolveContentHref(href)[..|base|] == base;
    }
  }

  /** A normalised path is normalised again to itself, as long as its
      segment neither ends in whitespace nor in '.html'. */
  lemma NormalizeIdempotent(href: string)
    requires var r := NormalizeContentPath(href);
      r == "/" || !(EndsWithCI(r, ".html") || IsWhitespace(r[|r| - 1]))
    ensures NormalizeContentPath(NormalizeContentPath(href)) == NormalizeContentPath(href)
  {
    if href != "" && !IsHashHref(href) && !IsExternalHref(href) {
      var seg := NormalizeSegment(BeforeChar(href, '#'));
      if seg != "" {
        assert NormalizeContentPath(href) == "/" + seg;
        assert '#' !in seg;
        assert ("/" + seg)[|"/" + seg| - 1] == seg[|seg| - 1];
        SegmentPathFixed(seg);
      } else {
        PathOfEmpty();
      }
    } else if href == "" {
      PathOfEmpty();
    }
  }

  /** The path of a normalised segment normalises to itself. */
  lemma SegmentPathFixed(seg: string)
    requires seg != [] && seg[0] != '/' && seg[|seg| - 1] != '/' && '#' !in seg
    requires Lower(seg) != "index"
    requires !EndsWithCI("/" + seg, ".html") && !IsWhitespace(seg[|seg| - 1])
    ensures NormalizeContentPath("/" + seg) == "/" + seg
  {
    var r := "/" + seg;
    assert r[0] == '/' && r[|r| - 1] == seg[|seg| - 1];
    TrimPlain(r);
    NotExternal(r);
    assert !IsHashHref(r) by { assert Trim(r)[..1][0] == '/'; }
    assert '#' !in r;
    assert BeforeChar(r, '#') == r;
    assert StripHtmlExtension(r) == r;
    assert TrimSlashes(r) == seg by {
      assert DropLeadingSlashes(r) == DropLeadingSlashes(r[1..]);
      assert r[1..] == seg;
      TrimSlashesNoSlashes(seg);
    }
    assert NormalizeSegment(r) == seg;
    InternalPath(r, seg);
  }

  /** '/' normalises to itself. */
  lemma PathOfEmpty()
    ensures NormalizeContentPath("/") == "/"
  {
    var r := "/";
    TrimPlain(r);
    NotExternal(r);
    assert BeforeChar(r, '#') == r;
    assert !EndsWithCI(r, ".html");
    assert TrimSlashes(r) == "" by {
      assert DropLeadingSlashes(r) == DropLeadingSlashes(r[1..]);
      assert r[1..] == "";
    }
  }

  /** Normalising twice is not the same as normalising once when the
      normalised path still ends in '.html' (as for 'a.html.html', which
      becomes '/a.html' and then '/a'): only one '.html' comes off per call. */
  lemma NormalizeNotIdempotent(href: string)
    requires href != "" && !IsHashHref(href) && !IsExternalHref(href)
    requires EndsWithCI(NormalizeContentPath(href), ".html")
    ensures NormalizeContentPath(NormalizeContentPath(href)) != NormalizeContentPath(href)
  {
    var seg := NormalizeSegment(BeforeChar(href, '#'));
    assert '#' !in seg;
    assert |".html"| > |"/"|;
    assert NormalizeContentPath(href) == "/" + seg;
    HtmlPathShrinks(seg);
  }

  /** The path of a segment that still ends in '.html' loses at least that
      suffix when normalised. */
  lemma HtmlPathShrinks(seg: string)
    requires seg != [] && seg[0] != '/' && '#' !in seg
    requires EndsWithCI("/" + seg, ".html")
    ensures |NormalizeContentPath("/" + seg)| < |"/" + seg|
  {
    var r := "/" + seg;
    assert r[0] == '/';
    NotExternal(r);
    TrimFirst(r);
    assert !IsHashHref(r) by { assert Trim(r)[..1][0] == '/'; }
    assert '#' !in r;
    assert BeforeChar(r, '#') == r;
    var s := NormalizeSegment(r);
    assert |s| <= |r| - 5;
    InternalPath(r, s);
  }

  /** An href that takes neither early return and has no '#' becomes the
      path of its segment. */
  lemma InternalPath(h: string, seg: string)
    requires h != "" && !IsHashHref(h) && !IsExternalHref(h) && BeforeChar(h, '#') == h
    requires NormalizeSegment(h) == seg
    ensures NormalizeContentPath(h) == PathOf(seg)
  {
  }

  /** An href with no '#' whose first character cannot start a scheme
      takes neither early return. */
  lemma PlainInternal(h: string)
    requires h != [] && '#' !in h && LowerChar(h[0]) !in {'h', 'm', 't'}
    ensures NormalizeContentPath(h) == PathOf(NormalizeSegment(h))
  {
    NotExternal(h);
  }

  /** Any five-character spelling of `.html` is the suffix removed. */
  lemma HtmlSuffix(x: string, e: string)
    requires |e| == 5 && Lower(e) == ".html"
    ensures StripHtmlExtension(x + e) == x
  {
    var s := x + e;
    assert s[|s| - 5..] == e;
    assert s[..|s| - 5] == x;
  }

  /** A page href loses its `.html` and gains a leading '/': for a page
      name `x` with nothing to trim, `x.html` (any case of the extension)
      becomes `/x`. */
  lemma NormalizePageHtml(x: string, e: string)
    requires x != [] && '#' !in x && LowerChar(x[0]) !in {'h', 'm', 't', '#'}
    requires !IsWhitespace(x[0]) && !IsWhitespace(x[|x| - 1])
    requires x[0] != '/' && x[|x| - 1] != '/' && Lower(x) != "index"
    requires |e| == 5 && Lower(e) == ".html" && '#' !in e
    ensures NormalizeContentPath(x + e) == "/" + x
  {
    HtmlSuffix(x, e);
    TrimPlain(x);
    TrimSlashesNoSlashes(x);
    assert NormalizeSegment(x + e) == x;
    assert (x + e)[0] == x[0];
    PlainInternal(x + e);
  }

  /** The home page, spelled in any case, with a leading '/' and its
      extension, is the root. */
  lemma NormalizeIndexPage(x: string, e: string)
    requires |x| == 5 && Lower(x) == "index" && !IsWhitespace(x[4])
    requires |e| == 5 && Lower(e) == ".html" && '#' !in e
    ensures NormalizeContentPath("/" + x + e) == "/"
  {
    var h := "/" + x + e;
    assert '#' !in x by {
      forall k | 0 <= k < 5 ensures x[k] != '#' {
        assert Lower(x)[k] == LowerChar(x[k]);
      }
    }
    assert forall k :: 0 <= k < |h| ==>
      h[k] == (if k == 0 then '/' else if k <= 5 then x[k - 1] else e[k - 6]);
    assert '#' !in h;
    IndexSegment(x, e);
    RootPath(h);
  }

  lemma RootPath(h: string)
    requires h != [] && h[0] == '/' && '#' !in h && NormalizeSegment(h) == ""
    ensures NormalizeContentPath(h) == "/"
  {
    PlainInternal(h);
  }

  lemma IndexSegment(x: string, e: string)
    requires |x| == 5 && Lower(x) == "index" && !IsWhitespace(x[4])
    requires |e| == 5 && Lower(e) == ".html"
    ensures NormalizeSegment("/" + x + e) == ""
  {
    var p := "/" + x;
    var h := p + e;
    assert "/" + x + e == h;
    HtmlSuffix(p, e);
    assert StripHtmlExtension(h) == p;
    assert p[|p| - 1] == x[4];
    TrimPlain(p);
    assert Trim(p) == p;
    assert x[0] != '/' && x[4] != '/' by {
      assert Lower(x)[0] == 'i' && Lower(x)[4] == 'x';
    }
    assert p[1..] == x;
    assert DropLeadingSlashes(p) == x by {
      assert DropLeadingSlashes(x) == x;
    }
    TrimSlashesNoSlashes(x);
    assert TrimSlashes(p) == x;
  }

  /** 'about.html' becomes '/about'. */
  lemma NormalizeAboutHtml(x: string)
    requires x == "about"
    ensures NormalizeContentPath(x + ".html") == "/" + x
  {
    LowerNoCapitals(".html");
    assert Lower(x)[0] == 'a';
    NormalizePageHtml(x, ".html");
  }

  /** '/Index.HTML' becomes '/'. */
  lemma NormalizeIndexHtml(x: string, e: string)
    requires x == "Index" && e == ".HTML"
    ensures NormalizeContentPath("/" + x + e) == "/"
  {
    assert Lower(e) == ".html" by {
      assert LowerChar('H') == 'h' && LowerChar('T') == 't';
      assert LowerChar('M') == 'm' && LowerChar('L') == 'l';
    }
    assert Lower(x) == "index" by { assert LowerChar('I') == 'i'; }
    NormalizeIndexPage(x, e);
  }
}
