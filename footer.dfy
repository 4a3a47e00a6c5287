/** The site footer (src/components/astro/Footer.jsx): whether it renders,
    its social links, the copyright line built from a template, and which
    parts of the registration notice show. The current year, read from the
    clock in the component, is the parameter `currentYear`. */
module Footer {
  import opened Options
  import opened Text
  import opened Json

  const StartYear: string := "2024"

  /** The two placeholders of the template. */
  const StartYearTag: string := "{startYear}"
  const CurrentYearTag: string := "{currentYear}"

  /** The copyright line: `''` for a missing or empty template; otherwise the
      first `{startYear}` becomes 2024 and then the first `{currentYear}`
      becomes the current year. A truthy template that is not a string has
      no `replace` and throws. */
  function Copyright(copyright: Json, currentYear: nat): (r: Result<string>)
    ensures !Truthy(copyright) ==> r == Ok("")
    ensures r.Fail? <==> Truthy(copyright) && !copyright.Str?
  {
    if !Truthy(copyright) then Ok("")
    else if !copyright.Str? then Fail("footer.copyright.replace is not a function")
    else Ok(Fill(copyright.s, currentYear))
  }

  /** The two `replace` calls on a string template; a template without
      either placeholder is left as it is. */
  function Fill(t: string, currentYear: nat): (r: string)
    ensures IndexOf(t, StartYearTag).None? && IndexOf(t, CurrentYearTag).None? ==> r == t
  {
    ReplaceFirst(ReplaceFirst(t, StartYearTag, StartYear), CurrentYearTag, Decimal(currentYear))
  }

  /** A template without placeholders is the copyright line as it is. */
  lemma CopyrightPlain(t: string, currentYear: nat)
    requires t != "" && IndexOf(t, StartYearTag).None? && IndexOf(t, CurrentYearTag).None?
    ensures Copyright(Str(t), currentYear) == Ok(t)
  {
  }

  /** A pattern starting with a character that does not occur in `a` is
      first found right after `a`. */
  lemma FirstAfter(a: string, p: string, rest: string)
    requires p != [] && p[0] !in a
    ensures IndexOf(a + p + rest, p) == Some(|a|)
  {
    var s := a + p + rest;
    assert s[|a|..|a| + |p|] == p;
    assert MatchesAt(s, |a|, p);
    forall k | 0 <= k < |a| ensures !MatchesAt(s, k, p) {
      assert s[k] == a[k];
      if k + |p| <= |s| {
        assert s[k..k + |p|][0] == s[k];
      }
    }
  }

  /** Replacing a pattern whose first character does not occur in `a`
      replaces the occurrence right after `a`. */
  lemma ReplaceAfter(a: string, p: string, rest: string, w: string)
    requires p != [] && p[0] !in a
    ensures ReplaceFirst(a + p + rest, p, w) == a + w + rest
  {
    var s := a + p + rest;
    FirstAfter(a, p, rest);
    assert s[..|a|] == a;
    assert s[|a| + |p|..] == rest;
  }

  /** A pattern whose first character does not occur in `a` is not found
      in `a + t` when it is longer than `t`. */
  lemma NotFound(a: string, t: string, p: string)
    requires p != [] && p[0] !in a && |t| < |p|
    ensures IndexOf(a + t, p).None?
  {
    var s := a + t;
    forall k | 0 <= k ensures !MatchesAt(s, k, p) {
      if k + |p| <= |s| {
        assert s[k..k + |p|][0] == s[k] == a[k];
      }
    }
  }

  /** Two successive first-occurrence replacements, each of a pattern whose
      first character does not occur before it. */
  lemma ReplaceTwice(a: string, p: string, b: string, q: string, c: string, v: string, w: string)
    requires p != [] && q != [] && p[0] !in a && q[0] !in a + v + b
    ensures ReplaceFirst(ReplaceFirst(a + p + b + q + c, p, v), q, w) == a + v + b + w + c
  {
    var rest := b + q + c;
    assert a + p + b + q + c == a + p + rest;
    ReplaceAfter(a, p, rest, v);
    assert a + v + rest == (a + v + b) + q + c;
    ReplaceAfter(a + v + b, q, c, w);
  }

  /** A template with both placeholders, and no brace before them, has the
      first of each filled in; everything after the second placeholder,
      including further placeholders, is kept as it is. */
  lemma CopyrightFills(a: string, b: string, c: string, currentYear: nat)
    requires '{' !in a && '{' !in b
    ensures Copyright(Str(a + StartYearTag + b + CurrentYearTag + c), currentYear) ==
      Ok(a + StartYear + b + Decimal(currentYear) + c)
  {
    var ab := a + StartYear + b;
    assert '{' !in ab by {
      assert ab == a + (StartYear + b);
      assert '{' !in StartYear + b;
    }
    ReplaceTwice(a, StartYearTag, b, CurrentYearTag, c, StartYear, Decimal(currentYear));
  }

  /** Only the first `{startYear}` is filled in: `{startYear}-{startYear}`
      becomes `2024-{startYear}`. */
  lemma CopyrightFirstOnly(currentYear: nat)
    ensures Copyright(Str(StartYearTag + "-" + StartYearTag), currentYear) == Ok(StartYear + "-" + StartYearTag)
  {
    FillFirstOnly(StartYearTag, CurrentYearTag, StartYear, Decimal(currentYear));
  }

  /** With `p` twice and a longer `q` that starts with a character not in
      `y-`, the first `p` becomes `y` and the second stays. */
  lemma FillFirstOnly(p: string, q: string, y: string, w: string)
    requires p != [] && q != [] && |p| < |q| && q[0] !in y + "-"
    ensures ReplaceFirst(ReplaceFirst(p + "-" + p, p, y), q, w) == y + "-" + p
  {
    assert [] + p + ("-" + p) == p + "-" + p;
    ReplaceAfter([], p, "-" + p, y);
    assert [] + y + ("-" + p) == y + "-" + p;
    NotFound(y + "-", p, q);
  }

  /** Which parts of the registration notice show. */
  datatype IcpView = IcpView(icpLink: bool, separator: bool, mpsLink: bool)

  /** `IcpInfo`: nothing for a falsy footer; the ICP link when `icp` has a
      text and a URL, the public-security link likewise for `mps`, and the
      separator when both have a text. */
  function IcpInfo(footer: Json): (r: Option<IcpView>)
    ensures r.None? <==> !Truthy(footer)
    ensures r.Some? ==> (r.value.icpLink <==>
      Truthy(Get(Get(footer, "icp"), "text")) && Truthy(Get(Get(footer, "icp"), "url")))
    ensures r.Some? ==> (r.value.mpsLink <==>
      Truthy(Get(Get(footer, "mps"), "text")) && Truthy(Get(Get(footer, "mps"), "url")))
    ensures r.Some? ==> (r.value.separator <==>
      Truthy(Get(Get(footer, "icp"), "text")) && Truthy(Get(Get(footer, "mps"), "text")))
  {
    if !Truthy(footer) then None
    else
      var icp := Get(footer, "icp");
      var mps := Get(footer, "mps");
      Some(IcpView(
        Truthy(Get(icp, "text")) && Truthy(Get(icp, "url")),
        Truthy(Get(icp, "text")) && Truthy(Get(mps, "text")),
        Truthy(Get(mps, "text")) && Truthy(Get(mps, "url"))))
  }

  /** When both links show, the separator between them shows. */
  lemma SeparatorBetweenLinks(footer: Json)
    requires IcpInfo(footer).Some? && IcpInfo(footer).value.icpLink && IcpInfo(footer).value.mpsLink
    ensures IcpInfo(footer).value.separator
  {
  }

  /** The separator can show with neither link: both texts set, no URLs. */
  lemma SeparatorWithoutLinks()
    ensures var f := Obj(map["icp" := Obj(map["text" := Str("ICP")]), "mps" := Obj(map["text" := Str("MPS")])]);
      IcpInfo(f) == Some(IcpView(false, true, false))
  {
    var icp := Obj(map["text" := Str("ICP")]);
    var mps := Obj(map["text" := Str("MPS")]);
    var f := Obj(map["icp" := icp, "mps" := mps]);
    assert Get(f, "icp") == icp && Get(f, "mps") == mps;
    assert Get(icp, "url") == Undefined && Get(mps, "url") == Undefined;
  }

  /** What the footer renders. */
  datatype FooterView = FooterView(copyright: string, socialLinks: seq<Json>, icp: IcpView)

  /** `Footer`: nothing for a falsy footer, else its copyright line, its social
      links when they are an array (none otherwise) and its notice. */
  function RenderFooter(footer: Json, currentYear: nat): (r: Result<Option<FooterView>>)
    ensures !Truthy(footer) ==> r == Ok(None)
    ensures Truthy(footer) ==> (r.Fail? <==> Copyright(Get(footer, "copyright"), currentYear).Fail?)
    ensures r.Ok? && r.value.Some? ==>
      var v := r.value.value;
      v.copyright == Copyright(Get(footer, "copyright"), currentYear).value &&
      (Get(footer, "socialLinks").Arr? ==> v.socialLinks == Get(footer, "socialLinks").items) &&
      (!Get(footer, "socialLinks").Arr? ==> v.socialLinks == []) &&
      Some(v.icp) == IcpInfo(footer)
  {
    if !Truthy(footer) then Ok(None)
    else
      var copyright := Copyright(Get(footer, "copyright"), currentYear);
      var links := Get(footer, "socialLinks");
      if copyright.Fail? then Fail(copyright.error)
      else Ok(Some(FooterView(copyright.value, if links.Arr? then links.items else [], IcpInfo(footer).value)))
  }
}
