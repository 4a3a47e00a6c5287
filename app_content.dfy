/** Merging the remote content of the single-page site (app.js) with its
    built-in defaults. The section merges are those of src/lib/content.js,
    except that a list section is read without `?.`, so a `null` list section
    cannot be merged. The defaults are those of app.js's `DEFAULT_CONTENT`. */
module AppContent {
  import opened Options
  import opened Json
  import opened SiteContent

  /** `mergeListSection(section, fallback)` of app.js: `section.items` throws
      when the section is `null`, and `fallback.items` when the section's items
      are not an array and the fallback is `null`; otherwise it is the shared
      list merge. */
  function AppListSection(section: Json, fallback: Json): (r: Result<Json>)
    ensures r.Fail? <==> section.Null? || (fallback.Null? && !Get(section, "items").Arr?)
    ensures r.Ok? ==> (r.value.Obj? &&
      r.value.fields.Keys == OwnEntries(fallback).Keys + OwnEntries(section).Keys + {"items"})
    ensures r.Ok? ==> r.value.fields["items"] == ArrayOr(Get(section, "items"), Get(fallback, "items"))
    ensures r.Ok? ==> forall k :: k != "items" && k in OwnEntries(section) ==> r.value.fields[k] == OwnEntries(section)[k]
    ensures r.Ok? ==> forall k :: k != "items" && k in OwnEntries(fallback) && k !in OwnEntries(section) ==>
      r.value.fields[k] == OwnEntries(fallback)[k]
  {
    if section.Null? || (fallback.Null? && !Get(section, "items").Arr?) then
      Fail("Cannot read properties of null (reading 'items')")
    else Ok(MergeListSection(section, fallback))
  }

  /** An object with exactly the six keys of the single-page content. */
  function AppRecord(site: Json, header: Json, hero: Json, portfolio: Json, featuredPosts: Json, footer: Json): (r: Json)
    ensures r.Obj? && r.fields.Keys == {"site", "header", "hero", "portfolio", "featuredPosts", "footer"}
    ensures r.fields["site"] == site && r.fields["header"] == header && r.fields["hero"] == hero
    ensures r.fields["portfolio"] == portfolio && r.fields["featuredPosts"] == featuredPosts
    ensures r.fields["footer"] == footer
  {
    Obj(map["site" := site, "header" := header, "hero" := hero, "portfolio" := portfolio,
      "featuredPosts" := featuredPosts, "footer" := footer])
  }

  /** The parts of the defaults that app.js reads without `?.`, whatever the
      data; its own `DEFAULT_CONTENT` has all of them. */
  predicate AppDereferenceable(fb: Json) {
    !Get(fb, "portfolio").Null? &&
    !Nullish(Get(fb, "featuredPosts")) && !Nullish(Get(fb, "footer"))
  }

  /** `mergeContent(data)` of app.js against the defaults `fb`. A `null` data
      object, and a `null` `portfolio` or `featuredPosts`, cannot be read;
      `undefined` data means `{}`. */
  function MergeAppWith(data: Json, fb: Json): (r: Result<Json>)
    requires AppDereferenceable(fb)
    ensures r.Fail? <==> data.Null? || Get(data, "portfolio").Null? || Get(data, "featuredPosts").Null?
    ensures r.Ok? ==> (r.value.Obj? &&
      r.value.fields.Keys == {"site", "header", "hero", "portfolio", "featuredPosts", "footer"})
    ensures r.Ok? ==> r.value.fields["site"] == MergeSection(Get(data, "site"), Get(fb, "site"))
    ensures r.Ok? ==> r.value.fields["header"] == MergeSection(Get(data, "header"), Get(fb, "header"))
    ensures r.Ok? ==> r.value.fields["hero"] == MergeSection(Get(data, "hero"), Get(fb, "hero"))
    ensures r.Ok? ==> (r.value.fields["portfolio"] ==
      MergeListSection(Get(data, "portfolio"), Get(fb, "portfolio")))
    ensures r.Ok? ==> (r.value.fields["featuredPosts"] ==
      MergeFeaturedPosts(Get(data, "featuredPosts"), Get(fb, "featuredPosts")))
    ensures r.Ok? ==> r.value.fields["footer"] == MergeFooter(Get(data, "footer"), Get(fb, "footer"))
  {
    if data.Null? then Fail("Cannot read properties of null (reading 'site')")
    else
      var portfolio := AppListSection(Get(data, "portfolio"), Get(fb, "portfolio"));
      var posts := AppListSection(Get(data, "featuredPosts"), Get(fb, "featuredPosts"));
      if portfolio.Fail? then portfolio
      else if posts.Fail? then posts
      else
        Ok(AppRecord(
          MergeSection(Get(data, "site"), Get(fb, "site")),
          MergeSection(Get(data, "header"), Get(fb, "header")),
          MergeSection(Get(data, "hero"), Get(fb, "hero")),
          portfolio.value,
          MergeFeaturedPosts(Get(data, "featuredPosts"), Get(fb, "featuredPosts")),
          MergeFooter(Get(data, "footer"), Get(fb, "footer"))))
  }

  /** `site`, `header` and `hero` keep every default key and let the data's
      keys override it. */
  lemma PlainSectionsMerge(data: Json, fb: Json, s: string, k: string)
    requires s == "site" || s == "header" || s == "hero"
    requires AppDereferenceable(fb)
    requires !data.Null? && !Get(data, "portfolio").Null? && !Get(data, "featuredPosts").Null?
    requires Get(fb, s).Obj? && k in Get(fb, s).fields
    ensures MergeAppWith(data, fb).Ok?
    ensures var section := MergeAppWith(data, fb).value.fields[s];
      section.Obj? && k in section.fields &&
      section.fields[k] == (if k in OwnEntries(Get(data, s)) then OwnEntries(Get(data, s))[k] else Get(fb, s).fields[k])
  {
  }

  /** A fallback that merging `{}` into reproduces exactly. */
  predicate AppClosed(fb: Json) {
    fb.Obj? &&
    fb.fields.Keys == {"site", "header", "hero", "portfolio", "featuredPosts", "footer"} &&
    IsObj(fb.fields["site"]) && IsObj(fb.fields["header"]) && IsObj(fb.fields["hero"]) &&
    ListObj(fb.fields["portfolio"]) &&
    ListObj(fb.fields["featuredPosts"]) && FeaturedPostsKeys <= fb.fields["featuredPosts"].fields.Keys &&
    IsObj(fb.fields["footer"]) && "socialLinks" in fb.fields["footer"].fields
  }

  /** Merging nothing into a closed fallback gives the fallback back. */
  lemma MergeAppNothing(data: Json, fb: Json)
    requires data.Undefined? || data == Obj(map[])
    requires AppClosed(fb)
    ensures AppDereferenceable(fb)
    ensures MergeAppWith(data, fb) == Ok(fb)
  {
    var f := fb.fields;
    assert forall k :: Get(data, k) == Undefined;
    assert forall k :: k in f ==> Get(fb, k) == f[k];
    ListSectionOfNothing(f["portfolio"]);
    FeaturedPostsOfNothing(f["featuredPosts"]);
    FooterOfNothing(f["footer"]);
    AppRecordOfFields(fb);
  }

  /** A single-page content object is the record of its own six sections. */
  lemma AppRecordOfFields(fb: Json)
    requires fb.Obj? && fb.fields.Keys == {"site", "header", "hero", "portfolio", "featuredPosts", "footer"}
    ensures AppRecord(fb.fields["site"], fb.fields["header"], fb.fields["hero"], fb.fields["portfolio"],
      fb.fields["featuredPosts"], fb.fields["footer"]) == fb
  {
    var r := AppRecord(fb.fields["site"], fb.fields["header"], fb.fields["hero"], fb.fields["portfolio"],
      fb.fields["featuredPosts"], fb.fields["footer"]);
    assert forall k :: k in r.fields ==> r.fields[k] == fb.fields[k];
    assert r.fields == fb.fields;
  }

  /** A `null` list section stops app.js but not src/lib/content.js, which
      reads it with `?.`. */
  lemma NullListSectionDiffers(data: Json, fb: Json, siteFb: Json)
    requires !data.Null? && Get(data, "featuredPosts").Null?
    requires AppDereferenceable(fb) && Dereferenceable(siteFb)
    ensures MergeAppWith(data, fb).Fail?
    ensures MergeSingleContent(data, siteFb).Ok?
  {
  }

  /** The `DEFAULT_CONTENT` of app.js. Its `site`, `header`, `featuredPosts`
      and `footer` equal those of src/lib/content.js. */
  const AppDefaultHero: Json := Obj(map[
    "subtitle" := S("WENJIE XU"),
    "title" := S("保持好奇 也保持自在"),
    "description" := S("Join us and witness every step as a one-person company grows from chaos to clarity — with <span class=\"underline\">MDFriday</span> as the engine behind it.")])

  const AppDefaultPortfolio: Json := Obj(map["title" := S("Portfolio"), "items" := Arr([])])

  const AppDefault: Json := AppRecord(DefaultSite, DefaultHeader, AppDefaultHero, AppDefaultPortfolio,
    DefaultFeaturedPosts, DefaultFooter)

  lemma AppDefaultClosed()
    ensures AppClosed(AppDefault)
  {
    assert ListObj(DefaultFeaturedPosts) && FeaturedPostsKeys <= DefaultFeaturedPosts.fields.Keys;
  }

  /** `mergeContent(data)` of app.js. */
  function MergeApp(data: Json): (r: Result<Json>)
    ensures r.Fail? <==> data.Null? || Get(data, "portfolio").Null? || Get(data, "featuredPosts").Null?
    ensures r.Ok? ==> (r.value.Obj? &&
      r.value.fields.Keys == {"site", "header", "hero", "portfolio", "featuredPosts", "footer"})
  {
    AppDefaultClosed();
    assert Get(AppDefault, "portfolio") == AppDefaultPortfolio;
    MergeAppWith(data, AppDefault)
  }

  /** `mergeContent()` and `mergeContent({})` return `DEFAULT_CONTENT`. */
  lemma MergeAppDefaults(data: Json)
    requires data.Undefined? || data == Obj(map[])
    ensures MergeApp(data) == Ok(AppDefault)
  {
    AppDefaultClosed();
    MergeAppNothing(data, AppDefault);
  }
}
