/** Merging the remote site content with the built-in defaults
    (src/lib/content.js). Sections are merged one level deep with object
    spread; lists come from the data only when they are arrays. */
module SiteContent {
  import opened Options
  import opened Json

  /** `Array.isArray(v) ? v : fallback` */
  function ArrayOr(v: Json, fallback: Json): (r: Json)
    ensures v.Arr? ==> r == v
    ensures !v.Arr? ==> r == fallback
  {
    if v.Arr? then v else fallback
  }

  /** `mergeSection(section, fallback)`: `{...fallback, ...section}`. A missing
      section defaults to `{}`; spreading `null` copies nothing. */
  function MergeSection(section: Json, fallback: Json): (r: Json)
    ensures r.Obj?
    ensures r.fields.Keys == OwnEntries(fallback).Keys + OwnEntries(section).Keys
    ensures forall k :: k in OwnEntries(section) ==> r.fields[k] == OwnEntries(section)[k]
    ensures forall k :: k in OwnEntries(fallback) && k !in OwnEntries(section) ==>
      r.fields[k] == OwnEntries(fallback)[k]
    ensures Nullish(section) && fallback.Obj? ==> r == fallback
    ensures section.Obj? && fallback.Obj? ==> r.fields == fallback.fields + section.fields
  {
    Obj(Spread(fallback, section))
  }

  /** `mergeListSection(section, fallback)`: the merged section whose `items`
      are the section's only when those are an array. Otherwise
      `fallback.items` is read, which throws on a `null` fallback. */
  function MergeListSection(section: Json, fallback: Json): (r: Json)
    requires Get(section, "items").Arr? || !fallback.Null?
    ensures r.Obj? && r.fields.Keys == OwnEntries(fallback).Keys + OwnEntries(section).Keys + {"items"}
    ensures r.fields["items"] == ArrayOr(Get(section, "items"), Get(fallback, "items"))
    ensures forall k :: k != "items" && k in OwnEntries(section) ==> r.fields[k] == OwnEntries(section)[k]
    ensures forall k :: k != "items" && k in OwnEntries(fallback) && k !in OwnEntries(section) ==>
      r.fields[k] == OwnEntries(fallback)[k]
  {
    Obj(MergeSection(section, fallback).fields["items" := ArrayOr(Get(section, "items"), Get(fallback, "items"))])
  }

  /** The parts of a fallback that `mergeSingleContent` dereferences without
      `?.`, whatever the data: the sections read as `fallback.a.b` are not
      nullish, and the list sections whose `items` may be read are not
      `null`. The built-in defaults have all of them. */
  predicate Dereferenceable(fallback: Json) {
    !Nullish(fallback) && !Get(fallback, "websites").Null? &&
    !Nullish(Get(fallback, "featuredPosts")) && !Nullish(Get(fallback, "footer")) &&
    AboutDereferenceable(Get(fallback, "about")) && ContactDereferenceable(Get(fallback, "contact"))
  }

  predicate AboutDereferenceable(about: Json) {
    !Nullish(about) && !Get(about, "timeline").Null? && !Nullish(Get(about, "values"))
  }

  predicate ContactDereferenceable(contact: Json) {
    !Nullish(contact) && !Nullish(Get(contact, "cards")) &&
    !Get(Get(contact, "cards"), "social").Null? && !Get(contact, "services").Null?
  }

  /** `data.a?.b`, `data.a?.b?.c` */
  function Path2(v: Json, a: string, b: string): Json {
    Get(Get(v, a), b)
  }

  function Path3(v: Json, a: string, b: string, c: string): Json {
    Get(Get(Get(v, a), b), c)
  }

  const FeaturedPostsKeys: set<string> := {"seeAllText", "seeAllUrl"}

  /** The merged `featuredPosts`: a list section whose `seeAllText` and
      `seeAllUrl` fall back only when the data's are null or undefined (the
      fallback's are then read without `?.`); every other key is that of the
      list merge. */
  function MergeFeaturedPosts(section: Json, fallback: Json): (r: Json)
    requires Get(section, "items").Arr? || !fallback.Null?
    requires !Nullish(fallback) ||
      (!Nullish(Get(section, "seeAllText")) && !Nullish(Get(section, "seeAllUrl")))
    ensures r.Obj? && r.fields.Keys == MergeListSection(section, fallback).fields.Keys + FeaturedPostsKeys
    ensures r.fields["items"] == ArrayOr(Get(section, "items"), Get(fallback, "items"))
    ensures r.fields["seeAllText"] == Coalesce(Get(section, "seeAllText"), Get(fallback, "seeAllText"))
    ensures r.fields["seeAllUrl"] == Coalesce(Get(section, "seeAllUrl"), Get(fallback, "seeAllUrl"))
    ensures forall k :: k !in FeaturedPostsKeys && k in r.fields ==>
      r.fields[k] == MergeListSection(section, fallback).fields[k]
  {
    Obj(MergeListSection(section, fallback).fields
      ["seeAllText" := Coalesce(Get(section, "seeAllText"), Get(fallback, "seeAllText"))]
      ["seeAllUrl" := Coalesce(Get(section, "seeAllUrl"), Get(fallback, "seeAllUrl"))])
  }

  /** The merged `footer`: `socialLinks` come from the data only as an array
      (else from the fallback, read without `?.`); every other key is that of
      the plain merge. */
  function MergeFooter(section: Json, fallback: Json): (r: Json)
    requires Get(section, "socialLinks").Arr? || !Nullish(fallback)
    ensures r.Obj? && "socialLinks" in r.fields
    ensures r.fields["socialLinks"] == ArrayOr(Get(section, "socialLinks"), Get(fallback, "socialLinks"))
    ensures r.fields.Keys == MergeSection(section, fallback).fields.Keys + {"socialLinks"}
    ensures forall k :: k != "socialLinks" && k in r.fields ==>
      r.fields[k] == MergeSection(section, fallback).fields[k]
  {
    Obj(MergeSection(section, fallback).fields
      ["socialLinks" := ArrayOr(Get(section, "socialLinks"), Get(fallback, "socialLinks"))])
  }

  /** The merged `about.values`: a list section whose `product` is itself
      merged (the fallback's `product` is read without `?.`). */
  function MergeValues(section: Json, fallback: Json): (r: Json)
    requires !Nullish(fallback)
    ensures r.Obj? && r.fields.Keys == MergeListSection(section, fallback).fields.Keys + {"product"}
    ensures r.fields["product"] == MergeSection(Get(section, "product"), Get(fallback, "product"))
    ensures r.fields["items"] == ArrayOr(Get(section, "items"), Get(fallback, "items"))
    ensures forall k :: k != "product" && k in r.fields ==>
      r.fields[k] == MergeListSection(section, fallback).fields[k]
  {
    Obj(MergeListSection(section, fallback).fields
      ["product" := MergeSection(Get(section, "product"), Get(fallback, "product"))])
  }

  /** An object with exactly the keys of `about`. */
  function AboutRecord(hero: Json, timeline: Json, values: Json, philosophy: Json): (r: Json)
    ensures r.Obj? && r.fields.Keys == {"hero", "timeline", "values", "philosophy"}
    ensures r.fields["hero"] == hero && r.fields["timeline"] == timeline
    ensures r.fields["values"] == values && r.fields["philosophy"] == philosophy
  {
    Obj(map["hero" := hero, "timeline" := timeline, "values" := values, "philosophy" := philosophy])
  }

  /** An object with exactly the keys of `contact`. */
  function ContactRecord(hero: Json, cards: Json, form: Json, services: Json): (r: Json)
    ensures r.Obj? && r.fields.Keys == {"hero", "cards", "form", "services"}
    ensures r.fields["hero"] == hero && r.fields["cards"] == cards
    ensures r.fields["form"] == form && r.fields["services"] == services
  {
    Obj(map["hero" := hero, "cards" := cards, "form" := form, "services" := services])
  }

  /** An object with exactly the keys of `contact.cards`. */
  function CardsRecord(email: Json, social: Json): (r: Json)
    ensures r.Obj? && r.fields.Keys == {"email", "social"}
    ensures r.fields["email"] == email && r.fields["social"] == social
  {
    Obj(map["email" := email, "social" := social])
  }

  /** The merged `about`: exactly its four sections, each merged with the
      fallback's. */
  function MergeAbout(section: Json, fallback: Json): (r: Json)
    requires AboutDereferenceable(fallback)
    ensures r.Obj? && r.fields.Keys == {"hero", "timeline", "values", "philosophy"}
    ensures r.fields["hero"] == MergeSection(Get(section, "hero"), Get(fallback, "hero"))
    ensures r.fields["timeline"] == MergeListSection(Get(section, "timeline"), Get(fallback, "timeline"))
    ensures r.fields["values"] == MergeValues(Get(section, "values"), Get(fallback, "values"))
    ensures r.fields["philosophy"] == MergeSection(Get(section, "philosophy"), Get(fallback, "philosophy"))
  {
    AboutRecord(
      MergeSection(Get(section, "hero"), Get(fallback, "hero")),
      MergeListSection(Get(section, "timeline"), Get(fallback, "timeline")),
      MergeValues(Get(section, "values"), Get(fallback, "values")),
      MergeSection(Get(section, "philosophy"), Get(fallback, "philosophy")))
  }

  /** The merged `contact`: exactly its four sections, `cards` exactly its
      two, each merged with the fallback's. */
  function MergeContact(section: Json, fallback: Json): (r: Json)
    requires ContactDereferenceable(fallback)
    ensures r.Obj? && r.fields.Keys == {"hero", "cards", "form", "services"}
    ensures r.fields["hero"] == MergeSection(Get(section, "hero"), Get(fallback, "hero"))
    ensures r.fields["form"] == MergeSection(Get(section, "form"), Get(fallback, "form"))
    ensures r.fields["services"] == MergeListSection(Get(section, "services"), Get(fallback, "services"))
    ensures r.fields["cards"].Obj? && r.fields["cards"].fields.Keys == {"email", "social"}
    ensures r.fields["cards"].fields["email"] ==
      MergeSection(Path2(section, "cards", "email"), Path2(fallback, "cards", "email"))
    ensures r.fields["cards"].fields["social"] ==
      MergeListSection(Path2(section, "cards", "social"), Path2(fallback, "cards", "social"))
  {
    var cards := Get(section, "cards");
    var fCards := Get(fallback, "cards");
    ContactRecord(
      MergeSection(Get(section, "hero"), Get(fallback, "hero")),
      CardsRecord(
        MergeSection(Get(cards, "email"), Get(fCards, "email")),
        MergeListSection(Get(cards, "social"), Get(fCards, "social"))),
      MergeSection(Get(section, "form"), Get(fallback, "form")),
      MergeListSection(Get(section, "services"), Get(fallback, "services")))
  }

  /** An object with exactly the keys of one language's content. */
  function ContentRecord(site: Json, nav: Json, header: Json, hero: Json, websites: Json,
                         featuredPosts: Json, footer: Json, about: Json, contact: Json): (r: Json)
    ensures r.Obj? && r.fields.Keys ==
      {"site", "nav", "header", "hero", "websites", "featuredPosts", "footer", "about", "contact"}
    ensures r.fields["site"] == site && r.fields["nav"] == nav && r.fields["header"] == header
    ensures r.fields["hero"] == hero && r.fields["websites"] == websites
    ensures r.fields["featuredPosts"] == featuredPosts && r.fields["footer"] == footer
    ensures r.fields["about"] == about && r.fields["contact"] == contact
  {
    Obj(map["site" := site, "nav" := nav, "header" := header, "hero" := hero, "websites" := websites,
      "featuredPosts" := featuredPosts, "footer" := footer, "about" := about, "contact" := contact])
  }

  /** `mergeSingleContent(data, fallback)`. A `null` data object cannot be
      read (`data.site` throws); `undefined` means `{}`. */
  function MergeSingleContent(data: Json, fallback: Json): (r: Result<Json>)
    requires Dereferenceable(fallback)
    ensures r.Fail? <==> data.Null?
    ensures r.Ok? ==> (r.value.Obj? && r.value.fields.Keys ==
      {"site", "nav", "header", "hero", "websites", "featuredPosts", "footer", "about", "contact"})
    ensures r.Ok? ==> r.value.fields["nav"] == ArrayOr(Get(data, "nav"), Get(fallback, "nav"))
    ensures r.Ok? ==> r.value.fields["site"] == MergeSection(Get(data, "site"), Get(fallback, "site"))
    ensures r.Ok? ==> r.value.fields["header"] == MergeSection(Get(data, "header"), Get(fallback, "header"))
    ensures r.Ok? ==> r.value.fields["hero"] == MergeSection(Get(data, "hero"), Get(fallback, "hero"))
    ensures r.Ok? ==> (r.value.fields["websites"] ==
      MergeListSection(Get(data, "websites"), Get(fallback, "websites")))
    ensures r.Ok? ==> (r.value.fields["featuredPosts"] ==
      MergeFeaturedPosts(Get(data, "featuredPosts"), Get(fallback, "featuredPosts")))
    ensures r.Ok? ==> r.value.fields["footer"] == MergeFooter(Get(data, "footer"), Get(fallback, "footer"))
    ensures r.Ok? ==> r.value.fields["about"] == MergeAbout(Get(data, "about"), Get(fallback, "about"))
    ensures r.Ok? ==> r.value.fields["contact"] == MergeContact(Get(data, "contact"), Get(fallback, "contact"))
  {
    if data.Null? then Fail("Cannot read properties of null (reading 'site')")
    else
      Ok(ContentRecord(
        MergeSection(Get(data, "site"), Get(fallback, "site")),
        ArrayOr(Get(data, "nav"), Get(fallback, "nav")),
        MergeSection(Get(data, "header"), Get(fallback, "header")),
        MergeSection(Get(data, "hero"), Get(fallback, "hero")),
        MergeListSection(Get(data, "websites"), Get(fallback, "websites")),
        MergeFeaturedPosts(Get(data, "featuredPosts"), Get(fallback, "featuredPosts")),
        MergeFooter(Get(data, "footer"), Get(fallback, "footer")),
        MergeAbout(Get(data, "about"), Get(fallback, "about")),
        MergeContact(Get(data, "contact"), Get(fallback, "contact"))))
  }

  /** Merging is shallow: a nested object of the data, such as `site.favicon`,
      replaces the default one wholesale. */
  lemma ShallowSiteMerge(data: Json, fallback: Json, k: string)
    requires Dereferenceable(fallback)
    requires Get(data, "site").Obj? && k in Get(data, "site").fields
    ensures MergeSingleContent(data, fallback).Ok?
    ensures Path2(MergeSingleContent(data, fallback).value, "site", k) == Path2(data, "site", k)
  {
  }

  /** `about.values.product` is the one section merged a level deeper: a
      product key that the data's product does not have keeps its default. */
  lemma ProductMergedDeeper(values: Json, fallbackValues: Json, k: string)
    requires Get(fallbackValues, "product").Obj? && k in Get(fallbackValues, "product").fields
    requires k !in OwnEntries(Get(values, "product"))
    ensures var product := MergeValues(values, fallbackValues).fields["product"];
      product.Obj? && k in product.fields && product.fields[k] == Get(fallbackValues, "product").fields[k]
  {
  }

  predicate IsObj(v: Json) { v.Obj? }

  predicate ListObj(v: Json) { v.Obj? && "items" in v.fields }

  /** A fallback that merging `{}` into reproduces exactly: it has the keys
      `mergeSingleContent` builds and no others where it rebuilds an object,
      and the keys it re-sets. */
  predicate Closed(fb: Json) {
    fb.Obj? &&
    fb.fields.Keys == {"site", "nav", "header", "hero", "websites", "featuredPosts", "footer", "about", "contact"} &&
    IsObj(fb.fields["site"]) && IsObj(fb.fields["header"]) && IsObj(fb.fields["hero"]) &&
    ListObj(fb.fields["websites"]) &&
    ListObj(fb.fields["featuredPosts"]) &&
    FeaturedPostsKeys <= fb.fields["featuredPosts"].fields.Keys &&
    IsObj(fb.fields["footer"]) && "socialLinks" in fb.fields["footer"].fields &&
    ClosedAbout(fb.fields["about"]) && ClosedContact(fb.fields["contact"])
  }

  predicate ClosedAbout(a: Json) {
    a.Obj? && a.fields.Keys == {"hero", "timeline", "values", "philosophy"} &&
    IsObj(a.fields["hero"]) && ListObj(a.fields["timeline"]) &&
    ListObj(a.fields["values"]) && "product" in a.fields["values"].fields &&
    IsObj(a.fields["values"].fields["product"]) && IsObj(a.fields["philosophy"])
  }

  predicate ClosedContact(c: Json) {
    c.Obj? && c.fields.Keys == {"hero", "cards", "form", "services"} &&
    IsObj(c.fields["hero"]) && IsObj(c.fields["form"]) && ListObj(c.fields["services"]) &&
    c.fields["cards"].Obj? && c.fields["cards"].fields.Keys == {"email", "social"} &&
    IsObj(c.fields["cards"].fields["email"]) && ListObj(c.fields["cards"].fields["social"])
  }

  lemma ListSectionOfNothing(fb: Json)
    requires ListObj(fb)
    ensures MergeListSection(Undefined, fb) == fb
  {
    assert MergeListSection(Undefined, fb).fields == fb.fields;
  }

  lemma AboutOfNothing(a: Json)
    requires ClosedAbout(a)
    ensures MergeAbout(Undefined, a) == a
  {
    var v := a.fields["values"];
    ListSectionOfNothing(v);
    ListSectionOfNothing(a.fields["timeline"]);
    assert MergeValues(Undefined, v).fields == v.fields;
    assert MergeAbout(Undefined, a).fields == a.fields;
  }

  lemma ContactOfNothing(c: Json)
    requires ClosedContact(c)
    ensures MergeContact(Undefined, c) == c
  {
    var cards := c.fields["cards"];
    ListSectionOfNothing(c.fields["services"]);
    ListSectionOfNothing(cards.fields["social"]);
    assert MergeContact(Undefined, c).fields["cards"].fields == cards.fields;
    assert MergeContact(Undefined, c).fields == c.fields;
  }

  lemma FeaturedPostsOfNothing(fp: Json)
    requires ListObj(fp) && FeaturedPostsKeys <= fp.fields.Keys
    ensures MergeFeaturedPosts(Undefined, fp) == fp
  {
    ListSectionOfNothing(fp);
    assert MergeFeaturedPosts(Undefined, fp).fields == fp.fields;
  }

  lemma FooterOfNothing(f: Json)
    requires IsObj(f) && "socialLinks" in f.fields
    ensures MergeFooter(Undefined, f) == f
  {
    assert MergeFooter(Undefined, f).fields == f.fields;
  }

  /** A content object is the record of its own nine sections. */
  lemma ContentRecordOfFields(fb: Json)
    requires fb.Obj? &&
      fb.fields.Keys == {"site", "nav", "header", "hero", "websites", "featuredPosts", "footer", "about", "contact"}
    ensures ContentRecord(fb.fields["site"], fb.fields["nav"], fb.fields["header"], fb.fields["hero"],
      fb.fields["websites"], fb.fields["featuredPosts"], fb.fields["footer"], fb.fields["about"],
      fb.fields["contact"]) == fb
  {
    var r := ContentRecord(fb.fields["site"], fb.fields["nav"], fb.fields["header"], fb.fields["hero"],
      fb.fields["websites"], fb.fields["featuredPosts"], fb.fields["footer"], fb.fields["about"],
      fb.fields["contact"]);
    assert forall k :: k in r.fields ==> r.fields[k] == fb.fields[k];
    assert r.fields == fb.fields;
  }

  lemma ClosedDereferenceable(fb: Json)
    requires Closed(fb)
    ensures Dereferenceable(fb)
  {
    assert Get(fb, "about") == fb.fields["about"];
    assert Get(fb, "contact") == fb.fields["contact"];
  }

  /** Merging nothing into a closed fallback gives the fallback back. */
  lemma MergeNothing(data: Json, fb: Json)
    requires data.Undefined? || data == Obj(map[])
    requires Closed(fb)
    ensures Dereferenceable(fb)
    ensures MergeSingleContent(data, fb) == Ok(fb)
  {
    ClosedDereferenceable(fb);
    EmptyDataIsUndefined(data, fb);
    SectionsOfNothing(fb);
    ContentRecordOfFields(fb);
  }

  /** `{}` and `undefined` data read the same. */
  lemma EmptyDataIsUndefined(data: Json, fb: Json)
    requires data.Undefined? || data == Obj(map[])
    requires Dereferenceable(fb)
    ensures MergeSingleContent(data, fb) == MergeSingleContent(Undefined, fb)
  {
    assert forall k :: Get(data, k) == Undefined;
  }

  /** Each section of a closed fallback survives a merge with nothing. */
  lemma SectionsOfNothing(fb: Json)
    requires Closed(fb)
    ensures Dereferenceable(fb)
    ensures MergeSingleContent(Undefined, fb) == Ok(ContentRecord(fb.fields["site"], fb.fields["nav"],
      fb.fields["header"], fb.fields["hero"], fb.fields["websites"], fb.fields["featuredPosts"],
      fb.fields["footer"], fb.fields["about"], fb.fields["contact"]))
  {
    ClosedDereferenceable(fb);
    var f := fb.fields;
    assert MergeSection(Undefined, f["site"]) == f["site"];
    assert MergeSection(Undefined, f["header"]) == f["header"];
    assert MergeSection(Undefined, f["hero"]) == f["hero"];
    AboutOfNothing(f["about"]);
    ContactOfNothing(f["contact"]);
    FeaturedPostsOfNothing(f["featuredPosts"]);
    FooterOfNothing(f["footer"]);
    ListSectionOfNothing(f["websites"]);
  }

  function S(s: string): Json { Str(s) }

  /** The sections of `DEFAULT_CONTENT_SINGLE`. */
  const DefaultSite: Json := Obj(map[
    "title" := S("Wenjie Xu - Personal Website"),
    "author" := S("徐文杰"),
    "favicon" := Obj(map["ico" := S("favicon.ico"), "appleTouchIcon" := S("apple-touch-icon.png")])])

  const DefaultNav: Json := Arr([
    Obj(map["label" := S("首页"), "href" := S("index.html")]),
    Obj(map["label" := S("关于"), "href" := S("about.html")]),
    Obj(map["label" := S("联系"), "href" := S("contact.html")])])

  const DefaultHeader: Json := Obj(map[
    "avatar" := S("https://picsum.photos/seed/avatar123/50/50.jpg"),
    "name" := S("徐文杰")])

  const DefaultHero: Json := Obj(map[
    "subtitle" := S("WENJIE XU"),
    "title" := S("保持好奇 也保持自在"),
    "description" := S("Collaborating with diverse people is something I truly enjoy.<br />If you want to <a href=\"mailto:wenjie.xu.cn@outlook.com\" class=\"underline\">contact me</a>, I'll be happy to connect!")])

  const DefaultWebsites: Json := Obj(map["title" := S("Websites"), "items" := Arr([])])

  const DefaultFeaturedPosts: Json := Obj(map[
    "title" := S("Featured Posts"), "items" := Arr([]),
    "seeAllText" := S("See All Posts"), "seeAllUrl" := S("#")])

  const DefaultFooter: Json := Obj(map["copyright" := S("© 2025 All Rights Reserved."), "socialLinks" := Arr([])])

  const DefaultAbout: Json := AboutRecord(
    Obj(map["subtitle" := S("STORY"), "title" := S("About Me"), "description" := S("My Story")]),
    Obj(map["subtitle" := S("TIMELINE"), "title" := S("Timeline"), "period" := S("2015 - Now"), "items" := Arr([])]),
    Obj(map[
      "subtitle" := S("VALUES"), "title" := S("Values"), "items" := Arr([]),
      "product" := Obj(map[
        "subtitle" := S("Product"), "title" := S("Product Title"),
        "description" := S("Product Description"), "linkText" := S("Link"), "linkUrl" := S("#")])]),
    Obj(map[
      "subtitle" := S("PHILOSOPHY"), "title" := S("Philosophy"),
      "description" := S("Philosophy Description"), "ctaText" := S("Contact"), "ctaUrl" := S("contact.html")]))

  const DefaultContact: Json := ContactRecord(
    Obj(map["subtitle" := S("CONTACT"), "title" := S("Contact Me"), "description" := S("Get in touch")]),
    CardsRecord(
      Obj(map["subtitle" := S("EMAIL"), "address" := S("email@example.com"), "note" := S("Note")]),
      Obj(map["subtitle" := S("SOCIAL"), "items" := Arr([])])),
    Obj(map["subtitle" := S("FORM"), "title" := S("Form Title"), "note" := S("Note")]),
    Obj(map["items" := Arr([])]))

  /** `DEFAULT_CONTENT_SINGLE` */
  const DefaultContentSingle: Json := ContentRecord(DefaultSite, DefaultNav, DefaultHeader, DefaultHero,
    DefaultWebsites, DefaultFeaturedPosts, DefaultFooter, DefaultAbout, DefaultContact)

  /** An object with exactly the two language keys. */
  function LanguagesRecord(zh: Json, en: Json): (r: Json)
    ensures r.Obj? && r.fields.Keys == {"zh", "en"}
    ensures r.fields["zh"] == zh && r.fields["en"] == en
  {
    Obj(map["zh" := zh, "en" := en])
  }

  /** `DEFAULT_CONTENT`: the same defaults for both languages. */
  const DefaultContent: Json := LanguagesRecord(DefaultContentSingle, DefaultContentSingle)

  lemma DefaultClosed()
    ensures Closed(DefaultContentSingle)
  {
    assert ClosedAbout(DefaultAbout);
    assert ClosedContact(DefaultContact);
    assert ListObj(DefaultFeaturedPosts) && FeaturedPostsKeys <= DefaultFeaturedPosts.fields.Keys;
  }

  /** The defaults can be dereferenced where `mergeSingleContent` needs it. */
  lemma DefaultDereferenceable()
    ensures Dereferenceable(DefaultContentSingle)
  {
    DefaultClosed();
    ClosedDereferenceable(DefaultContentSingle);
  }

  /** `mergeContent` over a per-language fallback `fb`: exactly the keys `zh`
      and `en`, each merged with `fb`. Other top-level keys are dropped; a
      `null` data object, or a `null` language entry, cannot be read. */
  function MergeLanguages(data: Json, fb: Json): (r: Result<Json>)
    requires Dereferenceable(fb)
    ensures r.Fail? <==> data.Null? || Get(data, "zh").Null? || Get(data, "en").Null?
    ensures r.Ok? ==> r.value.Obj? && r.value.fields.Keys == {"zh", "en"}
    ensures r.Ok? ==> r.value.fields["zh"] == MergeSingleContent(Get(data, "zh"), fb).value
    ensures r.Ok? ==> r.value.fields["en"] == MergeSingleContent(Get(data, "en"), fb).value
  {
    if data.Null? then Fail("Cannot read properties of null (reading 'zh')")
    else
      var zh := MergeSingleContent(Get(data, "zh"), fb);
      var en := MergeSingleContent(Get(data, "en"), fb);
      if zh.Fail? then zh
      else if en.Fail? then en
      else Ok(LanguagesRecord(zh.value, en.value))
  }

  /** Merging nothing into a closed fallback gives that fallback for both languages. */
  lemma MergeLanguagesNothing(data: Json, fb: Json)
    requires data.Undefined? || data == Obj(map[])
    requires Closed(fb)
    ensures Dereferenceable(fb)
    ensures MergeLanguages(data, fb) == Ok(LanguagesRecord(fb, fb))
  {
    MergeNothing(Undefined, fb);
    assert Get(data, "zh") == Undefined && Get(data, "en") == Undefined;
  }

  /** `mergeContent(data)`, merging each language with `DEFAULT_CONTENT_SINGLE`. */
  function MergeContent(data: Json): (r: Result<Json>)
    ensures r.Fail? <==> data.Null? || Get(data, "zh").Null? || Get(data, "en").Null?
    ensures r.Ok? ==> r.value.Obj? && r.value.fields.Keys == {"zh", "en"}
  {
    DefaultDereferenceable();
    MergeLanguages(data, DefaultContentSingle)
  }

  /** `mergeContent()` and `mergeContent({})` return the defaults. */
  lemma MergeDefaults(data: Json)
    requires data.Undefined? || data == Obj(map[])
    ensures MergeContent(data) == Ok(DefaultContent)
  {
    DefaultClosed();
    MergeLanguagesNothing(data, DefaultContentSingle);
  }
}
