/** getCategories and parseFeed (scripts/fetch-rss.bun.js): the global
    `regex.exec` loops that push into a local array, proved against
    functions that describe the whole scan. */
module FeedParse {
  import opened Options
  import opened Text
  import opened FeedText

  // ---------------------------------------------------------------------
  // Categories
  // ---------------------------------------------------------------------

  /** The `includes` guard before a push; empty values are never pushed. */
  function Push(acc: seq<string>, x: string): (r: seq<string>)
    ensures x != "" && x !in acc ==> r == acc + [x]
    ensures x == "" || x in acc ==> r == acc
  {
    if x != "" && x !in acc then acc + [x] else acc
  }

  /** Pushing every value of `xs` in order. */
  function AddAll(acc: seq<string>, xs: seq<string>): (r: seq<string>)
    decreases |xs|
  {
    if xs == [] then acc else AddAll(Push(acc, xs[0]), xs[1..])
  }

  /** What AddAll keeps: `acc` stays as a prefix, later positions hold new,
      non-empty values of `xs`, and every non-empty value of `xs` ends up in
      the result. */
  lemma AddAllFacts(acc: seq<string>, xs: seq<string>)
    ensures acc <= AddAll(acc, xs)
    ensures forall k :: |acc| <= k < |AddAll(acc, xs)| ==>
      AddAll(acc, xs)[k] in xs && AddAll(acc, xs)[k] !in acc && AddAll(acc, xs)[k] != ""
    ensures forall x :: x in AddAll(acc, xs) <==> x in acc || (x != "" && x in xs)
    ensures NoDup(acc) ==> NoDup(AddAll(acc, xs))
  {
    AddAllExtends(acc, xs);
    AddAllMembers(acc, xs);
    if NoDup(acc) {
      AddAllNoDup(acc, xs);
    }
  }

  lemma {:induction false} AddAllExtends(acc: seq<string>, xs: seq<string>)
    ensures acc <= AddAll(acc, xs)
    ensures forall k :: |acc| <= k < |AddAll(acc, xs)| ==>
      AddAll(acc, xs)[k] in xs && AddAll(acc, xs)[k] !in acc && AddAll(acc, xs)[k] != ""
    decreases |xs|
  {
    if xs != [] {
      var p := Push(acc, xs[0]);
      AddAllExtends(p, xs[1..]);
      var r := AddAll(acc, xs);
      assert r == AddAll(p, xs[1..]);
      assert xs == [xs[0]] + xs[1..];
      forall k | |acc| <= k < |r| ensures r[k] in xs && r[k] !in acc && r[k] != "" {
        if k < |p| {
          assert r[k] == p[k] == xs[0];
        } else {
          assert r[k] in xs[1..];
          assert r[k] !in p;
        }
      }
    }
  }

  lemma {:induction false} AddAllMembers(acc: seq<string>, xs: seq<string>)
    ensures forall x :: x in AddAll(acc, xs) <==> x in acc || (x != "" && x in xs)
    decreases |xs|
  {
    if xs != [] {
      var p := Push(acc, xs[0]);
      AddAllMembers(p, xs[1..]);
      assert AddAll(acc, xs) == AddAll(p, xs[1..]);
      assert xs == [xs[0]] + xs[1..];
      assert forall x :: x in p <==> x in acc || (x != "" && x == xs[0]);
    }
  }

  lemma {:induction false} AddAllNoDup(acc: seq<string>, xs: seq<string>)
    requires NoDup(acc)
    ensures NoDup(AddAll(acc, xs))
    decreases |xs|
  {
    if xs != [] {
      var p := Push(acc, xs[0]);
      assert NoDup(p);
      AddAllNoDup(p, xs[1..]);
      assert AddAll(acc, xs) == AddAll(p, xs[1..]);
    }
  }

  /** The `term` values of `<category … term="…" …>` tags, in the order the
      global scan from `from` meets them. */
  function Terms(xml: string, from: nat): (r: seq<string>)
    decreases |xml| - from
    ensures "" !in r
  {
    match FindAttrTag(xml, from, "category", "term")
    case None => []
    case Some(m) => [m.value] + Terms(xml, m.end)
  }

  /** The stripped bodies of `<category>` elements, in scan order. */
  function Texts(xml: string, from: nat): (r: seq<string>)
    decreases |xml| - from
  {
    match FindElement(xml, from, ["category"])
    case None => []
    case Some(m) => [StripHtml(xml[m.bodyStart..m.bodyEnd])] + Texts(xml, m.end)
  }

  /** What getCategories computes: distinct, non-empty values, the term
      values first. */
  function Categories(xml: string): (r: seq<string>)
    ensures NoDup(r) && "" !in r
    ensures AddAll([], Terms(xml, 0)) <= r
  {
    var t := AddAll([], Terms(xml, 0));
    AddAllFacts([], Terms(xml, 0));
    AddAllFacts(t, Texts(xml, 0));
    AddAll(t, Texts(xml, 0))
  }

  /** The categories are distinct and non-empty; the distinct term values come
      first, in document order, and every later value is a text value that is
      not also a term. */
  lemma CategoriesShape(xml: string)
    ensures NoDup(Categories(xml))
    ensures "" !in Categories(xml)
    ensures AddAll([], Terms(xml, 0)) <= Categories(xml)
    ensures forall x :: x in AddAll([], Terms(xml, 0)) <==> x in Terms(xml, 0)
    ensures forall k :: |AddAll([], Terms(xml, 0))| <= k < |Categories(xml)| ==>
      Categories(xml)[k] in Texts(xml, 0) && Categories(xml)[k] !in Terms(xml, 0)
    ensures forall x :: x in Categories(xml) <==> x in Terms(xml, 0) || (x != "" && x in Texts(xml, 0))
  {
    var t := AddAll([], Terms(xml, 0));
    AddAllFacts([], Terms(xml, 0));
    AddAllFacts(t, Texts(xml, 0));
  }

  /** getCategories: first the term scan, then the element scan. */
  method GetCategories(xml: string) returns (categories: seq<string>)
    ensures categories == Categories(xml)
  {
    categories := [];
    var pos := 0;
    var m := FindAttrTag(xml, pos, "category", "term");
    while m.Some?
      invariant m == FindAttrTag(xml, pos, "category", "term")
      invariant AddAll(categories, Terms(xml, pos)) == AddAll([], Terms(xml, 0))
      decreases |xml| - pos
    {
      var v := m.value.value;
      assert Terms(xml, pos) == [v] + Terms(xml, m.value.end);
      if v !in categories {
        categories := categories + [v];
      }
      pos := m.value.end;
      m := FindAttrTag(xml, pos, "category", "term");
    }
    var afterTerms := categories;
    pos := 0;
    var e := FindElement(xml, pos, ["category"]);
    while e.Some?
      invariant e == FindElement(xml, pos, ["category"])
      invariant AddAll(categories, Texts(xml, pos)) == AddAll(afterTerms, Texts(xml, 0))
      decreases |xml| - pos
    {
      var cat := StripHtml(xml[e.value.bodyStart..e.value.bodyEnd]);
      assert Texts(xml, pos) == [cat] + Texts(xml, e.value.end);
      if cat != "" && cat !in categories {
        categories := categories + [cat];
      }
      pos := e.value.end;
      e := FindElement(xml, pos, ["category"]);
    }
  }

  // ---------------------------------------------------------------------
  // Entries
  // ---------------------------------------------------------------------

  /** One parsed feed entry; pubDate is the raw date text or null. */
  datatype Entry = Entry(title: string, url: string, description: string,
                         pubDate: Option<string>, categories: seq<string>)

  const EntryTags: seq<string> := ["entry", "item"]

  /** `getTagContent(content, tag)` when it is truthy: the element exists
      and its content is not empty. */
  function TagText(content: string, tag: string): (r: Option<string>)
    ensures r.Some? <==> GetTagContent(content, tag).Some? && GetTagContent(content, tag).value != ""
    ensures r.Some? ==> r == GetTagContent(content, tag)
  {
    OrElse(GetTagContent(content, tag), None)
  }

  /** The title: the stripped content of the first `<title>`, or 'Untitled'
      when that is missing or empty. Only the first title element counts. */
  function Title(content: string): (t: string)
    ensures NoTagRun(t)
    ensures TagText(content, "title").None? ==> t == "Untitled"
    ensures TagText(content, "title").Some? ==> t == StripHtml(TagText(content, "title").value)
  {
    StripHtmlPlain("Untitled");
    StripHtml(OrElse(GetTagContent(content, "title"), Some("Untitled")).value)
  }

  /** The description: the first truthy of summary, description and content,
      stripped; '' when none is. */
  function Description(content: string): (d: string)
    ensures NoTagRun(d)
    ensures TagText(content, "summary").Some? ==> d == StripHtml(TagText(content, "summary").value)
    ensures TagText(content, "summary").None? && TagText(content, "description").Some? ==>
      d == StripHtml(TagText(content, "description").value)
    ensures TagText(content, "summary").None? && TagText(content, "description").None? &&
            TagText(content, "content").Some? ==>
      d == StripHtml(TagText(content, "content").value)
    ensures TagText(content, "summary").None? && TagText(content, "description").None? &&
            TagText(content, "content").None?
      ==> d == ""
  {
    StripHtml(
      OrElse(GetTagContent(content, "summary"),
        OrElse(GetTagContent(content, "description"),
          OrElse(GetTagContent(content, "content"), Some("")))).value)
  }

  /** The raw date text: the first truthy of updated, pubDate and published,
      else null. It is never empty. */
  function PubDate(content: string): (p: Option<string>)
    ensures p.Some? ==> p.value != ""
    ensures TagText(content, "updated").Some? ==> p == TagText(content, "updated")
    ensures TagText(content, "updated").None? && TagText(content, "pubDate").Some? ==>
      p == TagText(content, "pubDate")
    ensures TagText(content, "updated").None? && TagText(content, "pubDate").None? ==>
      p == TagText(content, "published")
  {
    OrElse(GetTagContent(content, "updated"),
      OrElse(GetTagContent(content, "pubDate"),
        OrElse(GetTagContent(content, "published"), None)))
  }

  /** The record built from one entry body. */
  function MakeEntry(content: string): (e: Entry)
    ensures e.url != "" && e.url == GetLinkHref(content)
    ensures e.title == Title(content) && e.description == Description(content)
    ensures e.pubDate == PubDate(content) && e.categories == Categories(content)
  {
    Entry(Title(content), GetLinkHref(content), Description(content), PubDate(content), Categories(content))
  }

  /** The entries of the global `<entry>`/`<item>` scan from `from`. */
  function Entries(xml: string, from: nat): (r: seq<Entry>)
    decreases |xml| - from
    ensures FindElement(xml, from, EntryTags).None? <==> r == []
    ensures FindElement(xml, from, EntryTags).Some? ==>
      var m := FindElement(xml, from, EntryTags).value;
      r == [MakeEntry(xml[m.bodyStart..m.bodyEnd])] + Entries(xml, m.end)
  {
    match FindElement(xml, from, EntryTags)
    case None => []
    case Some(m) => [MakeEntry(xml[m.bodyStart..m.bodyEnd])] + Entries(xml, m.end)
  }

  /** One record per matched block, and no more records than the text has
      characters: blocks do not overlap. */
  lemma {:induction false} EntriesBound(xml: string, from: nat)
    requires from <= |xml|
    ensures |Entries(xml, from)| <= |xml| - from
    ensures forall e :: e in Entries(xml, from) ==> e.url != "" && NoDup(e.categories)
    decreases |xml| - from
  {
    match FindElement(xml, from, EntryTags)
    case None =>
    case Some(m) =>
      EntriesBound(xml, m.end);
      CategoriesShape(xml[m.bodyStart..m.bodyEnd]);
  }

  lemma AppendAssoc<T>(a: seq<T>, x: T, b: seq<T>)
    ensures (a + [x]) + b == a + ([x] + b)
  {
  }

  /** parseFeed: the exec loop over `<entry>`/`<item>` blocks. */
  method ParseFeed(xml: string) returns (entries: seq<Entry>)
    ensures entries == Entries(xml, 0)
  {
    entries := [];
    var pos := 0;
    var m := FindElement(xml, pos, EntryTags);
    while m.Some?
      invariant m == FindElement(xml, pos, EntryTags)
      invariant entries + Entries(xml, pos) == Entries(xml, 0)
      decreases |xml| - pos
    {
      var content := xml[m.value.bodyStart..m.value.bodyEnd];
      var categories := GetCategories(content);
      var entry := Entry(Title(content), GetLinkHref(content), Description(content), PubDate(content), categories);
      var next := m.value.end;
      var rest := Entries(xml, next);
      assert Entries(xml, pos) == [entry] + rest;
      AppendAssoc(entries, entry, rest);
      entries := entries + [entry];
      pos := next;
      m := FindElement(xml, pos, EntryTags);
    }
  }
}
