/** The homepage's list of featured posts (src/components/astro/Home.jsx):
    RSS posts and the static posts of the content, marked by origin, sorted
    newest first and cut to a limit; and whether the "see all" link shows.
    `new Date(...)` is the parameter `time`, giving a timestamp. */
module Home {
  import opened Json
  import opened StableSort

  /** `Array.isArray(v) ? v : []` */
  function ListOrEmpty(v: Json): (r: seq<Json>)
    ensures v.Arr? ==> r == v.items
    ensures !v.Arr? ==> r == []
  {
    if v.Arr? then v.items else []
  }

  /** `{ ...post, [flag]: true }` */
  function Mark(post: Json, flag: string): (r: Json)
    ensures r.Obj? && r.fields.Keys == OwnEntries(post).Keys + {flag}
    ensures r.fields[flag] == Bool(true)
    ensures forall k :: k in OwnEntries(post) && k != flag ==> r.fields[k] == OwnEntries(post)[k]
  {
    Obj(OwnEntries(post)[flag := Bool(true)])
  }

  function MarkAll(posts: seq<Json>, flag: string): (r: seq<Json>)
    ensures |r| == |posts|
    ensures forall i :: 0 <= i < |posts| ==> r[i] == Mark(posts[i], flag)
  {
    if posts == [] then [] else [Mark(posts[0], flag)] + MarkAll(posts[1..], flag)
  }

  /** `[...markedRSS, ...markedStatic]`: the RSS posts marked `isRSS`, in
      order, then the static posts marked `isManual`, in order. */
  function Combined(featuredPosts: Json, rssPosts: Json): (r: seq<Json>)
    ensures |r| == |ListOrEmpty(rssPosts)| + |ListOrEmpty(Get(featuredPosts, "items"))|
    ensures forall i :: 0 <= i < |ListOrEmpty(rssPosts)| ==> r[i] == Mark(ListOrEmpty(rssPosts)[i], "isRSS")
    ensures forall j :: 0 <= j < |ListOrEmpty(Get(featuredPosts, "items"))| ==>
      r[|ListOrEmpty(rssPosts)| + j] == Mark(ListOrEmpty(Get(featuredPosts, "items"))[j], "isManual")
  {
    MarkAll(ListOrEmpty(rssPosts), "isRSS") + MarkAll(ListOrEmpty(Get(featuredPosts, "items")), "isManual")
  }

  /** The sort key: the time of `pubDate || updated || 0`, the first of
      them that is truthy. */
  function DateKey(time: Json -> int): (r: Json -> int)
    ensures forall p :: Truthy(Get(p, "pubDate")) ==> r(p) == time(Get(p, "pubDate"))
    ensures forall p :: !Truthy(Get(p, "pubDate")) && Truthy(Get(p, "updated")) ==>
      r(p) == time(Get(p, "updated"))
    ensures forall p :: !Truthy(Get(p, "pubDate")) && !Truthy(Get(p, "updated")) ==> r(p) == time(Num(0))
  {
    var key := (p: Json) => time(Or(Or(Get(p, "pubDate"), Get(p, "updated")), Num(0)));
    assert forall p :: key(p) == time(Or(Or(Get(p, "pubDate"), Get(p, "updated")), Num(0)));
    key
  }

  /** `featuredPosts?.rss?.limit || 6`, for a numeric limit. */
  function RssLimit(featuredPosts: Json): (r: int)
    ensures r != 0
    ensures Get(Get(featuredPosts, "rss"), "limit").Num? && Get(Get(featuredPosts, "rss"), "limit").n != 0 ==>
      r == Get(Get(featuredPosts, "rss"), "limit").n
    ensures !Truthy(Get(Get(featuredPosts, "rss"), "limit")) ==> r == 6
  {
    var limit := Get(Get(featuredPosts, "rss"), "limit");
    if limit.Num? && limit.n != 0 then limit.n else 6
  }

  /** `Math.max(rssLimit, rssLimit + staticPosts.length)` */
  function CutOff(featuredPosts: Json): (r: int)
    ensures r == RssLimit(featuredPosts) + |ListOrEmpty(Get(featuredPosts, "items"))|
  {
    var rssLimit := RssLimit(featuredPosts);
    var total := rssLimit + |ListOrEmpty(Get(featuredPosts, "items"))|;
    if rssLimit > total then rssLimit else total
  }

  /** `s.slice(0, end)`: a negative end counts from the back. */
  function SliceTo<T>(s: seq<T>, end: int): (r: seq<T>)
    ensures end >= |s| ==> r == s
    ensures 0 <= end <= |s| ==> r == s[..end]
    ensures -|s| <= end < 0 ==> r == s[..|s| + end]
    ensures end < -|s| ==> r == []
  {
    if end >= |s| then s
    else if end >= 0 then s[..end]
    else if end >= -|s| then s[..|s| + end]
    else []
  }

  /** A cut keeps a prefix. */
  lemma SliceIsPrefix<T>(s: seq<T>, end: int)
    ensures var r := SliceTo(s, end); |r| <= |s| && r == s[..|r|]
  {
  }

  /** `displayPosts`, as a value: no more posts than were combined, and
      only posts that were. */
  function DisplaySpec(featuredPosts: Json, rssPosts: Json, time: Json -> int): (r: seq<Json>)
    ensures |r| <= |Combined(featuredPosts, rssPosts)|
    ensures multiset(r) <= multiset(Combined(featuredPosts, rssPosts))
  {
    var c := Combined(featuredPosts, rssPosts);
    CutOfSort(c, DateKey(time), CutOff(featuredPosts));
    SliceTo(SortDesc(c, DateKey(time)), CutOff(featuredPosts))
  }

  /** A cut of the sorted list is a sub-multiset of the list. */
  lemma CutOfSort<T>(c: seq<T>, key: T -> int, end: int)
    ensures var r := SliceTo(SortDesc(c, key), end);
      |r| <= |c| && multiset(r) <= multiset(c)
  {
    var s := SortDesc(c, key);
    SortDescPermutation(c, key);
    SliceIsPrefix(s, end);
    var r := SliceTo(s, end);
    assert s == r + s[|r|..];
  }

  /** A cut of the stable sort of `a + b` is sorted and a prefix of it, and
      for each key the sort keeps the elements of `a` before those of `b`. */
  lemma CutOfSortAppend<T>(a: seq<T>, b: seq<T>, key: T -> int, end: int)
    ensures var s := SortDesc(a + b, key); var r := SliceTo(s, end);
      NonIncreasing(r, key) && r == s[..|r|]
    ensures forall k :: WithKey(SortDesc(a + b, key), k, key) == WithKey(a, k, key) + WithKey(b, k, key)
  {
    var s := SortDesc(a + b, key);
    SortDescSorted(a + b, key);
    SliceIsPrefix(s, end);
    forall k ensures WithKey(s, k, key) == WithKey(a, k, key) + WithKey(b, k, key) {
      SortDescStable(a + b, k, key);
      WithKeyAppend(a, b, k, key);
    }
  }

  /** `displayPosts`: the combined list is sorted in place, then cut. */
  method DisplayPosts(featuredPosts: Json, rssPosts: Json, time: Json -> int) returns (r: seq<Json>)
    ensures r == DisplaySpec(featuredPosts, rssPosts, time)
  {
    var combined := Combined(featuredPosts, rssPosts);
    var a := new Json[|combined|](i requires 0 <= i < |combined| => combined[i]);
    assert a[..] == combined;
    SortInPlace(a, DateKey(time));
    r := SliceTo(a[..], CutOff(featuredPosts));
  }

  /** The posts shown are newest first, each a marked RSS post or a marked
      static post, and they are a prefix of the stably sorted combined list:
      posts with equal dates keep RSS before static. */
  lemma DisplayOrdered(featuredPosts: Json, rssPosts: Json, time: Json -> int)
    ensures var r := DisplaySpec(featuredPosts, rssPosts, time);
      NonIncreasing(r, DateKey(time)) &&
      r == SortDesc(Combined(featuredPosts, rssPosts), DateKey(time))[..|r|]
    ensures forall k :: (WithKey(SortDesc(Combined(featuredPosts, rssPosts), DateKey(time)), k, DateKey(time)) ==
      WithKey(MarkAll(ListOrEmpty(rssPosts), "isRSS"), k, DateKey(time)) +
      WithKey(MarkAll(ListOrEmpty(Get(featuredPosts, "items")), "isManual"), k, DateKey(time)))
  {
    CutOfSortAppend(MarkAll(ListOrEmpty(rssPosts), "isRSS"), MarkAll(ListOrEmpty(Get(featuredPosts, "items")), "isManual"),
      DateKey(time), CutOff(featuredPosts));
  }

  /** Every post shown is an RSS post marked `isRSS` or a static post marked
      `isManual`. */
  lemma DisplayMarked(featuredPosts: Json, rssPosts: Json, time: Json -> int)
    ensures forall x :: x in DisplaySpec(featuredPosts, rssPosts, time) ==>
      (exists p :: p in ListOrEmpty(rssPosts) && x == Mark(p, "isRSS")) ||
      (exists p :: p in ListOrEmpty(Get(featuredPosts, "items")) && x == Mark(p, "isManual"))
  {
    var rss := ListOrEmpty(rssPosts);
    var st := ListOrEmpty(Get(featuredPosts, "items"));
    assert Combined(featuredPosts, rssPosts) == MarkAll(rss, "isRSS") + MarkAll(st, "isManual");
    MarkedOrigin(DisplaySpec(featuredPosts, rssPosts, time), rss, st);
  }

  /** Posts drawn from the marked lists are marked posts of those lists. */
  lemma MarkedOrigin(r: seq<Json>, rss: seq<Json>, st: seq<Json>)
    requires multiset(r) <= multiset(MarkAll(rss, "isRSS") + MarkAll(st, "isManual"))
    ensures forall x :: x in r ==>
      (exists p :: p in rss && x == Mark(p, "isRSS")) || (exists p :: p in st && x == Mark(p, "isManual"))
  {
    forall x | x in r
      ensures (exists p :: p in rss && x == Mark(p, "isRSS")) || (exists p :: p in st && x == Mark(p, "isManual"))
    {
      InSubMultiset(r, MarkAll(rss, "isRSS"), MarkAll(st, "isManual"), x);
      MarkAllMember(rss, "isRSS", x);
      MarkAllMember(st, "isManual", x);
    }
  }

  /** An element of a sub-multiset of `a + b` is in `a` or in `b`. */
  lemma InSubMultiset<T>(r: seq<T>, a: seq<T>, b: seq<T>, x: T)
    requires multiset(r) <= multiset(a + b) && x in r
    ensures x in a || x in b
  {
    assert x in multiset(a + b);
  }

  /** A marked list holds only marked posts of the list. */
  lemma MarkAllMember(posts: seq<Json>, flag: string, x: Json)
    ensures x in MarkAll(posts, flag) ==> exists p :: p in posts && x == Mark(p, flag)
  {
    if x in MarkAll(posts, flag) {
      var i :| 0 <= i < |posts| && MarkAll(posts, flag)[i] == x;
      assert posts[i] in posts;
    }
  }

  /** With no more RSS posts than the limit nothing is dropped: the posts
      shown are all the marked posts, reordered. */
  lemma DisplayKeepsAll(featuredPosts: Json, rssPosts: Json, time: Json -> int)
    requires |ListOrEmpty(rssPosts)| <= RssLimit(featuredPosts)
    ensures multiset(DisplaySpec(featuredPosts, rssPosts, time)) == multiset(Combined(featuredPosts, rssPosts))
  {
    SortDescPermutation(Combined(featuredPosts, rssPosts), DateKey(time));
  }

  /** With more RSS posts than a positive limit, exactly the cut-off number
      of posts is shown. */
  lemma DisplayCutsToLimit(featuredPosts: Json, rssPosts: Json, time: Json -> int)
    requires 0 < RssLimit(featuredPosts) < |ListOrEmpty(rssPosts)|
    ensures |DisplaySpec(featuredPosts, rssPosts, time)| == CutOff(featuredPosts)
  {
  }

  /** `showSeeAll`: a link that is set and not `#`, with a text. */
  predicate ShowSeeAll(featuredPosts: Json)
    ensures Get(featuredPosts, "seeAllUrl") == Str("#") ==> !ShowSeeAll(featuredPosts)
    ensures !Truthy(Get(featuredPosts, "seeAllText")) ==> !ShowSeeAll(featuredPosts)
    ensures Nullish(featuredPosts) ==> !ShowSeeAll(featuredPosts)
  {
    var url := Get(featuredPosts, "seeAllUrl");
    Truthy(url) && url != Str("#") && Truthy(Get(featuredPosts, "seeAllText"))
  }

  /** For string fields, the link shows iff the URL is neither empty nor `#`
      and the text is not empty. */
  lemma ShowSeeAllStrings(featuredPosts: Json, url: string, text: string)
    requires Get(featuredPosts, "seeAllUrl") == Str(url) && Get(featuredPosts, "seeAllText") == Str(text)
    ensures ShowSeeAll(featuredPosts) <==> url != "" && url != "#" && text != ""
  {
  }
}
