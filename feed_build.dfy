/** The per-language block of the feed script's main loop
    (scripts/fetch-rss.bun.js): collect the entries of every configured
    feed, keep the first record for each URL, sort stably by date
    (newest first), cut to the configured limit and decorate each post.
    Fetching, hashing and date handling are inputs. */
module FeedBuild {
  import opened Options
  import opened Text
  import opened StableSort
  import opened FeedParse

  /** A configured feed: a bare URL string, or an object with a url and a
      parser name (which nothing reads). */
  datatype FeedRef = UrlString(url: string) | FeedObject(url: string, parser: string)

  /** `featuredPosts.rss` of a language's content file. */
  datatype RssConfig = RssConfig(feeds: Option<seq<FeedRef>>, limit: Option<int>)

  /** What fetching one feed URL gives: its text, or a failure (HTTP error,
      timeout after the retries, network error). */
  datatype FetchOutcome = Fetched(xml: string) | Failed

  /** `config?.feeds || []` */
  function FeedsOf(config: Option<RssConfig>): (feeds: seq<FeedRef>)
    ensures config.None? || config.value.feeds.None? ==> feeds == []
    ensures config.Some? && config.value.feeds.Some? ==> feeds == config.value.feeds.value
  {
    if config.Some? && config.value.feeds.Some? then config.value.feeds.value else []
  }

  /** `config?.limit || 4`: a missing or zero limit means 4. */
  function LimitOf(config: Option<RssConfig>): (n: int)
    ensures n != 0
    ensures config.Some? && config.value.limit.Some? && config.value.limit.value != 0 ==>
      n == config.value.limit.value
    ensures !(config.Some? && config.value.limit.Some? && config.value.limit.value != 0) ==> n == 4
  {
    if config.Some? && config.value.limit.Some? && config.value.limit.value != 0
    then config.value.limit.value else 4
  }

  // ---------------------------------------------------------------------
  // Collecting
  // ---------------------------------------------------------------------

  /** The entries one feed contributes: none when its fetch failed. */
  function FeedItems(f: FeedRef, fetch: string -> FetchOutcome): seq<Entry> {
    match fetch(f.url)
    case Fetched(xml) => Entries(xml, 0)
    case Failed => []
  }

  function ItemsOf(fetch: string -> FetchOutcome): FeedRef -> seq<Entry> {
    f => FeedItems(f, fetch)
  }

  /** The concatenation of `f(x)` for each `x` of `xs`, in order. */
  function Concat<A, B>(xs: seq<A>, f: A -> seq<B>): seq<B> {
    if xs == [] then [] else Concat(xs[..|xs| - 1], f) + f(xs[|xs| - 1])
  }

  lemma {:induction false} ConcatAppend<A, B>(a: seq<A>, b: seq<A>, f: A -> seq<B>)
    ensures Concat(a + b, f) == Concat(a, f) + Concat(b, f)
    decreases |b|
  {
    if b == [] {
      assert a + b == a;
    } else {
      var p, last := b[..|b| - 1], b[|b| - 1];
      assert (a + b)[..|a + b| - 1] == a + p;
      assert (a + b)[|a + b| - 1] == last;
      ConcatAppend(a, p, f);
      calc {
        Concat(a + b, f);
        Concat(a + p, f) + f(last);
        (Concat(a, f) + Concat(p, f)) + f(last);
        Concat(a, f) + (Concat(p, f) + f(last));
        Concat(a, f) + Concat(b, f);
      }
    }
  }

  lemma ConcatSnoc<A, B>(xs: seq<A>, i: nat, f: A -> seq<B>)
    requires i < |xs|
    ensures Concat(xs[..i + 1], f) == Concat(xs[..i], f) + f(xs[i])
  {
    assert xs[..i + 1][..i] == xs[..i];
  }

  /** Dropping an element that maps to nothing leaves the concatenation unchanged. */
  lemma DropEmpty<A, B>(xs: seq<A>, i: nat, f: A -> seq<B>)
    requires i < |xs| && f(xs[i]) == []
    ensures Concat(xs, f) == Concat(xs[..i] + xs[i + 1..], f)
  {
    var a, b := xs[..i], xs[i + 1..];
    var ax := a + [xs[i]];
    assert xs == ax + b;
    ConcatAppend(ax, b, f);
    ConcatLast(a, xs[i], f);
    assert Concat(ax, f) == Concat(a, f) + [];
    ConcatAppend(a, b, f);
  }

  lemma ConcatLast<A, B>(a: seq<A>, x: A, f: A -> seq<B>)
    ensures Concat(a + [x], f) == Concat(a, f) + f(x)
  {
    assert (a + [x])[..|a|] == a;
  }

  /** The entries of all feeds, feed by feed, in configuration order. */
  function Collected(feeds: seq<FeedRef>, fetch: string -> FetchOutcome): seq<Entry> {
    Concat(feeds, ItemsOf(fetch))
  }

  /** A feed whose fetch fails contributes nothing, and the other feeds are
      still collected: the result is that of the list without it. */
  lemma FailedFeedSkipped(feeds: seq<FeedRef>, i: nat, fetch: string -> FetchOutcome)
    requires i < |feeds| && fetch(feeds[i].url).Failed?
    ensures Collected(feeds, fetch) == Collected(feeds[..i] + feeds[i + 1..], fetch)
  {
    var f := ItemsOf(fetch);
    assert f(feeds[i]) == [];
    DropEmpty(feeds, i, f);
  }

  /** The loop over the configured feeds, concatenating what each yields. */
  method CollectPosts(feeds: seq<FeedRef>, fetch: string -> FetchOutcome) returns (langPosts: seq<Entry>)
    ensures langPosts == Collected(feeds, fetch)
  {
    langPosts := [];
    var i := 0;
    while i < |feeds|
      invariant i <= |feeds|
      invariant langPosts == Collected(feeds[..i], fetch)
    {
      var items := [];
      match fetch(feeds[i].url) {
        case Fetched(xml) => items := ParseFeed(xml);
        case Failed =>
      }
      assert ItemsOf(fetch)(feeds[i]) == items;
      ConcatSnoc(feeds, i, ItemsOf(fetch));
      langPosts := langPosts + items;
      i := i + 1;
    }
    assert feeds[..i] == feeds;
  }

  // ---------------------------------------------------------------------
  // Deduplication by URL
  // ---------------------------------------------------------------------

  function Urls(s: seq<Entry>): set<string> {
    set e | e in s :: e.url
  }

  /** `s[i]` is the first record with its URL. */
  predicate IsFirst(s: seq<Entry>, i: nat)
    requires i < |s|
  {
    forall j :: 0 <= j < i ==> s[j].url != s[i].url
  }

  /** The filter with a `seen` set: a record is kept iff no earlier record
      has its URL. */
  function Dedup(s: seq<Entry>): (r: seq<Entry>)
    ensures |r| <= |s|
    ensures forall e :: e in r ==> e in s
  {
    if s == [] then []
    else
      var p := s[..|s| - 1];
      assert forall e :: e in p ==> e in s;
      Dedup(p) + (if s[|s| - 1].url in Urls(p) then [] else [s[|s| - 1]])
  }

  lemma UrlsAppend(a: seq<Entry>, b: seq<Entry>)
    ensures Urls(a + b) == Urls(a) + Urls(b)
  {
    forall u | u in Urls(a + b) ensures u in Urls(a) + Urls(b) {
      var e :| e in a + b && e.url == u;
    }
    forall u | u in Urls(a) + Urls(b) ensures u in Urls(a + b) {
      if u in Urls(a) {
        var e :| e in a && e.url == u;
        assert e in a + b;
      } else {
        var e :| e in b && e.url == u;
        assert e in a + b;
      }
    }
  }

  lemma UrlsSnoc(s: seq<Entry>, i: nat)
    requires i < |s|
    ensures Urls(s[..i + 1]) == Urls(s[..i]) + {s[i].url}
    ensures s[i].url in Urls(s[..i]) <==> !IsFirst(s, i)
  {
    assert s[..i + 1] == s[..i] + [s[i]];
    if !IsFirst(s, i) {
      var j :| 0 <= j < i && s[j].url == s[i].url;
      assert s[..i][j] == s[j];
    }
  }

  /** Deduplication keeps exactly the first record for each URL: URLs
      become pairwise distinct, no URL is lost, and the record kept for a
      URL is the first one that has it. */
  lemma DedupFacts(s: seq<Entry>)
    ensures forall i, j :: 0 <= i < j < |Dedup(s)| ==> Dedup(s)[i].url != Dedup(s)[j].url
    ensures Urls(Dedup(s)) == Urls(s)
    ensures forall e :: e in Dedup(s) ==> e in s
    ensures forall k, i :: 0 <= k < |Dedup(s)| && 0 <= i < |s| && IsFirst(s, i) && s[i].url == Dedup(s)[k].url ==>
      Dedup(s)[k] == s[i]
  {
    DedupUrls(s);
    DedupDistinct(s);
    DedupFirst(s);
  }

  /** The last step of the filter: the records kept before the last one,
      then the last one if its URL is new. */
  lemma DedupSnoc(s: seq<Entry>)
    requires s != []
    ensures var p := s[..|s| - 1];
      Dedup(s) == Dedup(p) + (if s[|s| - 1].url in Urls(p) then [] else [s[|s| - 1]])
  {
  }

  /** Deduplication keeps only records of the input and loses no URL. */
  lemma {:induction false} DedupUrls(s: seq<Entry>)
    ensures Urls(Dedup(s)) == Urls(s)
    ensures forall e :: e in Dedup(s) ==> e in s
  {
    if s != [] {
      var n := |s| - 1;
      var p := s[..n];
      DedupUrls(p);
      DedupSnoc(s);
      UrlsSnoc(s, n);
      assert s == p + [s[n]];
      var tail := if s[n].url in Urls(p) then [] else [s[n]];
      UrlsAppend(Dedup(p), tail);
      assert Urls([s[n]]) == {s[n].url};
      forall e | e in Dedup(s) ensures e in s {
        assert e in Dedup(p) || e in tail;
      }
    }
  }

  /** The records kept have pairwise distinct URLs. */
  lemma {:induction false} DedupDistinct(s: seq<Entry>)
    ensures forall i, j :: 0 <= i < j < |Dedup(s)| ==> Dedup(s)[i].url != Dedup(s)[j].url
  {
    if s != [] {
      var n := |s| - 1;
      var p := s[..n];
      DedupDistinct(p);
      DedupUrls(p);
      DedupSnoc(s);
      var dp := Dedup(p);
      var d := Dedup(s);
      forall i, j | 0 <= i < j < |d| ensures d[i].url != d[j].url {
        if j < |dp| {
          assert d[i] == dp[i] && d[j] == dp[j];
        } else {
          assert d[j] == s[n] && s[n].url !in Urls(p);
          assert d[i] == dp[i] && dp[i] in dp;
        }
      }
    }
  }

  /** The record kept for a URL is the first record with that URL. */
  lemma {:induction false} DedupFirst(s: seq<Entry>)
    ensures forall k, i :: 0 <= k < |Dedup(s)| && 0 <= i < |s| && IsFirst(s, i) && s[i].url == Dedup(s)[k].url ==>
      Dedup(s)[k] == s[i]
  {
    if s != [] {
      var n := |s| - 1;
      var p := s[..n];
      DedupFirst(p);
      DedupUrls(p);
      DedupSnoc(s);
      UrlsSnoc(s, n);
      var dp := Dedup(p);
      var d := Dedup(s);
      forall k, i | 0 <= k < |d| && 0 <= i < |s| && IsFirst(s, i) && s[i].url == d[k].url
        ensures d[k] == s[i]
      {
        if k < |dp| {
          assert d[k] == dp[k] && dp[k] in dp;
          assert d[k].url in Urls(p);
          if i != n {
            assert p[i] == s[i];
            assert IsFirst(p, i);
          }
        } else {
          assert d[k] == s[n];
        }
      }
    }
  }

  /** Records are kept in encounter order: deduplicating a prefix yields a
      prefix of the deduplicated whole. */
  lemma {:induction false} DedupPrefix(s: seq<Entry>, i: nat)
    requires i <= |s|
    ensures Dedup(s[..i]) <= Dedup(s)
    decreases |s| - i
  {
    if i < |s| {
      DedupPrefix(s, i + 1);
      assert s[..i + 1][..i] == s[..i];
    } else {
      assert s[..i] == s;
    }
  }

  /** The `filter` with a `seen` set of URLs. */
  method DedupByUrl(s: seq<Entry>) returns (out: seq<Entry>)
    ensures out == Dedup(s)
  {
    var seen: set<string> := {};
    out := [];
    var i := 0;
    while i < |s|
      invariant i <= |s|
      invariant seen == Urls(s[..i])
      invariant out == Dedup(s[..i])
    {
      assert s[..i + 1][..i] == s[..i];
      UrlsSnoc(s, i);
      if s[i].url !in seen {
        seen := seen + {s[i].url};
        out := out + [s[i]];
      }
      i := i + 1;
    }
    assert s[..i] == s;
  }

  // ---------------------------------------------------------------------
  // Sorting and cutting
  // ---------------------------------------------------------------------

  /** The sort key: the parsed pubDate, or epoch 0 when it is missing or empty. */
  function DateKey(e: Entry, parseDate: string -> int): (r: int)
    ensures e.pubDate.None? || e.pubDate.value == "" ==> r == 0
    ensures e.pubDate.Some? && e.pubDate.value != "" ==> r == parseDate(e.pubDate.value)
  {
    if e.pubDate.Some? && e.pubDate.value != "" then parseDate(e.pubDate.value) else 0
  }

  function KeyOf(parseDate: string -> int): Entry -> int {
    e => DateKey(e, parseDate)
  }

  /** The end index of `slice(0, limit)` on `n` elements: a negative limit
      counts from the end. */
  function SliceEnd(n: nat, limit: int): (e: nat)
    ensures e <= n
    ensures limit >= 0 ==> e == if limit <= n then limit else n
    ensures limit < 0 ==> e == if n + limit >= 0 then n + limit else 0
  {
    if limit >= 0 then (if limit <= n then limit else n)
    else if n + limit >= 0 then n + limit else 0
  }

  /** The entries a language shows, before decoration: no more than were
      collected, and no more than a non-negative limit. */
  function Selected(config: Option<RssConfig>, fetch: string -> FetchOutcome, parseDate: string -> int): (r: seq<Entry>)
    ensures |r| <= |Collected(FeedsOf(config), fetch)|
    ensures LimitOf(config) >= 0 ==> |r| <= LimitOf(config)
  {
    var sorted := SortDesc(Dedup(Collected(FeedsOf(config), fetch)), KeyOf(parseDate));
    sorted[..SliceEnd(|sorted|, LimitOf(config))]
  }

  /** A prefix of the stably sorted entries is sorted, keeps URLs distinct
      and holds only entries of the input; a prefix as long as the input is
      a permutation of it. */
  lemma SortedPrefixFacts(d: seq<Entry>, key: Entry -> int, m: nat)
    requires forall i, j :: 0 <= i < j < |d| ==> d[i].url != d[j].url
    requires m <= |d|
    ensures |SortDesc(d, key)| == |d|
    ensures NonIncreasing(SortDesc(d, key)[..m], key)
    ensures forall i, j :: 0 <= i < j < m ==> SortDesc(d, key)[i].url != SortDesc(d, key)[j].url
    ensures forall e :: e in SortDesc(d, key)[..m] ==> e in d
    ensures m == |d| ==> multiset(SortDesc(d, key)[..m]) == multiset(d)
  {
    var sorted := SortDesc(d, key);
    SortDescPermutation(d, key);
    SortDescSorted(d, key);
    assert |sorted| == |d| by { assert |multiset(sorted)| == |multiset(d)|; }
    forall e | e in sorted[..m] ensures e in d {
      assert e in multiset(sorted);
    }
    forall i, j | 0 <= i < j < m ensures sorted[i].url != sorted[j].url {
      var x, y := sorted[i], sorted[j];
      assert x in multiset(d) && y in multiset(d);
      var a :| 0 <= a < |d| && d[a] == x;
      var b :| 0 <= b < |d| && d[b] == y;
      if a == b {
        SortedDistinct(d, key, i, j);
      }
    }
    if m == |d| {
      assert sorted[..m] == sorted;
    }
  }

  /** The selection is a prefix of the stably sorted, deduplicated entries:
      newest first (a missing date counting as epoch 0), with distinct
      URLs, `min(limit, n)` of them for a non-negative limit, and all of
      them when the limit is at least the number of distinct URLs. */
  lemma SelectedFacts(config: Option<RssConfig>, fetch: string -> FetchOutcome, parseDate: string -> int)
    ensures var d := Dedup(Collected(FeedsOf(config), fetch));
      var sel := Selected(config, fetch, parseDate);
      && sel <= SortDesc(d, KeyOf(parseDate))
      && NonIncreasing(sel, KeyOf(parseDate))
      && |sel| == SliceEnd(|d|, LimitOf(config))
      && (forall i, j :: 0 <= i < j < |sel| ==> sel[i].url != sel[j].url)
      && (forall e :: e in sel ==> e in Collected(FeedsOf(config), fetch))
      && (LimitOf(config) >= |d| ==> multiset(sel) == multiset(d))
  {
    var c := Collected(FeedsOf(config), fetch);
    var d := Dedup(c);
    DedupFacts(c);
    var m := SliceEnd(|d|, LimitOf(config));
    SortedPrefixFacts(d, KeyOf(parseDate), m);
  }

  /** Two positions of a sorted sequence of values with distinct URLs hold
      different values. */
  lemma SortedDistinct(d: seq<Entry>, key: Entry -> int, i: nat, j: nat)
    requires forall a, b :: 0 <= a < b < |d| ==> d[a].url != d[b].url
    requires i < j < |SortDesc(d, key)|
    ensures SortDesc(d, key)[i] != SortDesc(d, key)[j]
  {
    var s := SortDesc(d, key);
    SortDescPermutation(d, key);
    if s[i] == s[j] {
      TwoPositionsCount(s, i, j);
      DistinctCountOne(d, s[i]);
    }
  }

  /** A value at two positions occurs at least twice. */
  lemma TwoPositionsCount<T>(s: seq<T>, i: nat, j: nat)
    requires i < j < |s| && s[i] == s[j]
    ensures multiset(s)[s[i]] >= 2
  {
    var x := s[i];
    assert s == s[..j] + s[j..];
    assert s[..j][i] == x && s[j..][0] == x;
    assert x in multiset(s[..j]) && x in multiset(s[j..]);
  }

  lemma {:induction false} DistinctCountOne(d: seq<Entry>, x: Entry)
    requires forall a, b :: 0 <= a < b < |d| ==> d[a].url != d[b].url
    ensures multiset(d)[x] <= 1
  {
    if d != [] {
      var p := d[..|d| - 1];
      assert d == p + [d[|d| - 1]];
      DistinctCountOne(p, x);
    }
  }

  // ---------------------------------------------------------------------
  // Decorating
  // ---------------------------------------------------------------------

  /** One post as written to the output file. */
  datatype Post = Post(id: string, title: string, description: string, url: string,
                       image: string, pubDate: Option<string>, categories: seq<string>,
                       overlayColor: string, overlayOpacity: string, isRSS: bool)

  /** `substring(0, 200)` followed by '...' when the text was longer. */
  function Truncate(d: string): (r: string)
    ensures |r| <= 203
    ensures |d| <= 200 ==> r == d
    ensures |d| > 200 ==> |r| == 203 && r[..200] == d[..200] && r[200..] == "..."
  {
    d[..if |d| <= 200 then |d| else 200] + (if |d| > 200 then "..." else "")
  }

  /** The id of a post: `rss-`, the language, '-', the position and the
      URL's hash; the prefix names the language. */
  function PostId(lang: string, index: nat, hash: string -> string, url: string): (r: string)
    ensures StartsWith(r, "rss-" + lang + "-")
  {
    "rss-" + lang + "-" + Decimal(index) + "-" + hash(url)
  }

  /** Decorates the entry at position `index` of the cut list. */
  function Decorate(lang: string, index: nat, e: Entry, hash: string -> string, iso: int -> string,
                    parseDate: string -> int): (p: Post)
    ensures p.id == PostId(lang, index, hash, e.url)
    ensures p.title == e.title && p.url == e.url && p.categories == e.categories
    ensures p.description == Truncate(e.description)
    ensures p.image == "https://picsum.photos/seed/" + hash(e.url + e.title) + "/600/350"
    ensures (e.pubDate.None? || e.pubDate.value == "") <==> p.pubDate.None?
    ensures p.pubDate.Some? ==> p.pubDate.value == iso(parseDate(e.pubDate.value))
    ensures p.overlayColor == "bg-black" && p.overlayOpacity == "bg-opacity-70" && p.isRSS
  {
    Post(PostId(lang, index, hash, e.url), e.title, Truncate(e.description), e.url,
         "https://picsum.photos/seed/" + hash(e.url + e.title) + "/600/350",
         if e.pubDate.Some? && e.pubDate.value != "" then Some(iso(parseDate(e.pubDate.value))) else None,
         e.categories, "bg-black", "bg-opacity-70", true)
  }

  /** The `map((item, index) => …)` over the cut list. */
  function Decorated(lang: string, s: seq<Entry>, hash: string -> string, iso: int -> string,
                     parseDate: string -> int): (r: seq<Post>)
    ensures |r| == |s|
    ensures forall i :: 0 <= i < |s| ==> r[i] == Decorate(lang, i, s[i], hash, iso, parseDate)
  {
    seq(|s|, i requires 0 <= i < |s| => Decorate(lang, i, s[i], hash, iso, parseDate))
  }

  /** In a decimal numeral followed by '-', the first '-' is right after the digits. */
  lemma DashAfterDigits(d: string, h: string)
    requires forall k :: 0 <= k < |d| ==> '0' <= d[k] <= '9'
    ensures IndexOfChar(d + "-" + h, '-', 0) == Some(|d|)
  {
    var x := d + "-" + h;
    assert x[|d|] == '-';
    forall k | 0 <= k < |d| ensures x[k] == d[k] {
    }
  }

  /** Ids differ whenever indices differ, whatever the hash returns: the
      decimal index is followed by the first '-' after the prefix. */
  lemma {:induction false} PostIdsDistinct(lang: string, i: nat, j: nat, hash: string -> string, u: string, v: string)
    requires PostId(lang, i, hash, u) == PostId(lang, j, hash, v)
    ensures i == j
  {
    var pre := "rss-" + lang + "-";
    var x := Decimal(i) + "-" + hash(u);
    var y := Decimal(j) + "-" + hash(v);
    assert PostId(lang, i, hash, u) == pre + x;
    assert PostId(lang, j, hash, v) == pre + y;
    assert x == (pre + x)[|pre|..] == (pre + y)[|pre|..] == y;
    var di, dj := Decimal(i), Decimal(j);
    DashAfterDigits(di, hash(u));
    DashAfterDigits(dj, hash(v));
    assert di == x[..|di|] == y[..|dj|] == dj;
    DecimalInjective(i, j);
  }

  /** The posts of one language: [] when it configures no feeds. */
  function LanguagePosts(lang: string, config: Option<RssConfig>, fetch: string -> FetchOutcome,
                         hash: string -> string, parseDate: string -> int, iso: int -> string): (r: seq<Post>)
    ensures FeedsOf(config) == [] ==> r == []
    ensures FeedsOf(config) != [] ==> |r| == |Selected(config, fetch, parseDate)|
    ensures forall i, j :: 0 <= i < j < |r| ==> r[i].id != r[j].id
    ensures forall p :: p in r ==> p.isRSS && p.overlayColor == "bg-black" && |p.description| <= 203
  {
    if FeedsOf(config) == [] then []
    else
      DecoratedIdsDistinct(lang, Selected(config, fetch, parseDate), hash, iso, parseDate);
      Decorated(lang, Selected(config, fetch, parseDate), hash, iso, parseDate)
  }

  /** Decorated posts have pairwise distinct ids. */
  lemma DecoratedIdsDistinct(lang: string, s: seq<Entry>, hash: string -> string, iso: int -> string,
                             parseDate: string -> int)
    ensures var r := Decorated(lang, s, hash, iso, parseDate);
      forall i, j :: 0 <= i < j < |r| ==> r[i].id != r[j].id
  {
    var r := Decorated(lang, s, hash, iso, parseDate);
    forall i, j | 0 <= i < j < |r| ensures r[i].id != r[j].id {
      if r[i].id == r[j].id {
        PostIdsDistinct(lang, i, j, hash, s[i].url, s[j].url);
      }
    }
  }

  /** The per-language block of the main loop. */
  method BuildLanguagePosts(lang: string, config: Option<RssConfig>, fetch: string -> FetchOutcome,
                            hash: string -> string, parseDate: string -> int, iso: int -> string)
    returns (posts: seq<Post>)
    ensures posts == LanguagePosts(lang, config, fetch, hash, parseDate, iso)
  {
    var feeds := FeedsOf(config);
    var limit := LimitOf(config);
    if |feeds| == 0 {
      return [];
    }
    var langPosts := CollectPosts(feeds, fetch);
    langPosts := DedupByUrl(langPosts);
    var cut := SortedCut(langPosts, KeyOf(parseDate), limit);
    posts := Decorated(lang, cut, hash, iso, parseDate);
    LanguagePostsOf(lang, config, fetch, hash, parseDate, iso);
  }

  /** Sorts a copy of the list in place, then keeps `slice(0, limit)`. */
  method SortedCut(s: seq<Entry>, key: Entry -> int, limit: int) returns (cut: seq<Entry>)
    ensures cut == SortDesc(s, key)[..SliceEnd(|s|, limit)]
  {
    var a := new Entry[|s|](i requires 0 <= i < |s| => s[i]);
    assert a[..] == s;
    SortInPlace(a, key);
    cut := a[..SliceEnd(a.Length, limit)];
  }

  lemma LanguagePostsOf(lang: string, config: Option<RssConfig>, fetch: string -> FetchOutcome,
                        hash: string -> string, parseDate: string -> int, iso: int -> string)
    requires FeedsOf(config) != []
    ensures LanguagePosts(lang, config, fetch, hash, parseDate, iso) ==
      Decorated(lang, Selected(config, fetch, parseDate), hash, iso, parseDate)
  {
  }

  const Languages: seq<string> := ["zh", "en"]

  /** The main loop over the supported languages; `configOf` stands for
      reading each language's content file (null when it is missing or
      unreadable). */
  method BuildAll(configOf: string -> Option<RssConfig>, fetch: string -> FetchOutcome,
                  hash: string -> string, parseDate: string -> int, iso: int -> string)
    returns (allData: map<string, seq<Post>>)
    ensures allData.Keys == {"zh", "en"}
    ensures forall l :: l in allData ==> allData[l] == LanguagePosts(l, configOf(l), fetch, hash, parseDate, iso)
  {
    allData := map[];
    var i := 0;
    while i < |Languages|
      invariant i <= |Languages|
      invariant allData.Keys == set k | 0 <= k < i :: Languages[k]
      invariant forall l :: l in allData ==> allData[l] == LanguagePosts(l, configOf(l), fetch, hash, parseDate, iso)
    {
      var lang := Languages[i];
      var posts := BuildLanguagePosts(lang, configOf(lang), fetch, hash, parseDate, iso);
      allData := allData[lang := posts];
      i := i + 1;
    }
    assert allData.Keys == {Languages[0], Languages[1]};
  }
}
