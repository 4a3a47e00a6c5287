/** Text-level extraction from RSS/Atom feeds (scripts/fetch-rss.bun.js):
    the regular expressions of stripHtml, getTagContent and getLinkHref,
    written as explicit scans with the leftmost-match, greedy and lazy
    choices that JavaScript's regex engine makes. Tag and attribute names
    are matched ignoring ASCII case, as the `i` flag does. */
module FeedText {
  import opened Options
  import opened Text

  // ---------------------------------------------------------------------
  // CDATA sections: /<!\[CDATA\[([\s\S]*?)\]\]>/gi replaced by the body
  // ---------------------------------------------------------------------

  const CdataOpen: string := "<![CDATA["
  const CdataClose: string := "]]>"

  /** If a CDATA section starts at `s[0]`, the index of its (first) `]]>`. */
  function CdataClosing(s: string): (r: Option<nat>)
    ensures r.Some? ==> |CdataOpen| <= r.value && r.value + |CdataClose| <= |s|
  {
    if StartsWithCI(s, CdataOpen) then IndexOfFrom(s, CdataClose, |CdataOpen|) else None
  }

  /** Every CDATA section, scanning left to right without rescanning the
      replacement, becomes its body. */
  function UnwrapCdata(s: string): (r: string)
    decreases |s|
    ensures |r| <= |s|
    ensures forall c :: c in r ==> c in s
  {
    if s == [] then []
    else match CdataClosing(s)
      case Some(e) => s[|CdataOpen|..e] + UnwrapCdata(s[e + |CdataClose|..])
      case None => [s[0]] + UnwrapCdata(s[1..])
  }

  /** Text without any CDATA opener is left as it is. */
  lemma {:induction false} UnwrapCdataNoSection(s: string)
    requires forall i :: 0 <= i ==> !MatchesAtCI(s, i, CdataOpen)
    ensures UnwrapCdata(s) == s
  {
    if s != [] {
      assert !MatchesAtCI(s, 0, CdataOpen);
      forall i | 0 <= i ensures !MatchesAtCI(s[1..], i, CdataOpen) {
        assert !MatchesAtCI(s, i + 1, CdataOpen);
        if i + |CdataOpen| <= |s[1..]| {
          assert s[1..][i..i + |CdataOpen|] == s[i + 1..i + 1 + |CdataOpen|];
        }
      }
      UnwrapCdataNoSection(s[1..]);
    }
  }

  /** A CDATA section after text without `<` becomes its body; the scan then
      goes on after `]]>`. */
  lemma UnwrapCdataSection(a: string, x: string, b: string)
    requires '<' !in a && ']' !in x
    ensures UnwrapCdata(a + CdataOpen + x + CdataClose + b) == a + x + UnwrapCdata(b)
  {
    var t := CdataOpen + x + CdataClose + b;
    assert a + CdataOpen + x + CdataClose + b == a + t;
    UnwrapPlainPrefix(a, t);
    UnwrapLeadingCdata(x, b);
  }

  /** Text without `<` in front is kept as it is. */
  lemma {:induction false} UnwrapPlainPrefix(a: string, t: string)
    requires '<' !in a
    ensures UnwrapCdata(a + t) == a + UnwrapCdata(t)
    decreases |a|
  {
    if a != [] {
      UnwrapPlainStep(a, t);
      UnwrapPlainPrefix(a[1..], t);
      assert a == [a[0]] + a[1..];
    } else {
      assert a + t == t;
    }
  }

  /** One step of the scan over text without `<` in front. */
  lemma UnwrapPlainStep(a: string, t: string)
    requires a != [] && a[0] != '<'
    ensures UnwrapCdata(a + t) == [a[0]] + UnwrapCdata(a[1..] + t)
  {
    assert a + t == [a[0]] + (a[1..] + t);
    UnwrapPlainFirst(a[0], a[1..] + t);
  }

  lemma UnwrapLeadingCdata(x: string, b: string)
    requires ']' !in x
    ensures UnwrapCdata(CdataOpen + x + CdataClose + b) == x + UnwrapCdata(b)
  {
    var s := CdataOpen + x + CdataClose + b;
    CdataAtStart(x, b);
    var e := |CdataOpen| + |x|;
    assert s[|CdataOpen|..e] == x;
    assert s[e + |CdataClose|..] == b;
  }

  /** A first character other than `<` is kept as it is. */
  lemma UnwrapPlainFirst(c: char, t: string)
    requires c != '<'
    ensures UnwrapCdata([c] + t) == [c] + UnwrapCdata(t)
  {
    NoCdataAt([c] + t);
    assert ([c] + t)[1..] == t;
  }

  /** Text that does not start with `<` opens no CDATA section. */
  lemma NoCdataAt(s: string)
    requires s != [] && s[0] != '<'
    ensures CdataClosing(s).None?
  {
    if |CdataOpen| <= |s| {
      assert Lower(s[0..|CdataOpen|])[0] == LowerChar(s[0]);
      assert Lower(CdataOpen)[0] == '<';
    }
  }

  /** A section whose body holds no `]` closes at the first `]]>` after it. */
  lemma CdataAtStart(x: string, b: string)
    requires ']' !in x
    ensures CdataClosing(CdataOpen + x + CdataClose + b) == Some(|CdataOpen| + |x|)
  {
    var s := CdataOpen + x + CdataClose + b;
    var e := |CdataOpen| + |x|;
    assert s[0..|CdataOpen|] == CdataOpen;
    assert StartsWithCI(s, CdataOpen);
    assert s[e..e + |CdataClose|] == CdataClose;
    forall k | |CdataOpen| <= k < e ensures !MatchesAt(s, k, CdataClose) {
      assert s[k] == x[k - |CdataOpen|];
    }
    IndexOfFromFirst(s, CdataClose, |CdataOpen|, e);
  }

  // ---------------------------------------------------------------------
  // Tags: /<[^>]+>/g replaced by ''
  // ---------------------------------------------------------------------

  /** If a `<[^>]+>` run starts at `s[0]`, the index of its closing `>`:
      the first `>` after the `<`, which must not follow it directly. */
  function TagEnd(s: string): (r: Option<nat>)
    ensures r.Some? ==> 2 <= r.value < |s| && s[0] == '<' && s[r.value] == '>'
    ensures r.Some? ==> forall k :: 1 <= k < r.value ==> s[k] != '>'
    ensures r.None? && |s| >= 2 && s[0] == '<' && s[1] != '>' ==> '>' !in s[1..]
  {
    if |s| >= 2 && s[0] == '<' && s[1] != '>' then IndexOfChar(s, '>', 2) else None
  }

  /** No `<`, then one or more characters other than `>`, then `>`, anywhere. */
  ghost predicate NoTagRun(s: string) {
    forall i :: 0 <= i < |s| ==> TagEnd(s[i..]).None?
  }

  /** Deletes every `<[^>]+>` run, scanning left to right. */
  function RemoveTags(s: string): (r: string)
    decreases |s|
    ensures |r| <= |s|
    ensures forall c :: c in r ==> c in s
  {
    if s == [] then []
    else match TagEnd(s)
      case Some(e) => RemoveTags(s[e + 1..])
      case None => [s[0]] + RemoveTags(s[1..])
  }

  lemma {:induction false} RemoveTagsKeepsLeadingClose(s: string)
    requires s != [] && s[0] == '>'
    ensures RemoveTags(s) != [] && RemoveTags(s)[0] == '>'
  {
  }

  /** What RemoveTags leaves contains no tag run. */
  lemma {:induction false} RemoveTagsNoTagRun(s: string)
    ensures NoTagRun(RemoveTags(s))
    decreases |s|
  {
    if s == [] {
    } else if TagEnd(s).Some? {
      RemoveTagsNoTagRun(s[TagEnd(s).value + 1..]);
    } else {
      var rest := RemoveTags(s[1..]);
      var r := RemoveTags(s);
      assert r == [s[0]] + rest;
      RemoveTagsNoTagRun(s[1..]);
      forall i | 0 <= i < |r| ensures TagEnd(r[i..]).None? {
        if i > 0 {
          assert r[i..] == rest[i - 1..];
        } else if s[0] == '<' && |r| >= 2 && r[1] != '>' {
          if |s| >= 2 && s[1] == '>' {
            RemoveTagsKeepsLeadingClose(s[1..]);
          } else {
            assert |s| >= 2;
            assert '>' !in s[1..];
            assert '>' !in rest;
            assert '>' !in r[1..];
            assert forall k :: 2 <= k < |r| ==> r[k] != '>' by {
              forall k | 2 <= k < |r| ensures r[k] != '>' {
                assert r[k] == r[1..][k - 1];
              }
            }
          }
        }
      }
    }
  }

  /** Taking a substring cannot create a tag run. */
  lemma SubstringNoTagRun(s: string, a: nat, b: nat)
    requires a <= b <= |s| && NoTagRun(s)
    ensures NoTagRun(s[a..b])
  {
    var t := s[a..b];
    forall i | 0 <= i < |t| ensures TagEnd(t[i..]).None? {
      var u, v := t[i..], s[a + i..];
      assert TagEnd(v).None?;
    }
  }

  /** stripHtml(html): `''` for an empty input; otherwise CDATA sections are
      unwrapped, tag runs deleted and the result trimmed. */
  function StripHtml(s: string): (r: string)
    ensures s == "" ==> r == ""
    ensures s != "" ==> r == Trim(RemoveTags(UnwrapCdata(s)))
    ensures NoTagRun(r)
    ensures r == [] || (!IsWhitespace(r[0]) && !IsWhitespace(r[|r| - 1]))
  {
    if s == "" then ""
    else
      RemoveTagsNoTagRun(UnwrapCdata(s));
      TrimNoTagRun(RemoveTags(UnwrapCdata(s)));
      Trim(RemoveTags(UnwrapCdata(s)))
  }

  /** Trimming cannot create a tag run. */
  lemma TrimNoTagRun(s: string)
    requires NoTagRun(s)
    ensures NoTagRun(Trim(s))
  {
    var t := Trim(s);
    var a := LeadingWs(s);
    assert t == s[a..a + |t|];
    SubstringNoTagRun(s, a, a + |t|);
  }

  lemma {:induction false} RemoveTagsNoOpen(s: string)
    requires '<' !in s
    ensures RemoveTags(s) == s
    decreases |s|
  {
    if s != [] {
      RemoveTagsNoOpen(s[1..]);
    }
  }

  /** A tag after text without `<` is deleted, text before it kept. */
  lemma {:induction false} RemoveTagsAround(a: string, t: string, b: string)
    requires '<' !in a && t != [] && '>' !in t
    ensures RemoveTags(a + "<" + t + ">" + b) == a + RemoveTags(b)
    decreases |a|
  {
    var s := a + "<" + t + ">" + b;
    if a == [] {
      assert s == "<" + t + ">" + b;
      assert s[1] == t[0] && s[|t| + 1] == '>';
      forall k | 2 <= k < |t| + 1 ensures s[k] != '>' {
        assert s[k] == t[k - 1];
      }
      assert TagEnd(s) == Some(|t| + 1);
      assert s[|t| + 2..] == b;
    } else {
      assert s[0] == a[0];
      assert s[1..] == a[1..] + "<" + t + ">" + b;
      RemoveTagsAround(a[1..], t, b);
    }
  }

  /** Text without `<` and without surrounding whitespace is left unchanged
      by stripHtml (so the fallback title 'Untitled' survives it). */
  lemma StripHtmlPlain(s: string)
    requires s != "" && '<' !in s
    requires !IsWhitespace(s[0]) && !IsWhitespace(s[|s| - 1])
    ensures StripHtml(s) == s
  {
    forall i | 0 <= i ensures !MatchesAtCI(s, i, CdataOpen) {
      if i + |CdataOpen| <= |s| {
        assert s[i] in s;
        assert Lower(s[i..i + |CdataOpen|])[0] == LowerChar(s[i]) != '<';
      }
    }
    UnwrapCdataNoSection(s);
    RemoveTagsNoOpen(s);
    assert LeadingWs(s) == 0;
    assert s[0..] == s;
    assert TrailingWs(s) == 0;
  }

  /** The text around a tag survives stripHtml, joined and trimmed:
      `a<t>b` becomes `Trim(a + b)` when `a`, `t` and `b` hold no `<` and the
      tag is not a `<!…` (which could open a CDATA section). */
  lemma StripHtmlTagged(a: string, t: string, b: string)
    requires '<' !in a && '<' !in b && '<' !in t && '>' !in t
    requires t != [] && t[0] != '!'
    ensures StripHtml(a + "<" + t + ">" + b) == Trim(a + b)
  {
    var s := a + "<" + t + ">" + b;
    forall i | 0 <= i ensures !MatchesAtCI(s, i, CdataOpen) {
      if i + |CdataOpen| <= |s| {
        var w := Lower(s[i..i + |CdataOpen|]);
        assert w[0] == LowerChar(s[i]) && w[1] == LowerChar(s[i + 1]);
        if i < |a| {
          assert s[i] == a[i];
        } else if i == |a| {
          assert s[i + 1] == t[0];
        } else if i < |a| + 1 + |t| {
          assert s[i] == t[i - |a| - 1];
        } else if i > |a| + 1 + |t| {
          assert s[i] == b[i - |a| - 2 - |t|];
        }
      }
    }
    UnwrapCdataNoSection(s);
    RemoveTagsAround(a, t, b);
    RemoveTagsNoOpen(b);
  }

  // ---------------------------------------------------------------------
  // Elements: /<tag(?:\s+[^>]*)?>([\s\S]*?)<\/tag>/i
  // ---------------------------------------------------------------------

  /** A match of an element: the `<` at `start`, the body `[bodyStart, bodyEnd)`,
      and `end` just after the closing tag. */
  datatype ElementMatch = ElementMatch(start: nat, bodyStart: nat, bodyEnd: nat, end: nat)

  /** The closing tag `</tag>`. */
  function Closing(tag: string): string {
    "</" + tag + ">"
  }

  /** The element match starting at `i`, if any. After the name comes `>` or
      whitespace (so a longer name never matches); the opening tag ends at
      the first `>`; the lazy body ends at the first closing tag after it. */
  function ElementAt(s: string, i: nat, tag: string): (r: Option<ElementMatch>)
    ensures r.Some? ==> r.value.start == i && i + 1 + |tag| < r.value.bodyStart <= r.value.bodyEnd < r.value.end <= |s|
    ensures r.Some? ==> MatchesAtCI(s, i, "<" + tag)
    ensures r.Some? ==> s[i + 1 + |tag|] == '>' || IsWhitespace(s[i + 1 + |tag|])
    ensures r.Some? ==> s[r.value.bodyStart - 1] == '>'
    ensures r.Some? ==> forall k :: i + 1 + |tag| <= k < r.value.bodyStart - 1 ==> s[k] != '>'
    ensures r.Some? ==> MatchesAtCI(s, r.value.bodyEnd, Closing(tag))
    ensures r.Some? ==> r.value.end == r.value.bodyEnd + |Closing(tag)|
    ensures r.Some? ==> forall k :: r.value.bodyStart <= k < r.value.bodyEnd ==> !MatchesAtCI(s, k, Closing(tag))
    ensures i >= |s| ==> r.None?
  {
    var p := i + 1 + |tag|;
    if !MatchesAtCI(s, i, "<" + tag) || p >= |s| || !(s[p] == '>' || IsWhitespace(s[p])) then None
    else match IndexOfChar(s, '>', p)
      case None => None
      case Some(q) =>
        match IndexOfCI(s, Closing(tag), q + 1)
        case None => None
        case Some(c) => Some(ElementMatch(i, q + 1, c, c + |Closing(tag)|))
  }

  /** The first of the alternative names that matches at `i`. */
  function ElementAtOneOf(s: string, i: nat, tags: seq<string>): (r: Option<ElementMatch>)
    ensures r.Some? ==> r.value.start == i && i < r.value.bodyStart <= r.value.bodyEnd < r.value.end <= |s|
    ensures i >= |s| ==> r.None?
  {
    if tags == [] then None
    else match ElementAt(s, i, tags[0])
      case Some(m) => Some(m)
      case None => ElementAtOneOf(s, i, tags[1..])
  }

  /** The leftmost element match at or after `from`. */
  function FindElement(s: string, from: nat, tags: seq<string>): (r: Option<ElementMatch>)
    decreases |s| - from
    ensures r.Some? ==> from <= r.value.start && ElementAtOneOf(s, r.value.start, tags) == r
    ensures r.Some? ==> r.value.start < r.value.end <= |s|
    ensures r.Some? ==> forall k :: from <= k < r.value.start ==> ElementAtOneOf(s, k, tags).None?
    ensures r.None? ==> forall k :: from <= k ==> ElementAtOneOf(s, k, tags).None?
  {
    if from >= |s| then None
    else match ElementAtOneOf(s, from, tags)
      case Some(m) => Some(m)
      case None => FindElement(s, from + 1, tags)
  }

  /** getTagContent(xml, tag): the CDATA-unwrapped, trimmed body of the first
      `tag` element, or null when there is none. */
  function GetTagContent(xml: string, tag: string): (r: Option<string>)
    ensures FindElement(xml, 0, [tag]).None? <==> r.None?
    ensures r.Some? ==> var m := FindElement(xml, 0, [tag]).value;
      r.value == Trim(UnwrapCdata(xml[m.bodyStart..m.bodyEnd]))
    ensures r.Some? ==> r.value == [] || (!IsWhitespace(r.value[0]) && !IsWhitespace(r.value[|r.value| - 1]))
  {
    match FindElement(xml, 0, [tag])
    case None => None
    case Some(m) => Some(Trim(UnwrapCdata(xml[m.bodyStart..m.bodyEnd])))
  }

  /** The first element, written plainly after text without `<` and with a
      body without `<`, gives its trimmed, unwrapped body. */
  lemma GetTagContentFirst(a: string, tag: string, body: string, rest: string)
    requires '<' !in a && '<' !in body
    ensures var s := a + "<" + tag + ">" + body + Closing(tag) + rest;
      GetTagContent(s, tag) == Some(Trim(UnwrapCdata(body)))
  {
    var s := a + "<" + tag + ">" + body + Closing(tag) + rest;
    PlainShapeContent(s, a, tag, body, rest);
  }

  lemma PlainShapeContent(s: string, a: string, tag: string, body: string, rest: string)
    requires '<' !in a && '<' !in body
    requires s == a + "<" + tag + ">" + body + Closing(tag) + rest
    ensures GetTagContent(s, tag) == Some(Trim(UnwrapCdata(body)))
  {
    var i := |a|;
    var p := i + 1 + |tag|;
    var c := p + 1 + |body|;
    ElementShapeSlices(a, tag, body, rest);
    PlainElementAt(a, tag, body, rest);
    ContentOfFirstElement(s, i, tag, ElementMatch(i, p + 1, c, c + |Closing(tag)|), body);
  }

  lemma ElementShapeSlices(a: string, tag: string, body: string, rest: string)
    ensures var s := a + "<" + tag + ">" + body + Closing(tag) + rest;
      var p := |a| + 1 + |tag|;
      s[..|a|] == a && s[p + 1..p + 1 + |body|] == body
  {
    var s := a + "<" + tag + ">" + body + Closing(tag) + rest;
    var p := |a| + 1 + |tag|;
    assert s[..|a|] == a;
    assert s[p + 1..p + 1 + |body|] == body;
  }

  /** An element matched after a prefix without `<` is the first one. */
  lemma ContentOfFirstElement(s: string, i: nat, tag: string, m: ElementMatch, body: string)
    requires i <= |s| && '<' !in s[..i] && ElementAt(s, i, tag) == Some(m)
    requires s[m.bodyStart..m.bodyEnd] == body
    ensures GetTagContent(s, tag) == Some(Trim(UnwrapCdata(body)))
  {
    assert ElementAtOneOf(s, i, [tag]) == Some(m);
    NoElementBefore(s, i, tag);
    FindElementFirst(s, 0, [tag], i);
  }

  /** The element written plainly at `|a|`, with a body without `<`, is
      matched there. */
  lemma PlainElementAt(a: string, tag: string, body: string, rest: string)
    requires '<' !in body
    ensures var i, p := |a|, |a| + 1 + |tag|; var c := p + 1 + |body|;
      ElementAt(a + "<" + tag + ">" + body + Closing(tag) + rest, i, tag) ==
        Some(ElementMatch(i, p + 1, c, c + |Closing(tag)|))
  {
    var s := a + "<" + tag + ">" + body + Closing(tag) + rest;
    var i := |a|;
    var p := i + 1 + |tag|;
    var c := p + 1 + |body|;
    assert s[i..p] == "<" + tag;
    assert MatchesAtCI(s, i, "<" + tag);
    assert s[p] == '>';
    assert IndexOfChar(s, '>', p) == Some(p);
    assert s[c..c + |Closing(tag)|] == Closing(tag);
    assert s[p + 1..c] == body;
    ClosingAfterPlainBody(s, tag, p, c, body);
  }

  /** After a body without `<`, the first closing tag is the one right
      after the body. */
  lemma ClosingAfterPlainBody(s: string, tag: string, p: nat, c: nat, body: string)
    requires p + 1 + |body| == c && c + |Closing(tag)| <= |s|
    requires s[p + 1..c] == body && '<' !in body
    requires s[c..c + |Closing(tag)|] == Closing(tag)
    ensures IndexOfCI(s, Closing(tag), p + 1) == Some(c)
  {
    forall k | p + 1 <= k < c ensures !MatchesAtCI(s, k, Closing(tag)) {
      assert s[k] == body[k - p - 1];
      if k + |Closing(tag)| <= |s| {
        assert Lower(s[k..k + |Closing(tag)|])[0] == LowerChar(s[k]);
        assert Lower(Closing(tag))[0] == '<';
      }
    }
    IndexOfCIFirst(s, Closing(tag), p + 1, c);
  }

  /** No element of any name starts inside a prefix without `<`. */
  lemma NoElementBefore(s: string, i: nat, tag: string)
    requires i <= |s| && '<' !in s[..i]
    ensures forall k :: 0 <= k < i ==> ElementAtOneOf(s, k, [tag]).None?
  {
    forall k | 0 <= k < i ensures ElementAtOneOf(s, k, [tag]).None? {
      assert s[k] == s[..i][k];
      NoElementAt(s, k, tag);
    }
  }

  /** No element starts at a character other than `<`. */
  lemma NoElementAt(s: string, k: nat, tag: string)
    requires k < |s| && s[k] != '<'
    ensures ElementAtOneOf(s, k, [tag]).None?
  {
    FirstOfMatchCI(s, k, "<" + tag);
    assert [tag][1..] == [];
  }

  /** A case-insensitive match of a pattern starting with `<` starts at a `<`. */
  lemma FirstOfMatchCI(s: string, k: nat, p: string)
    requires k < |s| && p != [] && p[0] == '<'
    ensures MatchesAtCI(s, k, p) ==> s[k] == '<'
  {
    if MatchesAtCI(s, k, p) {
      var t := s[k..k + |p|];
      assert Lower(t)[0] == LowerChar(t[0]) && t[0] == s[k];
      assert Lower(p)[0] == LowerChar(p[0]);
    }
  }

  /** The first position from which a match starts is what FindElement
      returns. */
  lemma FindElementFirst(s: string, from: nat, tags: seq<string>, i: nat)
    requires from <= i && ElementAtOneOf(s, i, tags).Some?
    requires forall k :: from <= k < i ==> ElementAtOneOf(s, k, tags).None?
    ensures FindElement(s, from, tags) == ElementAtOneOf(s, i, tags)
  {
    var r := FindElement(s, from, tags);
    if r.Some? {
      assert !(r.value.start < i);
      assert !(i < r.value.start);
    }
  }

  /** A name followed by anything but `>` or whitespace does not open the
      element: `<titles>` is not a `<title>`. */
  lemma LongerNameNeverMatches(s: string, i: nat, tag: string)
    requires i + 1 + |tag| < |s|
    requires s[i + 1 + |tag|] != '>' && !IsWhitespace(s[i + 1 + |tag|])
    ensures ElementAt(s, i, tag).None?
  {
  }

  /** `x || fallback` on the result of getTagContent: null and '' are falsy. */
  function OrElse(v: Option<string>, fallback: Option<string>): (r: Option<string>)
    ensures v.Some? && v.value != "" ==> r == v
    ensures !(v.Some? && v.value != "") ==> r == fallback
  {
    if v.Some? && v.value != "" then v else fallback
  }

  // ---------------------------------------------------------------------
  // Attributes: /<tag[^>]*attr=["']([^"']+)["'][^>]*>/i
  // ---------------------------------------------------------------------

  /** A match of an attribute: its value, the position of `attr=` and `end`,
      just after the `>` that closes the match. */
  datatype AttrMatch = AttrMatch(value: string, at: nat, end: nat)

  predicate IsQuote(c: char) {
    c == '"' || c == '\''
  }

  /** First index `k >= from` holding a quote of either kind. */
  function QuoteFrom(s: string, from: nat): (r: Option<nat>)
    decreases |s| - from
    ensures r.Some? ==> from <= r.value < |s| && IsQuote(s[r.value])
    ensures r.Some? ==> forall k :: from <= k < r.value ==> !IsQuote(s[k])
  {
    if from >= |s| then None
    else if IsQuote(s[from]) then Some(from)
    else QuoteFrom(s, from + 1)
  }

  /** The rest of the pattern after the `[^>]*` prefix, tried at `h`: `attr=`,
      a quote, one or more non-quote characters up to the next quote (of
      either kind), then `[^>]*>`. */
  function AttrValueAt(s: string, h: nat, attr: string): (r: Option<AttrMatch>)
    ensures r.Some? ==> r.value.at == h && MatchesAtCI(s, h, attr + "=")
    ensures r.Some? ==> |r.value.value| > 0 && forall k :: 0 <= k < |r.value.value| ==> !IsQuote(r.value.value[k])
    ensures r.Some? ==> h < r.value.end <= |s| && s[r.value.end - 1] == '>'
  {
    var a := h + |attr| + 1;
    if !MatchesAtCI(s, h, attr + "=") || a >= |s| || !IsQuote(s[a]) then None
    else match QuoteFrom(s, a + 1)
      case None => None
      case Some(c) =>
        if c == a + 1 then None
        else match IndexOfChar(s, '>', c + 1)
          case None => None
          case Some(g) => Some(AttrMatch(s[a + 1..c], h, g + 1))
  }

  /** The last position in `[lo, hi)` that satisfies `p`: where a greedy
      `[^>]*` backs off to, trying positions from the right. */
  function LastWhere(p: nat -> bool, lo: nat, hi: nat): (r: Option<nat>)
    decreases hi
    ensures r.Some? ==> lo <= r.value < hi && p(r.value)
  {
    if hi <= lo then None
    else if p(hi - 1) then Some(hi - 1)
    else LastWhere(p, lo, hi - 1)
  }

  /** No position after the one found satisfies `p`. */
  lemma {:induction false} LastWhereIsLast(p: nat -> bool, lo: nat, hi: nat, h: nat)
    requires LastWhere(p, lo, hi).Some? && LastWhere(p, lo, hi).value < h < hi
    decreases hi
    ensures !p(h)
  {
    if h < hi - 1 && !p(hi - 1) {
      LastWhereIsLast(p, lo, hi - 1, h);
    }
  }

  /** When nothing is found, no position of the range satisfies `p`. */
  lemma {:induction false} LastWhereNone(p: nat -> bool, lo: nat, hi: nat, h: nat)
    requires LastWhere(p, lo, hi).None? && lo <= h < hi
    decreases hi
    ensures !p(h)
  {
    if h < hi - 1 {
      LastWhereNone(p, lo, hi - 1, h);
    }
  }

  /** Whether the rest of the pattern matches at a position. */
  function AttrValueMatches(s: string, attr: string): nat -> bool {
    (h: nat) => AttrValueAt(s, h, attr).Some?
  }

  /** The match of the rest of the pattern at the last position of
      `[lo, hi)` where it matches. */
  function LastAttr(s: string, lo: nat, hi: nat, attr: string): (r: Option<AttrMatch>)
    ensures r.Some? ==> lo <= r.value.at < hi && AttrValueAt(s, r.value.at, attr) == r
  {
    match LastWhere(AttrValueMatches(s, attr), lo, hi)
      case None => None
      case Some(h) => AttrValueAt(s, h, attr)
  }

  /** The match found is the last one: the pattern matches at no later
      position of the range. */
  lemma LastAttrIsLast(s: string, lo: nat, hi: nat, attr: string)
    requires LastAttr(s, lo, hi, attr).Some?
    ensures forall h :: LastAttr(s, lo, hi, attr).value.at < h < hi ==> AttrValueAt(s, h, attr).None?
  {
    var p := AttrValueMatches(s, attr);
    forall h | LastAttr(s, lo, hi, attr).value.at < h < hi ensures AttrValueAt(s, h, attr).None? {
      LastWhereIsLast(p, lo, hi, h);
      assert !p(h);
    }
  }

  /** When nothing is found, the pattern matches nowhere in the range. */
  lemma LastAttrNone(s: string, lo: nat, hi: nat, attr: string)
    requires LastAttr(s, lo, hi, attr).None?
    ensures forall h :: lo <= h < hi ==> AttrValueAt(s, h, attr).None?
  {
    var p := AttrValueMatches(s, attr);
    forall h | lo <= h < hi ensures AttrValueAt(s, h, attr).None? {
      LastWhereNone(p, lo, hi, h);
      assert !p(h);
    }
  }

  /** The attribute match starting at `i`: `attr=` must start before the
      first `>` after `<tag`. */
  function AttrTagAt(s: string, i: nat, tag: string, attr: string): (r: Option<AttrMatch>)
    ensures r.Some? ==> MatchesAtCI(s, i, "<" + tag) && i < r.value.end <= |s|
    ensures r.Some? ==> i + 1 + |tag| <= r.value.at < r.value.end
    ensures r.Some? ==> forall k :: i + 1 + |tag| <= k < r.value.at ==> s[k] != '>'
    ensures r.Some? ==> |r.value.value| > 0
    ensures i >= |s| ==> r.None?
  {
    if !MatchesAtCI(s, i, "<" + tag) then None
    else match IndexOfChar(s, '>', i + 1 + |tag|)
      case None => None
      case Some(e) => LastAttr(s, i + 1 + |tag|, e + 1, attr)
  }

  /** `i` is the leftmost position at or after `from` where the attribute
      pattern matches. */
  ghost predicate FirstAttrTag(s: string, from: nat, i: nat, tag: string, attr: string) {
    from <= i && AttrTagAt(s, i, tag, attr).Some? &&
    forall k :: from <= k < i ==> AttrTagAt(s, k, tag, attr).None?
  }

  /** The leftmost attribute match at or after `from`. */
  function FindAttrTag(s: string, from: nat, tag: string, attr: string): (r: Option<AttrMatch>)
    decreases |s| - from
    ensures r.Some? ==> exists i :: FirstAttrTag(s, from, i, tag, attr) && AttrTagAt(s, i, tag, attr) == r
    ensures r.Some? ==> from < r.value.end <= |s| && |r.value.value| > 0
    ensures r.None? ==> forall k :: from <= k ==> AttrTagAt(s, k, tag, attr).None?
  {
    if from >= |s| then None
    else match AttrTagAt(s, from, tag, attr)
      case Some(m) => Some(m)
      case None => FindAttrTag(s, from + 1, tag, attr)
  }

  /** getLinkHref(xml): the quoted href of the first `<link …>` that has one
      (the last such attribute inside that tag, as the greedy pattern
      prefers), else the text of the first `<link>` element when it is
      non-empty, else '#'. It is never empty. */
  function GetLinkHref(xml: string): (r: string)
    ensures r != ""
    ensures FindAttrTag(xml, 0, "link", "href").Some? ==> r == FindAttrTag(xml, 0, "link", "href").value.value
    ensures FindAttrTag(xml, 0, "link", "href").None? ==>
      r == OrElse(GetTagContent(xml, "link"), Some("#")).value
  {
    match FindAttrTag(xml, 0, "link", "href")
    case Some(m) => m.value
    case None => OrElse(GetTagContent(xml, "link"), Some("#")).value
  }
}
