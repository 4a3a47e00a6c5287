/** Locale tables and locale-aware paths (src/lib/i18n.ts). */
module I18n {
  import opened Text

  const Locales: seq<string> := ["zh", "en"]
  const DefaultLocale: string := "zh"

  /** `locales.includes(s)` */
  predicate IsValidLocale(s: string)
    ensures IsValidLocale(s) ==> |s| == 2 && '/' !in s
  {
    s in Locales
  }

  /** The metadata of one locale. */
  datatype LocaleInfo = LocaleInfo(labelText: string, name: string, hrefLang: string)

  /** The `localeConfig` table: every entry has a label and a name, and a
      language tag that starts with the locale code. */
  function LocaleConfig(l: string): (r: LocaleInfo)
    requires IsValidLocale(l)
    ensures r.labelText != "" && r.name != ""
    ensures StartsWith(r.hrefLang, l)
  {
    if l == "zh" then LocaleInfo("中", "中文", "zh-CN") else LocaleInfo("EN", "English", "en")
  }

  /** getLocaleLabel: the table entry, which is never empty. */
  function LocaleLabel(l: string): (r: string)
    requires IsValidLocale(l)
    ensures r != ""
    ensures l == "zh" ==> r == "中"
    ensures l == "en" ==> r == "EN"
  {
    LocaleConfig(l).labelText
  }

  /** getLocaleName */
  function LocaleName(l: string): (r: string)
    requires IsValidLocale(l)
    ensures r != ""
    ensures l == "zh" ==> r == "中文"
    ensures l == "en" ==> r == "English"
  {
    LocaleConfig(l).name
  }

  /** getHrefLang: a language tag that starts with the locale code. */
  function HrefLang(l: string): (r: string)
    requires IsValidLocale(l)
    ensures StartsWith(r, l)
    ensures l == "zh" ==> r == "zh-CN"
    ensures l == "en" ==> r == "en"
  {
    LocaleConfig(l).hrefLang
  }

  /** Different locales have different labels, names and hrefLang values. */
  lemma LocaleConfigInjective(a: string, b: string)
    requires IsValidLocale(a) && IsValidLocale(b) && a != b
    ensures LocaleLabel(a) != LocaleLabel(b)
    ensures LocaleName(a) != LocaleName(b)
    ensures HrefLang(a) != HrefLang(b)
  {
  }

  /** getLocaleFromPath: the first path segment when it is a locale,
      otherwise the default locale. */
  function LocaleFromPath(pathname: string): (r: string)
    ensures IsValidLocale(r)
    ensures Segments(pathname) != [] && IsValidLocale(Segments(pathname)[0]) ==> r == Segments(pathname)[0]
    ensures !(Segments(pathname) != [] && IsValidLocale(Segments(pathname)[0])) ==> r == DefaultLocale
  {
    var segments := Segments(pathname);
    if segments != [] && IsValidLocale(segments[0]) then segments[0] else DefaultLocale
  }

  /** `path.replace(/^\//, '')` */
  function DropOneSlash(p: string): (r: string)
    ensures StartsWith(p, "/") ==> r == p[1..]
    ensures !StartsWith(p, "/") ==> r == p
  {
    if StartsWith(p, "/") then p[1..] else p
  }

  /** `.replace(/^(zh|en)\//, '')` */
  function DropLocalePrefix(p: string): (r: string)
    ensures (StartsWith(p, "zh/") || StartsWith(p, "en/")) ==> r == p[3..]
    ensures !(StartsWith(p, "zh/") || StartsWith(p, "en/")) ==> r == p
  {
    if StartsWith(p, "zh/") || StartsWith(p, "en/") then p[3..] else p
  }

  /** getLocalizedPath(path, locale): a path under `/locale/`. A path
      already under `/zh/` or `/en/` (with or without its leading '/') has
      that prefix replaced; any other path is put under the locale, after
      one leading '/' is dropped. */
  function LocalizedPath(path: string, locale: string): (r: string)
    requires IsValidLocale(locale)
    ensures StartsWith(r, "/" + locale + "/")
    ensures StartsWith(path, "/zh/") || StartsWith(path, "/en/") ==>
      r == "/" + locale + path[3..]
    ensures StartsWith(path, "zh/") || StartsWith(path, "en/") ==>
      r == "/" + locale + "/" + path[3..]
    ensures StartsWith(path, "/") && !StartsWith(path[1..], "zh/") && !StartsWith(path[1..], "en/") ==>
      r == "/" + locale + path
    ensures !StartsWith(path, "/") && !StartsWith(path, "zh/") && !StartsWith(path, "en/") ==>
      r == "/" + locale + "/" + path
  {
    LocalePrefixCases(path);
    "/" + locale + "/" + DropLocalePrefix(DropOneSlash(path))
  }

  /** What getLocalizedPath keeps of a path, case by case. */
  lemma LocalePrefixCases(path: string)
    ensures StartsWith(path, "/zh/") || StartsWith(path, "/en/") ==>
      "/" + DropLocalePrefix(DropOneSlash(path)) == path[3..]
    ensures StartsWith(path, "/") && !StartsWith(path[1..], "zh/") && !StartsWith(path[1..], "en/") ==>
      "/" + DropLocalePrefix(DropOneSlash(path)) == path
    ensures StartsWith(path, "zh/") || StartsWith(path, "en/") ==>
      DropLocalePrefix(DropOneSlash(path)) == path[3..]
  {
    if StartsWith(path, "zh/") || StartsWith(path, "en/") {
      assert path[..3][0] == path[0] == path[..1][0];
    }
    if StartsWith(path, "/zh/") || StartsWith(path, "/en/") {
      SlashLocaleCase(path);
    }
    if StartsWith(path, "/") {
      assert path[..1] == "/";
      assert "/" + path[1..] == path;
    }
  }

  /** A path under `/zh/` or `/en/` keeps what follows the locale. */
  lemma SlashLocaleCase(path: string)
    requires StartsWith(path, "/zh/") || StartsWith(path, "/en/")
    ensures "/" + DropLocalePrefix(DropOneSlash(path)) == path[3..]
  {
    var head := path[..4];
    assert head == "/zh/" || head == "/en/";
    assert path[0] == head[0] && path[3] == head[3];
    assert DropOneSlash(path) == path[1..];
    var q := path[1..];
    assert q[..3] == head[1..];
    assert StartsWith(q, "zh/") || StartsWith(q, "en/");
    assert DropLocalePrefix(q) == path[4..];
    assert path[3..] == [path[3]] + path[4..];
  }

  /** Localising an already localised path replaces its locale; for the
      same locale twice this is idempotence. */
  lemma Relocalize(path: string, a: string, b: string)
    requires IsValidLocale(a) && IsValidLocale(b)
    ensures LocalizedPath(LocalizedPath(path, a), b) == LocalizedPath(path, b)
  {
    var rest := DropLocalePrefix(DropOneSlash(path));
    var p := LocalizedPath(path, a);
    assert DropOneSlash(p) == a + "/" + rest;
    assert (a + "/" + rest)[..3] == a + "/";
    assert DropLocalePrefix(a + "/" + rest) == rest;
  }

  /** The first segment of a localised path is its locale. */
  lemma LocalizedPathLocale(path: string, l: string)
    requires IsValidLocale(l)
    ensures LocaleFromPath(LocalizedPath(path, l)) == l
  {
    var rest := DropLocalePrefix(DropOneSlash(path));
    assert LocalizedPath(path, l) == "/" + l + ("/" + rest);
    FirstSegment(l, "/" + rest);
  }

  /** `locales.filter(l => l !== current)` */
  function AlternateLocales(current: string): (r: seq<string>)
    ensures forall x :: x in r <==> IsValidLocale(x) && x != current
    ensures IsValidLocale(current) ==> |r| == 1
    ensures !IsValidLocale(current) ==> r == Locales
  {
    Without(Locales, current)
  }

  /** The sequence without the occurrences of `x`, in order. */
  function Without(s: seq<string>, x: string): (r: seq<string>)
    ensures forall y :: y in r <==> y in s && y != x
    ensures x !in s ==> r == s
    ensures NoDup(s) && x in s ==> |r| == |s| - 1
  {
    if s == [] then []
    else (if s[0] != x then [s[0]] else []) + Without(s[1..], x)
  }
}
