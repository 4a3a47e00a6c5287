/** The Astro language switch button (src/components/astro/LanguageSwitcher.jsx):
    which language it offers and which path it navigates to. */
module LanguageSwitcher {
  import opened Text
  import opened LocaleCycle

  /** The keys of the component's own `locales` table, in declaration order. */
  const SwitcherKeys: seq<string> := ["zh", "en"]

  /** `getNextLang()`. The component also reads `locales[currentLang].label`,
      which throws for a language outside the table, so `currentLang` must be
      one of its keys. */
  function NextLang(currentLang: string): (r: string)
    requires currentLang in SwitcherKeys
    ensures r in SwitcherKeys && r != currentLang
    ensures currentLang == "zh" ==> r == "en"
    ensures currentLang == "en" ==> r == "zh"
  {
    assert NoDup(SwitcherKeys);
    var i := if currentLang == "zh" then 0 else 1;
    NextKeyAt(SwitcherKeys, i);
    NextKey(SwitcherKeys, currentLang)
  }

  /** Switching twice offers the starting language again. */
  lemma NextLangInvolution(currentLang: string)
    requires currentLang in SwitcherKeys
    ensures NextLang(NextLang(currentLang)) == currentLang
  {
  }

  /** `path.replace(/^\/(en|zh)\//, '/')` */
  function DropLangPrefix(path: string): (r: string)
    ensures StartsWith(path, "/en/") || StartsWith(path, "/zh/") ==> r == path[3..]
    ensures !(StartsWith(path, "/en/") || StartsWith(path, "/zh/")) ==> r == path
  {
    if StartsWith(path, "/en/") || StartsWith(path, "/zh/") then path[3..] else path
  }

  /** The path `handleSwitch` navigates to from `currentPath`. */
  function SwitchPath(currentPath: string, nextLang: string): (r: string)
    ensures StartsWith(currentPath, "/") ==> StartsWith(r, "/" + nextLang + "/")
    ensures (StartsWith(currentPath, "/en/") || StartsWith(currentPath, "/zh/")) ==>
      r == "/" + nextLang + currentPath[3..]
    ensures !(StartsWith(currentPath, "/en/") || StartsWith(currentPath, "/zh/")) ==>
      r == "/" + nextLang + currentPath
  {
    var rest := DropLangPrefix(currentPath);
    assert StartsWith(currentPath, "/") ==> rest[0] == '/';
    var r := "/" + nextLang + rest;
    assert StartsWith(currentPath, "/") ==> r[..|nextLang| + 2] == "/" + nextLang + "/";
    r
  }

  /** A path under a language prefix keeps everything after the prefix. */
  lemma SwitchKeepsRest(lang: string, rest: string, nextLang: string)
    requires lang in SwitcherKeys
    ensures SwitchPath("/" + lang + rest, nextLang) ==
      (if StartsWith(rest, "/") then "/" + nextLang + rest else "/" + nextLang + "/" + lang + rest)
  {
    var p := "/" + lang + rest;
    if StartsWith(rest, "/") {
      assert p[..4] == "/" + lang + "/";
      assert p[3..] == rest;
    } else {
      assert !StartsWith(p, "/en/") && !StartsWith(p, "/zh/") by {
        assert |p| >= 4 ==> p[3] == rest[0];
        assert rest == [] || rest[0] != '/';
      }
    }
  }

  /** Switching from a page under the current language and then switching
      back returns to the same page. */
  lemma SwitchRoundTrip(currentLang: string, path: string)
    requires currentLang in SwitcherKeys
    requires StartsWith(path, "/" + currentLang + "/")
    ensures var next := NextLang(currentLang);
      SwitchPath(SwitchPath(path, next), NextLang(next)) == path
  {
    var next := NextLang(currentLang);
    var rest := path[3..];
    assert path == "/" + currentLang + rest;
    SwitchKeepsRest(currentLang, rest, next);
    SwitchKeepsRest(next, rest, NextLang(next));
  }
}
