/** The language state of the Next.js site (src/lib/LanguageContext.jsx): the
    current language, kept in React state and mirrored in `localStorage`, and
    the content of that language. The locale table (`src/locales/config`) is
    not part of this model: its key order, its entries and its default locale
    are inputs. */
module LanguageContext {
  import opened Options
  import opened Text
  import opened Json
  import opened LocaleCycle

  /** What reading `localStorage.getItem('language')` gives. */
  datatype StorageRead =
    | NoWindow                          // rendering on the server
    | ReadThrows                        // storage disabled, e.g. in private mode
    | Read(value: Option<string>)       // the stored string, None when missing

  /** `getStoredLanguage()`: the stored value when the table has a truthy
      entry for it, otherwise the default locale. */
  function StoredLanguage(read: StorageRead, locales: map<string, Json>, defaultLocale: string): (r: string)
    ensures r == defaultLocale || (read.Read? && read.value == Some(r) && r in locales)
    ensures (read.Read? && read.value.Some? && read.value.value != "" &&
             read.value.value in locales && Truthy(locales[read.value.value])) ==> r == read.value.value
    ensures !read.Read? || read.value.None? ==> r == defaultLocale
  {
    match read
    case Read(Some(stored)) =>
      if stored != "" && stored in locales && Truthy(locales[stored]) then stored else defaultLocale
    case _ => defaultLocale
  }

  /** The table is well formed: its keys, in `Object.keys` order, are
      distinct, and the default locale is one of them. */
  ghost predicate WellFormed(keys: seq<string>, locales: map<string, Json>, defaultLocale: string) {
    keys != [] && NoDup(keys) &&
    (forall k :: k in keys <==> k in locales) &&
    defaultLocale in locales
  }

  class LanguageProvider {
    const keys: seq<string>
    const locales: map<string, Json>
    const defaultLocale: string
    /** The `language` state. */
    var language: string
    /** The value under the key 'language' in `localStorage`. */
    var stored: Option<string>

    ghost predicate Valid()
      reads this
    {
      WellFormed(keys, locales, defaultLocale) && language in locales
    }

    /** `useState(() => getStoredLanguage())`, with `read` the outcome of reading storage. */
    constructor(keys: seq<string>, locales: map<string, Json>, defaultLocale: string, read: StorageRead)
      requires WellFormed(keys, locales, defaultLocale)
      ensures Valid()
      ensures this.keys == keys && this.locales == locales && this.defaultLocale == defaultLocale
      ensures language == StoredLanguage(read, locales, defaultLocale)
      ensures stored == (if read.Read? then read.value else None)
    {
      this.keys := keys;
      this.locales := locales;
      this.defaultLocale := defaultLocale;
      language := StoredLanguage(read, locales, defaultLocale);
      stored := if read.Read? then read.value else None;
    }

    /** `content`: the `data` of the current language's entry. */
    function Content(): Json
      reads this
      requires Valid()
    {
      Get(locales[language], "data")
    }

    /** `toggleLanguage()`: moves to the next key, wrapping, and writes the new
      language to storage unless that write fails (`writes` is false). */
    method ToggleLanguage(writes: bool)
      requires Valid()
      modifies this
      ensures Valid()
      ensures language == NextKey(keys, old(language))
      ensures language != old(language) || |keys| == 1
      ensures stored == if writes then Some(language) else old(stored)
    {
      var newLang := NextKey(keys, language);
      ghost var i :| 0 <= i < |keys| && keys[i] == language;
      NextKeyAt(keys, i);
      language := newLang;
      if writes {
        stored := Some(newLang);
      }
    }
  }
}
