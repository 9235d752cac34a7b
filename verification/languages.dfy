/** The interface language: Russian or Kazakh, persisted under the `language` storage key. */
module Languages {
  import opened Wrappers
  import opened Storage

  datatype Language = Ru | Kz

  const LanguageKey := "language"

  /** The language code as stored and sent in URLs. */
  function Tag(l: Language): (s: string)
    ensures s == "ru" || s == "kz"
  {
    match l
    case Ru => "ru"
    case Kz => "kz"
  }

  /** Accepts exactly the two codes. */
  function ParseTag(s: string): (l: Option<Language>)
    ensures l.Some? <==> s == "ru" || s == "kz"
    ensures l.Some? ==> Tag(l.value) == s
  {
    if s == "ru" then Some(Ru) else if s == "kz" then Some(Kz) else None
  }

  lemma ParseTagOfTag(l: Language)
    ensures ParseTag(Tag(l)) == Some(l)
  {
  }

  /** The stored code when it is exactly `ru` or `kz`; Russian otherwise and outside a browser. */
  function GetInitialLanguage(inBrowser: bool, saved: Option<string>): (l: Language)
    ensures inBrowser && saved.Some? && ParseTag(saved.value).Some? ==> l == ParseTag(saved.value).value
    ensures !(inBrowser && saved.Some? && ParseTag(saved.value).Some?) ==> l == Ru
  {
    if inBrowser && saved.Some? then
      match ParseTag(saved.value)
      case Some(l) => l
      case None => Ru
    else Ru
  }

  /** The other language. */
  function Other(l: Language): (r: Language)
    ensures r != l
  {
    if l == Ru then Kz else Ru
  }

  /** Toggling twice restores the original language. */
  lemma OtherInvolution(l: Language)
    ensures Other(Other(l)) == l
  {
  }

  class LanguageStore {
    var current: Language
    const storage: LocalStorage
    const inBrowser: bool

    /** In a browser, the storage key holds the current language code. */
    predicate Persisted()
      reads this, storage
    {
      inBrowser ==> Lookup(storage.items, LanguageKey) == Some(Tag(current))
    }

    /** Reads the initial language; in a browser, subscribing writes it back at once. */
    constructor (storage: LocalStorage, inBrowser: bool)
      modifies storage
      ensures this.storage == storage && this.inBrowser == inBrowser
      ensures current == GetInitialLanguage(inBrowser, Lookup(old(storage.items), LanguageKey))
      ensures storage.items == if inBrowser then old(storage.items)[LanguageKey := Tag(current)] else old(storage.items)
      ensures Persisted()
    {
      var saved := storage.GetItem(LanguageKey);
      var initial := GetInitialLanguage(inBrowser, saved);
      this.storage := storage;
      this.inBrowser := inBrowser;
      current := initial;
      new;
      if inBrowser {
        storage.SetItem(LanguageKey, Tag(initial));
      }
    }

    /** The writable's `set`: subscribers (the storage writer) run only when the value changes. */
    method Set(l: Language)
      modifies this, storage
      ensures current == l
      ensures storage.items == if inBrowser && old(current) != l then old(storage.items)[LanguageKey := Tag(l)] else old(storage.items)
      ensures old(Persisted()) ==> Persisted()
    {
      if l != current {
        current := l;
        if inBrowser {
          storage.SetItem(LanguageKey, Tag(l));
        }
      }
    }

    /** `setLanguage`. */
    method SetLanguage(l: Language)
      modifies this, storage
      ensures current == l
      ensures storage.items == if inBrowser && old(current) != l then old(storage.items)[LanguageKey := Tag(l)] else old(storage.items)
      ensures old(Persisted()) ==> Persisted()
    {
      Set(l);
    }

    /** `toggleLanguage`: Russian becomes Kazakh and Kazakh becomes Russian. */
    method ToggleLanguage()
      modifies this, storage
      ensures current == Other(old(current))
      ensures storage.items == if inBrowser then old(storage.items)[LanguageKey := Tag(current)] else old(storage.items)
      ensures old(Persisted()) ==> Persisted()
    {
      Set(Other(current));
    }
  }
}
