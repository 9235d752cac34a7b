/**
 * The static bilingual dictionary and the dotted-key lookup over it: a key such as
 * `navigation.home` names a leaf holding the Russian and Kazakh texts.
 */
module Translations {
  import opened Wrappers
  import opened JsText
  import opened Languages

  /** A dictionary node: a text, or an object of named children. */
  datatype Entry = Text(s: string) | Obj(fields: map<string, Entry>)

  /** A leaf of the dictionary: one text per language. */
  function Leaf(ru: string, kz: string): Entry {
    Obj(map["ru" := Text(ru), "kz" := Text(kz)])
  }

  /** The `navigation` section. */
  const NavigationSection: Entry := Obj(map[
    "home" := Leaf("Главная", "Басты бет"),
    "news" := Leaf("Новости", "Жаңалықтар"),
    "teachers" := Leaf("Учителя", "Мұғалімдер"),
    "birthdays" := Leaf("Дни рождения", "Туған күндер"),
    "honorBoard" := Leaf("Доска почета", "Құрмет тақтасы"),
    "canteen" := Leaf("Меню", "Асхана"),
    "schedule" := Leaf("Расписание", "Кесте"),
    "classes" := Leaf("Классы", "Сыныптар"),
    "adminMode" := Leaf("Режим администратора", "Әкімші режимі"),
    "adminExit" := Leaf("Выйти из режима администратора", "Әкімші режимінен шығу")
  ])

  /** The `common` section. */
  const CommonSection: Entry := Obj(map[
    "loading" := Leaf("Загрузка...", "Жүктелуде..."),
    "error" := Leaf("Ошибка", "Қате"),
    "success" := Leaf("Успешно", "Сәтті"),
    "save" := Leaf("Сохранить", "Сақтау"),
    "cancel" := Leaf("Отмена", "Бас тарту"),
    "edit" := Leaf("Редактировать", "Өңдеу"),
    "delete" := Leaf("Удалить", "Жою"),
    "close" := Leaf("Закрыть", "Жабу"),
    "yes" := Leaf("Да", "Иә"),
    "no" := Leaf("Нет", "Жоқ")
  ])

  /** The `school` section. */
  const SchoolSection: Entry := Obj(map[
    "name" := Leaf("Название школы", "Мектеп атауы"),
    "address" := Leaf("Адрес", "Мекенжай"),
    "description" := Leaf("Описание", "Сипаттама"),
    "email" := Leaf("Email", "Email"),
    "phone" := Leaf("Телефон", "Телефон")
  ])

  /** The dictionary `t`. */
  const Dictionary: Entry := Obj(map["navigation" := NavigationSection, "common" := CommonSection, "school" := SchoolSection])

  /**
   * Follows the path segment by segment; absent as soon as a segment is missing or a
   * text is reached with segments left.
   */
  function Walk(value: Entry, keys: seq<string>): Option<Entry>
    decreases keys
  {
    if keys == [] then Some(value)
    else match value
      case Text(_) => None
      case Obj(m) => if keys[0] in m then Walk(m[keys[0]], keys[1..]) else None
  }

  /**
   * What the lookup returns once the path has been split: the language's text when the
   * path ends at an object holding it, the key otherwise. (Every object in the dictionary
   * that has a `ru` or `kz` child holds a text there.)
   */
  function TranslatePath(keys: seq<string>, key: string, language: Language): string {
    match Walk(Dictionary, keys)
    case Some(Obj(m)) =>
      if Tag(language) in m then
        match m[Tag(language)]
        case Text(s) => s
        case Obj(_) => key
      else key
    case _ => key
  }

  /** `getTranslation`, as a specification. */
  function Translate(key: string, language: Language): (r: string)
    ensures r == key || Stored(r, Dictionary)
  {
    var keys := Split(key, '.');
    var r := TranslatePath(keys, key, language);
    assert r == key || Stored(r, Dictionary) by {
      if r != key {
        var m := Walk(Dictionary, keys).value.fields;
        assert Stored(r, m[Tag(language)]);
        WalkStaysInside(Dictionary, keys, r);
      }
    }
    r
  }

  lemma {:induction false} WalkStep(value: Entry, keys: seq<string>, i: nat)
    requires i < |keys| && value.Obj? && keys[i] in value.fields
    ensures Walk(value, keys[i..]) == Walk(value.fields[keys[i]], keys[i + 1..])
  {
    assert keys[i..][1..] == keys[i + 1..];
  }

  /** `getTranslation`: the loop over the segments, then the language pick. */
  method GetTranslation(key: string, language: Language) returns (r: string)
    ensures r == Translate(key, language)
  {
    var keys := Split(key, '.');
    var value := Dictionary;
    var i := 0;
    while i < |keys|
      invariant 0 <= i <= |keys|
      invariant Walk(Dictionary, keys) == Walk(value, keys[i..])
    {
      var k := keys[i];
      if value.Obj? && k in value.fields {
        WalkStep(value, keys, i);
        value := value.fields[k];
      } else {
        assert keys[i..][0] == k;
        return key;
      }
      i := i + 1;
    }
    if value.Obj? && Tag(language) in value.fields {
      match value.fields[Tag(language)] {
        case Text(s) => return s;
        case Obj(_) => return key;
      }
    }
    return key;
  }

  /** Walking a concatenated path is walking its first part, then the rest from where it ended. */
  lemma {:induction false} WalkAppend(value: Entry, a: seq<string>, b: seq<string>)
    ensures Walk(value, a + b) == match Walk(value, a) case Some(v) => Walk(v, b) case None => None
    decreases a
  {
    if a == [] {
      assert a + b == b;
    } else {
      assert (a + b)[0] == a[0] && (a + b)[1..] == a[1..] + b;
      if value.Obj? && a[0] in value.fields {
        WalkAppend(value.fields[a[0]], a[1..], b);
      }
    }
  }

  /**
   * A segment that is missing where the walk has got to (or that follows a text) makes the
   * lookup return the key.
   */
  lemma MissingSegmentGivesKey(key: string, language: Language, i: nat)
    requires i < |Split(key, '.')|
    requires var keys := Split(key, '.');
      Walk(Dictionary, keys[..i]).Some? &&
      var v := Walk(Dictionary, keys[..i]).value;
      !(v.Obj? && keys[i] in v.fields)
    ensures Translate(key, language) == key
  {
    var keys := Split(key, '.');
    WalkAppend(Dictionary, keys[..i], keys[i..]);
    assert keys[..i] + keys[i..] == keys;
  }

  /** A path that ends at a text, rather than at a leaf object, returns the key. */
  lemma PathToTextGivesKey(key: string, language: Language)
    requires Walk(Dictionary, Split(key, '.')).Some? && Walk(Dictionary, Split(key, '.')).value.Text?
    ensures Translate(key, language) == key
  {
  }

  /** `s` is one of the texts stored somewhere in `e`. */
  ghost predicate Stored(s: string, e: Entry) {
    match e
    case Text(x) => x == s
    case Obj(m) => exists k :: k in m && Stored(s, m[k])
  }

  lemma {:induction false} WalkStaysInside(value: Entry, keys: seq<string>, s: string)
    requires Walk(value, keys).Some? && Stored(s, Walk(value, keys).value)
    ensures Stored(s, value)
    decreases keys
  {
    if keys != [] {
      WalkStaysInside(value.fields[keys[0]], keys[1..], s);
    }
  }

  /** Splitting a string without the separator gives the string alone. */
  lemma {:induction false} SplitWithoutSeparator(s: string, sep: char)
    requires sep !in s
    ensures Split(s, sep) == [s]
  {
    if s != [] {
      SplitWithoutSeparator(s[1..], sep);
      assert [s[0]] + s[1..] == s;
    }
  }

  /** Splitting `a + sep + b`, where `a` has no separator, gives `a` and then the parts of `b`. */
  lemma {:induction false} SplitAtSeparator(a: string, b: string, sep: char)
    requires sep !in a
    ensures Split(a + [sep] + b, sep) == [a] + Split(b, sep)
  {
    if a == [] {
      assert ([sep] + b)[1..] == b;
    } else {
      assert (a + [sep] + b)[1..] == a[1..] + [sep] + b;
      SplitAtSeparator(a[1..], b, sep);
      assert [a[0]] + a[1..] == a;
    }
  }

  lemma TwoSegmentKey(a: string, b: string)
    requires '.' !in a && '.' !in b
    ensures Split(a + "." + b, '.') == [a, b]
  {
    SplitAtSeparator(a, b, '.');
    SplitWithoutSeparator(b, '.');
  }

  /** The path `navigation`, `home` reaches the home entry. */
  lemma HomeLeaf(keys: seq<string>)
    requires keys == ["navigation", "home"]
    ensures Walk(Dictionary, keys) == Some(Leaf("Главная", "Басты бет"))
  {
    assert keys[1..] == ["home"];
    assert keys[1..][1..] == [];
    assert Dictionary.fields["navigation"] == NavigationSection;
    assert Walk(NavigationSection, ["home"]) == Walk(Leaf("Главная", "Басты бет"), []);
  }

  /** `getTranslation('navigation.home', 'kz')` is "Басты бет", and the Russian text is "Главная". */
  lemma NavigationHomeExample(key: string)
    requires key == "navigation" + "." + "home"
    ensures Translate(key, Kz) == "Басты бет"
    ensures Translate(key, Ru) == "Главная"
  {
    TwoSegmentKey("navigation", "home");
    HomeLeaf(Split(key, '.'));
  }

  /** The `navigation` section holds no text of its own. */
  lemma NavigationHasNoLanguage(language: Language)
    ensures Tag(language) !in NavigationSection.fields
  {
  }

  /** A key whose only segment is `navigation` returns the key. */
  lemma SectionPath(key: string, language: Language)
    requires Split(key, '.') == ["navigation"]
    ensures Translate(key, language) == key
  {
    assert ["navigation"][1..] == [];
    assert Walk(Dictionary, ["navigation"]) == Some(NavigationSection);
    NavigationHasNoLanguage(language);
  }

  /** `getTranslation('navigation', l)` is `'navigation'` in either language. */
  lemma SectionKeyExample(key: string, language: Language)
    requires key == "navigation"
    ensures Translate(key, language) == key
  {
    SplitWithoutSeparator(key, '.');
    SectionPath(key, language);
  }

  /** A missing leaf (`navigation.missing`) returns the key. */
  lemma MissingLeafExample(key: string)
    requires key == "navigation" + "." + "missing"
    ensures Translate(key, Kz) == key
  {
    TwoSegmentKey("navigation", "missing");
    assert ["navigation", "missing"][1..] == ["missing"];
    assert Walk(NavigationSection, ["missing"]) == None;
  }

  lemma ThreeSegmentKey(a: string, b: string, c: string)
    requires '.' !in a && '.' !in b && '.' !in c
    ensures Split(a + "." + (b + "." + c), '.') == [a, b, c]
  {
    SplitAtSeparator(a, b + "." + c, '.');
    TwoSegmentKey(b, c);
  }

  /** The `home` entry of the navigation section. */
  lemma HomeEntry()
    ensures "navigation" in Dictionary.fields && Dictionary.fields["navigation"] == NavigationSection
    ensures NavigationSection.Obj? && "home" in NavigationSection.fields && NavigationSection.fields["home"] == Leaf("Главная", "Басты бет")
  {
  }

  lemma WalkCons(value: Entry, k: string, rest: seq<string>)
    requires value.Obj? && k in value.fields
    ensures Walk(value, [k] + rest) == Walk(value.fields[k], rest)
  {
    assert ([k] + rest)[1..] == rest;
  }

  /** A leaf's `ru` child is its Russian text. */
  lemma LeafRu(ru: string, kz: string)
    ensures Walk(Leaf(ru, kz), ["ru"]) == Some(Text(ru))
  {
    WalkCons(Leaf(ru, kz), "ru", []);
  }

  /** The path `navigation`, `home`, `ru` ends at the Russian text, not at a leaf. */
  lemma PastTextPath(keys: seq<string>)
    requires keys == ["navigation", "home", "ru"]
    ensures Walk(Dictionary, keys) == Some(Text("Главная"))
  {
    HomeEntry();
    HomeRuInSection(NavigationSection, ["home", "ru"]);
    WalkCons(Dictionary, "navigation", ["home", "ru"]);
  }

  /** In a section whose `home` entry is the home leaf, `home`, `ru` ends at the Russian text. */
  lemma HomeRuInSection(section: Entry, path: seq<string>)
    requires section.Obj? && "home" in section.fields && section.fields["home"] == Leaf("Главная", "Басты бет")
    requires path == ["home", "ru"]
    ensures Walk(section, path) == Some(Text("Главная"))
  {
    LeafRu("Главная", "Басты бет");
    assert path == ["home"] + ["ru"];
    WalkCons(section, "home", ["ru"]);
  }

  /** A path past a text (`navigation.home.ru`) returns the key. */
  lemma PastTextExample(key: string)
    requires key == "navigation" + "." + ("home" + "." + "ru")
    ensures Translate(key, Ru) == key
  {
    ThreeSegmentKey("navigation", "home", "ru");
    PastTextPath(Split(key, '.'));
  }
}
