/**
 * The language toggle (`initLangToggle`, `applyTranslations`,
 * `updateLangButton`): the stored language, `en` by default, decides the
 * dictionary, the page's `lang` and `dir` attributes and the button; a click
 * stores and shows the other language.
 */
module Language {
  import opened Storage

  /** The storage key of the chosen language. */
  const Key := "rekaz-lang"

  /** `localStorage.getItem('rekaz-lang') || 'en'`. */
  function Current(items: Items): (lang: string)
    ensures lang != ""
    ensures !Truthy(items, Key) ==> lang == "en"
  {
    OrDefault(items, Key, "en")
  }

  /** The language a click switches to: `ar` from `en`, `en` from anything else. */
  function Next(current: string): (next: string)
    ensures next == "en" || next == "ar"
    ensures next == "ar" <==> current == "en"
  {
    if current == "en" then "ar" else "en"
  }

  /** A language the toggle itself ever stores. */
  predicate Supported(lang: string) {
    lang == "en" || lang == "ar"
  }

  /** From a supported language, two clicks come back to it; one click always changes it. */
  lemma NextInvolution(lang: string)
    requires Supported(lang)
    ensures Next(lang) != lang && Next(Next(lang)) == lang
  {
  }

  /**
   * `I18N[lang] || I18N.en` and `map[lang] || map.en`: of the languages the
   * dictionaries list, only `ar` has texts other than English.
   */
  function Dictionary(lang: string): (d: string)
    ensures Supported(d)
    ensures d == "ar" <==> lang == "ar"
  {
    if lang == "ar" then "ar" else "en"
  }

  /** `document.documentElement.lang` as `applyTranslations` sets it. */
  function LangAttr(lang: string): (a: string)
    ensures a == "ar" <==> lang == "ar"
    ensures a == "en" <==> lang != "ar"
  {
    if lang == "ar" then "ar" else "en"
  }

  /** `document.documentElement.dir` as `applyTranslations` sets it. */
  function DirAttr(lang: string): (d: string)
    ensures d == "rtl" <==> lang == "ar"
    ensures d == "ltr" <==> lang != "ar"
  {
    if lang == "ar" then "rtl" else "ltr"
  }

  /** The button's text: it names the language a click switches to. */
  function ButtonText(lang: string): (t: string)
    ensures t == "AR" <==> lang == "en"
    ensures t == "EN" <==> lang != "en"
  {
    if lang == "en" then "AR" else "EN"
  }

  /** The button's `aria-label`. */
  function ButtonLabel(lang: string): (l: string)
    ensures l == "Switch to English" <==> lang != "en"
  {
    if lang == "en" then "\U{0627}\U{0644}\U{062A}\U{0628}\U{062F}\U{064A}\U{0644} \U{0625}\U{0644}\U{0649} \U{0627}\U{0644}\U{0639}\U{0631}\U{0628}\U{064A}\U{0629}"
    else "Switch to English"
  }

  /**
   * The page is right-to-left exactly when it is in Arabic, and for a language
   * the toggle stores, the button offers exactly the language a click switches to.
   */
  lemma AttributesFollowLanguage(lang: string)
    ensures DirAttr(lang) == "rtl" <==> LangAttr(lang) == "ar"
    ensures Supported(lang) ==> ButtonText(lang) == (if Next(lang) == "ar" then "AR" else "EN")
    ensures Supported(lang) ==> Dictionary(lang) == lang && LangAttr(lang) == lang
  {
  }

  /**
   * The language button and what it controls: the page's `lang` and `dir`
   * attributes and the dictionary its texts come from, the button's text,
   * `data-lang` and label, and the shared local storage.
   */
  class LangToggle {
    const storage: LocalStorage
    const hasButton: bool
    var dictionary: string
    var langAttr: string
    var dirAttr: string
    var buttonText: string
    var buttonLang: string
    var buttonLabel: string
    var listening: bool

    constructor (storage: LocalStorage, hasButton: bool)
      ensures this.storage == storage && this.hasButton == hasButton && !listening
    {
      this.storage := storage;
      this.hasButton := hasButton;
      dictionary, langAttr, dirAttr := "en", "en", "ltr";
      buttonText, buttonLang, buttonLabel := "", "", "";
      listening := false;
    }

    /** The page and the button show `lang`. */
    ghost predicate Shows(lang: string)
      reads this
    {
      && dictionary == Dictionary(lang) && langAttr == LangAttr(lang) && dirAttr == DirAttr(lang)
      && buttonText == ButtonText(lang) && buttonLang == lang && buttonLabel == ButtonLabel(lang)
    }

    /** `applyTranslations(lang)`: texts and placeholders, then `lang` and `dir`. */
    method ApplyTranslations(lang: string)
      modifies this`dictionary, this`langAttr, this`dirAttr
      ensures dictionary == Dictionary(lang) && langAttr == LangAttr(lang) && dirAttr == DirAttr(lang)
    {
      dictionary := if lang == "ar" then "ar" else "en";
      langAttr := if lang == "ar" then "ar" else "en";
      dirAttr := if lang == "ar" then "rtl" else "ltr";
    }

    /** `updateLangButton(lang)`: does nothing without a button. */
    method UpdateButton(lang: string)
      modifies this`buttonText, this`buttonLang, this`buttonLabel
      ensures hasButton ==> buttonText == ButtonText(lang) && buttonLang == lang && buttonLabel == ButtonLabel(lang)
      ensures !hasButton ==> buttonText == old(buttonText) && buttonLang == old(buttonLang) && buttonLabel == old(buttonLabel)
    {
      if !hasButton { return; }
      buttonText := ButtonText(lang);
      buttonLang := lang;
      buttonLabel := ButtonLabel(lang);
    }

    /** `initLangToggle`: without a button nothing happens; otherwise show the stored language. */
    method Init()
      modifies this
      ensures !hasButton ==> unchanged(this)
      ensures hasButton ==> Shows(Current(storage.items)) && listening
    {
      if !hasButton { return; }
      var stored := storage.Get(Key);
      var lang := if stored.Some? && stored.value != "" then stored.value else "en";
      ApplyTranslations(lang);
      UpdateButton(lang);
      listening := true;
    }

    /** The click handler: store and show the other language. */
    method OnClick()
      requires listening && hasButton
      modifies this, storage
      ensures storage.items == old(storage.items)[Key := Next(Current(old(storage.items)))]
      ensures Shows(Next(Current(old(storage.items)))) && listening
    {
      var stored := storage.Get(Key);
      var current := if stored.Some? && stored.value != "" then stored.value else "en";
      var next := if current == "en" then "ar" else "en";
      storage.Set(Key, next);
      ApplyTranslations(next);
      UpdateButton(next);
    }
  }

  /** After a click the store holds a supported language and the page shows it. */
  lemma ClickStoresSupported(items: Items)
    ensures var after := items[Key := Next(Current(items))];
      Supported(Current(after)) && Current(after) == Next(Current(items))
  {
  }

  /** From a supported stored language, two clicks restore the store. */
  lemma {:induction false} ClickTwiceRestores(items: Items)
    requires Key in items && Supported(items[Key])
    ensures var once := items[Key := Next(Current(items))];
      once[Key := Next(Current(once))] == items
  {
    var once := items[Key := Next(Current(items))];
    assert Current(items) == items[Key];
    NextInvolution(items[Key]);
    assert Current(once) == Next(items[Key]);
    assert once[Key := Next(Current(once))] == items[Key := items[Key]];
  }
}
