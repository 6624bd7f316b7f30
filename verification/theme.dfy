/**
 * The light/dark theme toggle (`initThemeToggle`, `updateThemeToggleIcon`):
 * a one-shot migration of the legacy storage key, the initial `light` class
 * taken from storage, and a click that flips the class and stores the new theme.
 */
module Theme {
  import opened Wrappers
  import opened Storage

  /** The storage key the script writes. */
  const Key := "rekaz-theme"
  /** The key an older spelling of the site used; migrated away once. */
  const LegacyKey := "rikaz-theme"

  /** The migration has nothing left to do: no truthy legacy value without a truthy current one. */
  predicate Migrated(items: Items) {
    !(Truthy(items, LegacyKey) && !Truthy(items, Key))
  }

  /** The theme the user last chose, whichever key it is stored under. */
  function Preference(items: Items): (p: string)
    ensures p != "" <==> Truthy(items, Key) || Truthy(items, LegacyKey)
  {
    if Truthy(items, Key) then items[Key]
    else if Truthy(items, LegacyKey) then items[LegacyKey]
    else ""
  }

  /**
   * The migration step of `initThemeToggle`: when the legacy key is truthy and
   * the current one is not, copy the value over and remove the legacy key.
   */
  function Migrate(items: Items): (r: Items)
    ensures Migrated(r)
    ensures Preference(r) == Preference(items)
    ensures forall k :: k != Key && k != LegacyKey ==> (k in r <==> k in items)
    ensures forall k :: k != Key && k != LegacyKey && k in r ==> r[k] == items[k]
  {
    if Truthy(items, LegacyKey) && !Truthy(items, Key) then
      items[Key := items[LegacyKey]] - {LegacyKey}
    else
      items
  }

  /** A store with nothing to migrate is left exactly as it is. */
  lemma MigrateMigratedIsIdentity(items: Items)
    requires Migrated(items)
    ensures Migrate(items) == items
  {
  }

  /** Running the migration twice is the same as running it once. */
  lemma MigrateIdempotent(items: Items)
    ensures Migrate(Migrate(items)) == Migrate(items)
  {
    MigrateMigratedIsIdentity(Migrate(items));
  }

  /** The migration moves the legacy value exactly when there is one to move and no current value. */
  lemma MigrateMoves(items: Items)
    ensures Migrate(items) != items <==> Truthy(items, LegacyKey) && !Truthy(items, Key)
    ensures Migrate(items) != items ==>
      Migrate(items)[Key] == items[LegacyKey] && LegacyKey !in Migrate(items)
  {
    if Truthy(items, LegacyKey) && !Truthy(items, Key) {
      assert LegacyKey !in Migrate(items);
    }
  }

  /** The value a click stores for the new state of the `light` class. */
  function Stored(light: bool): (v: string)
    ensures v == "light" || v == "dark"
    ensures (v == "light") == light
  {
    if light then "light" else "dark"
  }

  /** `btn.textContent` as `updateThemeToggleIcon` sets it. */
  function Icon(light: bool): (i: string)
    ensures i == "\U{263E}" <==> light
  {
    if light then "\U{263E}" else "\U{25D0}"
  }

  /** `btn`'s `aria-label` as `updateThemeToggleIcon` sets it: it names the theme a click switches to. */
  function Label(light: bool): (l: string)
    ensures l == "Switch to light theme" <==> !light
  {
    if light then "Switch to dark theme" else "Switch to light theme"
  }

  /** The class and the store after one click: flip the class, store its new value. */
  function Click(light: bool, items: Items): (r: (bool, Items))
    ensures r.0 == !light
    ensures Key in r.1 && (r.1[Key] == "light" <==> r.0) && (r.1[Key] == "dark" <==> !r.0)
    ensures forall k :: k != Key ==> (k in r.1 <==> k in items)
    ensures forall k :: k != Key && k in r.1 ==> r.1[k] == items[k]
  {
    (!light, items[Key := Stored(!light)])
  }

  /** The class and the stored theme agree, as they do after any click. */
  predicate Agrees(light: bool, items: Items) {
    Key in items && items[Key] == Stored(light)
  }

  /** After a click the store always holds the theme the page shows. */
  lemma ClickAgrees(light: bool, items: Items)
    ensures var (l, s) := Click(light, items); Agrees(l, s)
  {
  }

  /** Two clicks restore the class, and the store too when it agreed with the class. */
  lemma {:induction false} ClickTwice(light: bool, items: Items)
    ensures Click(Click(light, items).0, Click(light, items).1).0 == light
    ensures Agrees(light, items) ==> Click(Click(light, items).0, Click(light, items).1).1 == items
  {
    var (l1, s1) := Click(light, items);
    var (l2, s2) := Click(l1, s1);
    if Agrees(light, items) {
      assert s2 == items[Key := Stored(light)];
    }
  }

  /**
   * The theme button: the page's `light` class, the button's text and label,
   * and the shared local storage. `listening` records that the click handler
   * has been registered, which `Init` does only when the button exists.
   */
  class ThemeToggle {
    const storage: LocalStorage
    const hasButton: bool
    var light: bool
    var icon: string
    var ariaLabel: string
    var listening: bool

    constructor (storage: LocalStorage, hasButton: bool, light: bool)
      ensures this.storage == storage && this.hasButton == hasButton && this.light == light
      ensures !listening
    {
      this.storage := storage;
      this.hasButton := hasButton;
      this.light := light;
      icon := "";
      ariaLabel := "";
      listening := false;
    }

    /** The button shows the state of the `light` class. */
    ghost predicate ShowsTheme()
      reads this
    {
      icon == Icon(light) && ariaLabel == Label(light)
    }

    /** `updateThemeToggleIcon`: does nothing without a button. */
    method UpdateIcon()
      modifies this`icon, this`ariaLabel
      ensures hasButton ==> ShowsTheme()
      ensures !hasButton ==> icon == old(icon) && ariaLabel == old(ariaLabel)
    {
      if !hasButton { return; }
      icon := Icon(light);
      ariaLabel := Label(light);
    }

    /**
     * `initThemeToggle`: without a button nothing happens; otherwise migrate
     * the legacy key, add the `light` class when the stored theme is `light`
     * (never remove it), show the theme and start listening for clicks.
     */
    method Init()
      modifies this, storage
      ensures !hasButton ==> unchanged(this) && unchanged(storage)
      ensures hasButton ==> storage.items == Migrate(old(storage.items))
      ensures hasButton ==> light == (old(light) || GetItem(storage.items, Key) == Some("light"))
      ensures hasButton ==> ShowsTheme() && listening
    {
      if !hasButton { return; }
      var legacy := storage.Get(LegacyKey);
      var current := storage.Get(Key);
      if legacy.Some? && legacy.value != "" && !(current.Some? && current.value != "") {
        storage.Set(Key, legacy.value);
        storage.Remove(LegacyKey);
      }
      var stored := storage.Get(Key);
      if stored == Some("light") {
        light := true;
      }
      UpdateIcon();
      listening := true;
    }

    /** The click handler: toggle the class, store `light` or `dark` to match, show it. */
    method OnClick()
      requires listening && hasButton
      modifies this, storage
      ensures (light, storage.items) == Click(old(light), old(storage.items))
      ensures ShowsTheme() && listening
    {
      light := !light;
      storage.Set(Key, if light then "light" else "dark");
      UpdateIcon();
    }
  }

  /** Two clicks on a listening button bring the page and the store back. */
  method ClickTwiceRestores(t: ThemeToggle)
    requires t.listening && t.hasButton && Agrees(t.light, t.storage.items)
    modifies t, t.storage
    ensures t.light == old(t.light) && t.storage.items == old(t.storage.items)
  {
    ghost var before := (t.light, t.storage.items);
    t.OnClick();
    t.OnClick();
    ClickTwice(before.0, before.1);
  }
}
