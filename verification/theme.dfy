/**
 * The theme store: the colour mode is kept in three places at once, the
 * store's field, the `colorMode` storage key and the `dark-mode` class on the
 * document's root element.
 */
module Theme {
  import opened Wrappers
  import opened WebStorage
  import opened Dom

  const LightMode := "light-mode"
  const DarkMode := "dark-mode"

  /** `localStorage.getItem("colorMode") || "light-mode"`: a missing or empty stored value falls back to light. */
  function InitialColorMode(stored: Option<string>): (m: string)
    ensures m != ""
    ensures stored.Some? && stored.value != "" ==> m == stored.value
    ensures stored == None || stored == Some("") ==> m == LightMode
  {
    if stored.Some? && stored.value != "" then stored.value else LightMode
  }

  /** The three copies of the mode agree: the field, the stored key and the root class. */
  predicate InSync(mode: string, items: map<string, string>, classes: seq<string>) {
    ColorModeKey in items && items[ColorModeKey] == mode && (DarkMode in classes <==> mode == DarkMode)
  }

  class ThemeStore {
    const storage: LocalStorage
    const root: ClassList
    var colorMode: string

    /** Setting up the store reads the stored mode and writes it back through `SetColorMode`. */
    constructor (storage: LocalStorage, root: ClassList)
      modifies storage, root
      ensures this.storage == storage && this.root == root
      ensures colorMode == InitialColorMode(old(storage.GetItem(ColorModeKey)))
      ensures storage.items == old(storage.items)[ColorModeKey := colorMode]
      ensures root.tokens == Toggled(old(root.tokens), DarkMode, colorMode == DarkMode)
      ensures InSync(colorMode, storage.items, root.tokens)
    {
      this.storage := storage;
      this.root := root;
      colorMode := InitialColorMode(storage.GetItem(ColorModeKey));
      new;
      SetColorMode(colorMode);
    }

    /**
     * `setColorMode`: the field and the storage key take the mode, and the
     * root carries `dark-mode` exactly when the mode is dark; the other
     * classes and storage keys are untouched.
     */
    method SetColorMode(mode: string)
      modifies this`colorMode, storage, root
      ensures colorMode == mode
      ensures storage.items == old(storage.items)[ColorModeKey := mode]
      ensures root.tokens == Toggled(old(root.tokens), DarkMode, mode == DarkMode)
      ensures InSync(mode, storage.items, root.tokens)
    {
      colorMode := mode;
      storage.SetItem(ColorModeKey, mode);
      var _ := root.Toggle(DarkMode, mode == DarkMode);
    }
  }
}
