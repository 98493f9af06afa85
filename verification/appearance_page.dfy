/** The pure parts of the Appearance page: which wallpaper it shows as current,
    the directory the file picker opens in, and the matugen preference payloads
    its three controls send. */
module AppearancePage {
  import opened Wrappers
  import opened Text
  import opened HyprpaperBackend

  /** `getCurrentWallpaper`: the last listed wallpaper, the most recent one;
      nothing before the config is loaded or when it lists none. */
  function CurrentWallpaper(config: Option<HyprpaperConfig>): (r: Option<Wallpaper>)
    ensures r.None? <==> config.None? || config.value.wallpapers == []
    ensures r.Some? ==> r.value in config.value.wallpapers
    ensures r.Some? ==> r.value == config.value.wallpapers[|config.value.wallpapers| - 1]
  {
    match config
    case None => None
    case Some(c) => if |c.wallpapers| == 0 then None else Some(c.wallpapers[|c.wallpapers| - 1])
  }

  /** The wallpaper `set_wallpaper` adds becomes the current one. */
  lemma CurrentAfterSet(file: ConfigFile, monitor: string, path: string)
    requires !BlankPath(path) && ',' !in Trim(monitor)
    ensures CurrentWallpaper(Some(GetConfig(Some(SetWallpaper(file, monitor, path).value)).value))
      == Some(Wallpaper(Trim(monitor), Trim(path)))
  {
    SetWallpaperAppends(file, monitor, path);
  }

  /** The wallpaper `update_wallpaper` rewrites becomes the current one. */
  lemma CurrentAfterUpdate(file: ConfigFile, index: nat, monitor: string, path: string)
    requires UpdateWallpaper(file, index, monitor, path).Ok? && ',' !in Trim(monitor)
    ensures CurrentWallpaper(Some(GetConfig(Some(UpdateWallpaper(file, index, monitor, path).value)).value))
      == Some(Wallpaper(Trim(monitor), Trim(path)))
  {
    UpdateWallpaperListed(file, index, monitor, path);
  }

  predicate IsSeparator(c: char) {
    c == '/' || c == '\\'
  }

  /** The default directory of `handleChangeWallpaper`: the current wallpaper's
      path up to, and without, its last `/` or `\`. There is none without a
      current wallpaper, for an empty path, or for a path with no separator. */
  function DefaultDirectory(current: Option<Wallpaper>): (r: Option<string>)
    ensures r.None? <==> current.None? || !(exists k :: 0 <= k < |current.value.path| && IsSeparator(current.value.path[k]))
    ensures r.Some? ==> var p := current.value.path;
      && |r.value| < |p| && p[..|r.value|] == r.value && IsSeparator(p[|r.value|])
      && forall k :: |r.value| < k < |p| ==> !IsSeparator(p[k])
  {
    match current
    case None => None
    case Some(w) =>
      if w.path == [] then None
      else
        var last := Max(LastIndexOf(w.path, '/'), LastIndexOf(w.path, '\\'));
        if last == -1 then None else Some(w.path[..last])
  }

  function Max(a: int, b: int): int {
    if a < b then b else a
  }

  /** The directory of a file name joined onto a directory is that directory. */
  lemma DirectoryOfJoined(monitor: string, dir: string, sep: char, name: string)
    requires IsSeparator(sep)
    requires forall k :: 0 <= k < |name| ==> !IsSeparator(name[k])
    ensures DefaultDirectory(Some(Wallpaper(monitor, dir + [sep] + name))) == Some(dir)
  {
    var p := dir + [sep] + name;
    assert IsSeparator(p[|dir|]);
    var d := DefaultDirectory(Some(Wallpaper(monitor, p))).value;
    assert forall k :: |dir| < k < |p| ==> p[k] == name[k - |dir| - 1];
    assert |d| == |dir|;
    assert d == p[..|dir|] == dir;
  }

  /** A separator at the very start gives the empty directory. */
  lemma RootDirectory(monitor: string, sep: char, name: string)
    requires IsSeparator(sep)
    requires forall k :: 0 <= k < |name| ==> !IsSeparator(name[k])
    ensures DefaultDirectory(Some(Wallpaper(monitor, [sep] + name))) == Some("")
  {
    assert [] + [sep] + name == [sep] + name;
    DirectoryOfJoined(monitor, "", sep, name);
  }

  // ---------------------------------------------------------------------------
  // Matugen preferences

  /** The page's matugen settings, which are also the fields of an
      `update_matugen_preferences` call. */
  datatype MatugenPrefs = MatugenPrefs(enable: bool, lightMode: bool, generatorType: string)

  /** A change made with one of the three controls. */
  datatype PrefChange =
    | SyncMatugen(checked: bool)
    | LightMode(checked: bool)
    | GeneratorType(value: string)

  /** The page's settings after a change, and the payload the change sends: the
      new value for the control's own field and the settings shown before the
      change for the other two. */
  function ChangePreference(prefs: MatugenPrefs, change: PrefChange): (r: (MatugenPrefs, MatugenPrefs))
    ensures change.SyncMatugen? ==>
      r.1.enable == change.checked && r.1.lightMode == prefs.lightMode && r.1.generatorType == prefs.generatorType
    ensures change.LightMode? ==>
      r.1.lightMode == change.checked && r.1.enable == prefs.enable && r.1.generatorType == prefs.generatorType
    ensures change.GeneratorType? ==>
      r.1.generatorType == change.value && r.1.enable == prefs.enable && r.1.lightMode == prefs.lightMode
  {
    match change
    case SyncMatugen(checked) =>
      (prefs.(enable := checked), MatugenPrefs(checked, prefs.lightMode, prefs.generatorType))
    case LightMode(checked) =>
      (prefs.(lightMode := checked), MatugenPrefs(prefs.enable, checked, prefs.generatorType))
    case GeneratorType(value) =>
      (prefs.(generatorType := value), MatugenPrefs(prefs.enable, prefs.lightMode, value))
  }

  /** What is saved is what the page shows after the change, so the saved and
      the shown settings never drift apart; and repeating a change changes
      nothing more. */
  lemma PayloadIsShown(prefs: MatugenPrefs, change: PrefChange)
    ensures ChangePreference(prefs, change).1 == ChangePreference(prefs, change).0
    ensures ChangePreference(ChangePreference(prefs, change).0, change) == ChangePreference(prefs, change)
  {
  }
}
