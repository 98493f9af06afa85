/** The hyprpaper commands: reading the wallpaper list out of the handler calls
    of `hyprpaper.conf`, and the handler-call edits made by the preload and
    wallpaper commands.

    Parsing and saving the file belong to the hyprlang library. A parsed file
    is modelled by its handler calls: for each keyword, the values it was given,
    in file order. A missing file is `None`. */
module HyprpaperBackend {
  import opened Wrappers
  import opened Text

  datatype Wallpaper = Wallpaper(monitor: string, path: string)

  datatype HyprpaperConfig = HyprpaperConfig(preloads: seq<string>, wallpapers: seq<Wallpaper>)

  /** For each handler keyword, its values in the order they appear. */
  type HandlerCalls = map<string, seq<string>>

  /** The config file, if it exists, as its handler calls. */
  type ConfigFile = Option<HandlerCalls>

  datatype PaperError =
    | EmptyPath                               // "Path cannot be empty"
    | ConfigNotFound                          // "Hyprpaper config file not found at …"
    | NoSuchCall(keyword: string, index: nat) // "Failed to remove … at index …"

  const PreloadKeyword: string := "preload"
  const WallpaperKeyword: string := "wallpaper"

  /** The values given to `keyword`; none when the keyword never occurs. */
  function Calls(h: HandlerCalls, keyword: string): seq<string> {
    if keyword in h then h[keyword] else []
  }

  // ---------------------------------------------------------------------------
  // The "monitor,path" value of a wallpaper call

  /** One wallpaper value split at its first `,`, both halves trimmed; a value
      without a `,` is no wallpaper. An empty monitor means every monitor. */
  function DecodeWallpaper(value: string): (r: Option<Wallpaper>)
    ensures r.None? <==> ',' !in value
    ensures r.Some? ==>
      var k := FindChar(value, ',').value;
      r.value == Wallpaper(Trim(value[..k]), Trim(value[k + 1..]))
  {
    match SplitOnce(value, ',')
    case None => None
    case Some((monitor, path)) => Some(Wallpaper(Trim(monitor), Trim(path)))
  }

  /** The wallpapers of a list of wallpaper values: the decodable ones, in
      order. */
  function DecodeWallpapers(values: seq<string>): seq<Wallpaper> {
    FilterMap(values, DecodeWallpaper)
  }

  /** Values without a `,` are all dropped. */
  lemma DecodeWallpapersDrops(values: seq<string>)
    requires forall i :: 0 <= i < |values| ==> ',' !in values[i]
    ensures DecodeWallpapers(values) == []
  {
    FilterMapNone(values, DecodeWallpaper);
  }

  /** When every value has a `,`, each one gives the wallpaper at its own
      position. */
  lemma DecodeWallpapersKeeps(values: seq<string>)
    requires forall i :: 0 <= i < |values| ==> ',' in values[i]
    ensures |DecodeWallpapers(values)| == |values|
    ensures forall i :: 0 <= i < |values| ==> DecodeWallpaper(values[i]) == Some(DecodeWallpapers(values)[i])
  {
    FilterMapAll(values, DecodeWallpaper);
  }

  /** The value `set_wallpaper` and `update_wallpaper` store. */
  function EncodeWallpaper(monitor: string, path: string): (r: string)
    ensures ',' in r
  {
    assert (Trim(monitor) + "," + Trim(path))[|Trim(monitor)|] == ',';
    Trim(monitor) + "," + Trim(path)
  }

  /** Decoding an encoded wallpaper gives back the trimmed monitor and path
      exactly when the trimmed monitor has no `,` of its own. */
  lemma EncodeDecode(monitor: string, path: string)
    ensures DecodeWallpaper(EncodeWallpaper(monitor, path)) == Some(Wallpaper(Trim(monitor), Trim(path)))
      <==> ',' !in Trim(monitor)
  {
    var m := Trim(monitor);
    var p := Trim(path);
    var v := EncodeWallpaper(monitor, path);
    TrimByIdempotent(monitor, IsRustSpace);
    TrimByIdempotent(path, IsRustSpace);
    if ',' !in m {
      SplitOnceUnique(v, ',', m, p);
    } else {
      CommaMonitorCut(monitor, path);
    }
  }

  /** With a `,` inside the monitor name the value is cut at that comma, so the
      decoded monitor is strictly shorter than the one encoded. */
  lemma CommaMonitorCut(monitor: string, path: string)
    requires ',' in Trim(monitor)
    ensures DecodeWallpaper(EncodeWallpaper(monitor, path)).Some?
    ensures |DecodeWallpaper(EncodeWallpaper(monitor, path)).value.monitor| < |Trim(monitor)|
  {
    var m := Trim(monitor);
    var v := EncodeWallpaper(monitor, path);
    var (a, b) := SplitOnce(v, ',').value;
    var j :| 0 <= j < |m| && m[j] == ',';
    assert v[j] == ',';
    assert forall i :: 0 <= i < |a| ==> v[i] == a[i];
    assert |a| <= j;
    assert v[..|a|] == a && v[|a| + 1..] == b;
    TrimByShape(a, IsRustSpace);
    assert |TrimStartBy(a, IsRustSpace)| <= |a|;
  }

  /** Decoding keeps the order of the values: decoding a concatenation
      concatenates the decodings. */
  lemma DecodeWallpapersAppend(a: seq<string>, b: seq<string>)
    ensures DecodeWallpapers(a + b) == DecodeWallpapers(a) + DecodeWallpapers(b)
  {
    FilterMapAppend(a, b, DecodeWallpaper);
  }

  // ---------------------------------------------------------------------------
  // Commands

  /** `get_hyprpaper_config`: the preload values as they are and the decodable
      wallpaper values. */
  function GetConfig(file: ConfigFile): (r: Result<HyprpaperConfig, PaperError>)
    ensures r.Ok? <==> file.Some?
    ensures r.Err? ==> r.error == ConfigNotFound
    ensures r.Ok? ==> r.value.preloads == Calls(file.value, PreloadKeyword)
    ensures r.Ok? ==> |r.value.wallpapers| <= |Calls(file.value, WallpaperKeyword)|
    ensures r.Ok? ==> r.value.wallpapers == DecodeWallpapers(Calls(file.value, WallpaperKeyword))
  {
    match file
    case None => Err(ConfigNotFound)
    case Some(h) => Ok(HyprpaperConfig(Calls(h, PreloadKeyword), DecodeWallpapers(Calls(h, WallpaperKeyword))))
  }

  /** A path made of whitespace only is rejected. */
  predicate BlankPath(path: string) {
    Trim(path) == []
  }

  lemma BlankPathIsAllSpace(path: string)
    ensures BlankPath(path) <==> All(path, IsRustSpace)
  {
    TrimByShape(path, IsRustSpace);
  }

  /** hyprlang's `add_handler_call`: the value goes after the keyword's other
      values. */
  function AddCall(h: HandlerCalls, keyword: string, value: string): (r: HandlerCalls)
    ensures Calls(r, keyword) == Calls(h, keyword) + [value]
    ensures forall k :: k != keyword ==> Calls(r, k) == Calls(h, k)
  {
    h[keyword := Calls(h, keyword) + [value]]
  }

  /** hyprlang's `remove_handler_call`: the value at `index` is dropped; an
      index past the end is an error. */
  function RemoveCall(h: HandlerCalls, keyword: string, index: nat): (r: Option<HandlerCalls>)
    ensures r.Some? <==> index < |Calls(h, keyword)|
    ensures r.Some? ==> |Calls(r.value, keyword)| == |Calls(h, keyword)| - 1
    ensures r.Some? ==> forall i :: 0 <= i < index ==> Calls(r.value, keyword)[i] == Calls(h, keyword)[i]
    ensures r.Some? ==> forall i :: index <= i < |Calls(r.value, keyword)| ==>
      Calls(r.value, keyword)[i] == Calls(h, keyword)[i + 1]
    ensures r.Some? ==> forall k :: k != keyword ==> Calls(r.value, k) == Calls(h, k)
  {
    var vs := Calls(h, keyword);
    if index < |vs| then Some(h[keyword := vs[..index] + vs[index + 1..]]) else None
  }

  /** The file a creating command works on: a missing file is created empty. */
  function OrEmpty(file: ConfigFile): HandlerCalls {
    match file
    case None => map[]
    case Some(h) => h
  }

  /** `add_preload`: the trimmed path becomes the last preload. The path is
      checked before the file is looked at. */
  function AddPreload(file: ConfigFile, path: string): (r: Result<HandlerCalls, PaperError>)
    ensures r.Ok? <==> !BlankPath(path)
    ensures r.Err? ==> r.error == EmptyPath
    ensures r.Ok? ==> Calls(r.value, PreloadKeyword) == Calls(OrEmpty(file), PreloadKeyword) + [Trim(path)]
    ensures r.Ok? ==> forall k :: k != PreloadKeyword ==> Calls(r.value, k) == Calls(OrEmpty(file), k)
  {
    if BlankPath(path) then Err(EmptyPath)
    else Ok(AddCall(OrEmpty(file), PreloadKeyword, Trim(path)))
  }

  /** `remove_preload`: the preload at `index` is dropped. */
  function RemovePreload(file: ConfigFile, index: nat): (r: Result<HandlerCalls, PaperError>)
    ensures file.None? <==> r == Err(ConfigNotFound)
    ensures r.Ok? <==> file.Some? && index < |Calls(file.value, PreloadKeyword)|
    ensures r.Err? && file.Some? ==> r.error == NoSuchCall(PreloadKeyword, index)
    ensures r.Ok? ==> |Calls(r.value, PreloadKeyword)| == |Calls(file.value, PreloadKeyword)| - 1
    ensures r.Ok? ==>
      Calls(r.value, PreloadKeyword) == Calls(file.value, PreloadKeyword)[..index] + Calls(file.value, PreloadKeyword)[index + 1..]
    ensures r.Ok? ==> forall k :: k != PreloadKeyword ==> Calls(r.value, k) == Calls(file.value, k)
  {
    match file
    case None => Err(ConfigNotFound)
    case Some(h) =>
      match RemoveCall(h, PreloadKeyword, index)
      case None => Err(NoSuchCall(PreloadKeyword, index))
      case Some(h') => Ok(h')
  }

  /** `set_wallpaper`: the encoded wallpaper becomes the last wallpaper value;
      an earlier value for the same monitor stays. */
  function SetWallpaper(file: ConfigFile, monitor: string, path: string): (r: Result<HandlerCalls, PaperError>)
    ensures r.Ok? <==> !BlankPath(path)
    ensures r.Err? ==> r.error == EmptyPath
    ensures r.Ok? ==>
      Calls(r.value, WallpaperKeyword) == Calls(OrEmpty(file), WallpaperKeyword) + [EncodeWallpaper(monitor, path)]
    ensures r.Ok? ==> forall k :: k != WallpaperKeyword ==> Calls(r.value, k) == Calls(OrEmpty(file), k)
  {
    if BlankPath(path) then Err(EmptyPath)
    else Ok(AddCall(OrEmpty(file), WallpaperKeyword, EncodeWallpaper(monitor, path)))
  }

  /** `remove_wallpaper`: the wallpaper value at `index` is dropped. */
  function RemoveWallpaper(file: ConfigFile, index: nat): (r: Result<HandlerCalls, PaperError>)
    ensures file.None? <==> r == Err(ConfigNotFound)
    ensures r.Ok? <==> file.Some? && index < |Calls(file.value, WallpaperKeyword)|
    ensures r.Err? && file.Some? ==> r.error == NoSuchCall(WallpaperKeyword, index)
    ensures r.Ok? ==> |Calls(r.value, WallpaperKeyword)| == |Calls(file.value, WallpaperKeyword)| - 1
    ensures r.Ok? ==>
      Calls(r.value, WallpaperKeyword) == Calls(file.value, WallpaperKeyword)[..index] + Calls(file.value, WallpaperKeyword)[index + 1..]
    ensures r.Ok? ==> forall k :: k != WallpaperKeyword ==> Calls(r.value, k) == Calls(file.value, k)
  {
    match file
    case None => Err(ConfigNotFound)
    case Some(h) =>
      match RemoveCall(h, WallpaperKeyword, index)
      case None => Err(NoSuchCall(WallpaperKeyword, index))
      case Some(h') => Ok(h')
  }

  /** `update_wallpaper`: the value at `index` is removed and the new one is
      appended, so the edited wallpaper moves to the end. */
  function UpdateWallpaper(file: ConfigFile, index: nat, monitor: string, path: string)
    : (r: Result<HandlerCalls, PaperError>)
    ensures BlankPath(path) <==> r == Err(EmptyPath)
    ensures !BlankPath(path) && file.None? ==> r == Err(ConfigNotFound)
    ensures !BlankPath(path) && file.Some? && r.Err? ==> r.error == NoSuchCall(WallpaperKeyword, index)
    ensures r.Ok? <==> !BlankPath(path) && file.Some? && index < |Calls(file.value, WallpaperKeyword)|
    ensures r.Ok? ==> |Calls(r.value, WallpaperKeyword)| == |Calls(file.value, WallpaperKeyword)|
    ensures r.Ok? ==> forall k :: k != WallpaperKeyword ==> Calls(r.value, k) == Calls(file.value, k)
  {
    if BlankPath(path) then Err(EmptyPath)
    else match file
      case None => Err(ConfigNotFound)
      case Some(h) =>
        match RemoveCall(h, WallpaperKeyword, index)
        case None => Err(NoSuchCall(WallpaperKeyword, index))
        case Some(h') => Ok(AddCall(h', WallpaperKeyword, EncodeWallpaper(monitor, path)))
  }

  /** One `keyword = value` line of a hyprpaper config. */
  function KeywordLine(keyword: string, value: string): string {
    keyword + " = " + value + "\n"
  }

  /** `replace_wallpaper`: the whole file is replaced by one preload line and
      one wallpaper line for the trimmed path. */
  function ReplaceWallpaper(monitor: string, path: string): (r: Result<string, PaperError>)
    ensures r.Ok? <==> !BlankPath(path)
    ensures r.Err? ==> r.error == EmptyPath
    ensures r.Ok? ==>
      r.value == KeywordLine(PreloadKeyword, Trim(path)) + KeywordLine(WallpaperKeyword, EncodeWallpaper(monitor, path))
  {
    if BlankPath(path) then Err(EmptyPath)
    else
      var p := Trim(path);
      var m := Trim(monitor);
      ReplacedLines(m, p);
      Ok("preload = " + p + "\nwallpaper = " + m + "," + p + "\n")
  }

  lemma ReplacedLines(m: string, p: string)
    ensures "preload = " + p + "\nwallpaper = " + m + "," + p + "\n"
      == KeywordLine(PreloadKeyword, p) + KeywordLine(WallpaperKeyword, m + "," + p)
  {
    assert PreloadKeyword + " = " == "preload = ";
    assert WallpaperKeyword + " = " == "wallpaper = ";
    assert "\n" + "wallpaper = " == "\nwallpaper = ";
  }

  // ---------------------------------------------------------------------------
  // The commands as seen through `get_hyprpaper_config`

  /** After `set_wallpaper` the listed wallpapers are the old ones followed by
      the new one. */
  lemma SetWallpaperAppends(file: ConfigFile, monitor: string, path: string)
    requires !BlankPath(path) && ',' !in Trim(monitor)
    ensures GetConfig(Some(SetWallpaper(file, monitor, path).value)).value.wallpapers
      == GetConfig(Some(OrEmpty(file))).value.wallpapers + [Wallpaper(Trim(monitor), Trim(path))]
    ensures GetConfig(Some(SetWallpaper(file, monitor, path).value)).value.preloads
      == GetConfig(Some(OrEmpty(file))).value.preloads
  {
    var before := Calls(OrEmpty(file), WallpaperKeyword);
    var v := EncodeWallpaper(monitor, path);
    DecodeWallpapersAppend(before, [v]);
    EncodeDecode(monitor, path);
    assert DecodeWallpapers([v]) == [Wallpaper(Trim(monitor), Trim(path))] by {
      assert [v][1..] == [];
    }
  }

  /** After `add_preload` the listed preloads end with the trimmed path and the
      wallpapers are as before. */
  lemma AddPreloadAppends(file: ConfigFile, path: string)
    requires !BlankPath(path)
    ensures GetConfig(Some(AddPreload(file, path).value)).value
      == GetConfig(Some(OrEmpty(file))).value.(preloads := GetConfig(Some(OrEmpty(file))).value.preloads + [Trim(path)])
  {
  }

  /** After `update_wallpaper` the values other than the edited one keep their
      relative order and the new value is last. */
  lemma UpdateWallpaperMovesLast(file: ConfigFile, index: nat, monitor: string, path: string)
    requires UpdateWallpaper(file, index, monitor, path).Ok?
    ensures var before := Calls(file.value, WallpaperKeyword);
      Calls(UpdateWallpaper(file, index, monitor, path).value, WallpaperKeyword)
        == before[..index] + before[index + 1..] + [EncodeWallpaper(monitor, path)]
  {
    var before := Calls(file.value, WallpaperKeyword);
    var h' := RemoveCall(file.value, WallpaperKeyword, index).value;
    assert Calls(h', WallpaperKeyword) == before[..index] + before[index + 1..];
  }

  /** Seen through `get_hyprpaper_config`, `remove_wallpaper` drops the
      wallpaper decoded from the removed value, if it had one, and keeps the
      order of the rest. */
  lemma RemoveWallpaperListed(file: ConfigFile, index: nat)
    requires RemoveWallpaper(file, index).Ok?
    ensures var before := Calls(file.value, WallpaperKeyword);
      GetConfig(Some(RemoveWallpaper(file, index).value)).value.wallpapers
        == DecodeWallpapers(before[..index]) + DecodeWallpapers(before[index + 1..])
  {
    var before := Calls(file.value, WallpaperKeyword);
    var after := Calls(RemoveWallpaper(file, index).value, WallpaperKeyword);
    assert after == before[..index] + before[index + 1..];
    DecodeWallpapersAppend(before[..index], before[index + 1..]);
  }

  /** Seen through `get_hyprpaper_config`, `remove_preload` drops the preload
      at the index, keeps the order of the rest, and leaves the wallpapers
      alone. */
  lemma RemovePreloadListed(file: ConfigFile, index: nat)
    requires RemovePreload(file, index).Ok?
    ensures var before := GetConfig(file).value;
      var after := GetConfig(Some(RemovePreload(file, index).value)).value;
      && after.preloads == before.preloads[..index] + before.preloads[index + 1..]
      && after.wallpapers == before.wallpapers
  {
  }

  /** Seen through `get_hyprpaper_config`, `update_wallpaper` leaves the
      preloads alone. */
  lemma UpdateWallpaperKeepsPreloads(file: ConfigFile, index: nat, monitor: string, path: string)
    requires UpdateWallpaper(file, index, monitor, path).Ok?
    ensures GetConfig(Some(UpdateWallpaper(file, index, monitor, path).value)).value.preloads
      == GetConfig(file).value.preloads
  {
  }

  /** Seen through `get_hyprpaper_config`, `update_wallpaper` moves the edited
      wallpaper to the end of the list. */
  lemma UpdateWallpaperListed(file: ConfigFile, index: nat, monitor: string, path: string)
    requires UpdateWallpaper(file, index, monitor, path).Ok? && ',' !in Trim(monitor)
    ensures var before := Calls(file.value, WallpaperKeyword);
      GetConfig(Some(UpdateWallpaper(file, index, monitor, path).value)).value.wallpapers
        == DecodeWallpapers(before[..index]) + DecodeWallpapers(before[index + 1..])
          + [Wallpaper(Trim(monitor), Trim(path))]
  {
    var before := Calls(file.value, WallpaperKeyword);
    var v := EncodeWallpaper(monitor, path);
    UpdateWallpaperMovesLast(file, index, monitor, path);
    DecodeWallpapersAppend(before[..index] + before[index + 1..], [v]);
    DecodeWallpapersAppend(before[..index], before[index + 1..]);
    EncodeDecode(monitor, path);
    assert DecodeWallpapers([v]) == [Wallpaper(Trim(monitor), Trim(path))] by {
      assert [v][1..] == [];
    }
  }

  /** The file `replace_wallpaper` writes names the same path in its preload and
      in its wallpaper. */
  lemma ReplaceWallpaperAgrees(monitor: string, path: string)
    requires !BlankPath(path) && ',' !in Trim(monitor)
    ensures DecodeWallpaper(EncodeWallpaper(monitor, path)).value.path == Trim(path)
    ensures ReplaceWallpaper(monitor, path).Ok?
  {
    EncodeDecode(monitor, path);
  }
}
