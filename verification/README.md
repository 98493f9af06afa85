# hyprconfig core, modelled in Dafny

hyprconfig is a desktop settings application for the Hyprland compositor: a
Tauri backend in Rust and a React frontend in TypeScript. The repository has
no engine for parsing or rewriting the Hyprland configuration. Its keybind,
variable and rule commands are only registered, with no implementation. What
the repository does contain is a set of small, deterministic text-processing
and state-transition routines. This project models those routines as pure
Dafny functions and proves properties about them:

- **Keybind helpers** (`src/utils/keybinds.ts`, module `KeybindUtils`):
  - the badge style of a modifier;
  - the description of a dispatcher;
  - the lossless split of a bind command into literal text and `$name`
    variable references;
  - the lookup of a variable's value.
- **`wpctl status` parsing** (`src-tauri/src/audio_backend.rs`, module
  `AudioBackend`):
  - the device-line parser;
  - the stream-line parser;
  - the `[MUTED]` test;
  - the section state machine that routes lines into sinks, sources and
    streams.
- **hyprpaper configuration** (`src-tauri/src/hyprpaper_backend.rs`, module
  `HyprpaperBackend`):
  - the `monitor,path` wallpaper encoding and its decoder;
  - path validation;
  - the list effects of adding, setting, updating and removing calls;
  - the exact text `replace_wallpaper` writes.
- **Keybind form** (`KeybindFormDialog.tsx`, module `KeybindForm`):
  - modifier toggling;
  - the dispatcher suggestion filter;
  - submit validation and the choice of command.
- **Pages and hooks**:
  - `AppearancePage`: the current wallpaper, the file picker's default
    directory, and the matugen preference payloads;
  - `AudioPage`: edits of one node by id, and the choice of what the page
    displays while it reloads;
  - `OsBackend`: the matugen argument vector and its result mapping;
  - `WifiSignal`: signal-strength bands;
  - `ThemeHook`: the light/dark theme hook, with storage and the root
    element's classes as explicit values.

Shared pieces live in two modules:

- `Wrappers` holds `Option`, `Result` and a generic `FilterMap`.
- `Text` holds the string primitives the sources rely on:
  - Rust's `str::trim`, which strips Unicode `White_Space`;
  - JavaScript's `String.prototype.trim`, which also strips U+FEFF;
  - first and last occurrence, splitting at the first occurrence, and
    substring search;
  - ASCII case mapping;
  - Rust's `u32::from_str`, which accepts one leading `+`.

The hyprlang library's handler-call store is a `map<string, seq<string>>`
from keyword to values. A missing configuration file is `None`.

The command tokenizer contradicts itself on a lone `$`. When no name
character follows a `$`, `src/utils/keybinds.ts:51` appends the `$` to the
pending literal text, so a lone `$` is evidently meant to stay inside the
literal around it. But lines 35-38 have already flushed that pending literal
before the name check runs. The `$` therefore starts a new literal, right
after the flushed one, and two literal parts end up adjacent. Both behaviours
are modelled; see "## Findings".

## Model

| member | source | states |
|---|---|---|
| KeybindUtils.ModifierVariant | src/utils/keybinds.ts:5-14 | SUPER/MOD4/WIN give `default`, SHIFT gives `secondary`, CTRL/CONTROL give `destructive`, and every other name (ALT and MOD1 included) gives `outline`, all decided on the upper-cased name |
| KeybindUtils.ModifierVariantIgnoresCase | src/utils/keybinds.ts:8 | the style of a modifier does not depend on its capitalisation |
| KeybindUtils.DispatcherDescription | src/utils/keybinds.ts:17-22 | the table entry of the lower-cased dispatcher when it is present and non-empty, otherwise "Custom dispatcher command"; never empty |
| KeybindUtils.DispatcherDescriptionIgnoresCase | src/utils/keybinds.ts:18-21 | the description does not depend on the dispatcher's capitalisation |
| KeybindUtils.ParseCommandVariables | src/utils/keybinds.ts:25-65 | corrected tokenizer: the parts concatenate back to the command; every part is non-empty; every variable part is `$` plus a maximal non-empty run of `[A-Za-z0-9_]`; no two literal parts are adjacent |
| KeybindUtils.TokenizationUnique | src/utils/keybinds.ts:32-62 | at most one sequence of parts has those properties, so the corrected tokenizer's result is the only valid split of a command |
| KeybindUtils.VariableIsMaximal | src/utils/keybinds.ts:41-50 | in any split, the character after a variable part, if there is one, is not a name character |
| KeybindUtils.NoDollarIsOneLiteral | src/utils/keybinds.ts:32-62 | a command without `$` is one literal part, or no part when it is empty |
| KeybindUtils.ParseCommandVariablesAsWritten | src/utils/keybinds.ts:25-65 | the loop as written: lossless, with non-empty parts and maximal variables, but literals may be adjacent |
| KeybindUtils.AsWrittenSplitsAtLoneDollar | src/utils/keybinds.ts:35-38 | as written, `a$ b` is split into the literals `a` and `$ b`; corrected, it is one literal |
| KeybindUtils.CorrectedKeepsLoneDollar | src/utils/keybinds.ts:51-52 | a `$` followed by no name character stays inside the literal `a$ b` |
| KeybindUtils.AsWrittenMergesToCorrected | src/utils/keybinds.ts:32-62 | merging adjacent literals of the as-written result gives exactly the corrected result, for every command |
| KeybindUtils.MergeLiteralsSound | src/utils/keybinds.ts:32-62 | merging the adjacent literals of a loosely well-formed split gives a well-formed split, so no two literals are adjacent, with the same concatenation; the first part keeps its kind and first character |
| KeybindUtils.StripDollar | src/utils/keybinds.ts:72 | exactly one leading `$` is removed, if there is one |
| KeybindUtils.FindVariable | src/utils/keybinds.ts:73 | the index of the first variable with exactly that name; none when no variable has it |
| KeybindUtils.VariableValue | src/utils/keybinds.ts:68-75 | the value of the first variable named like the reference without its `$`; null exactly when no variable has that name |
| KeybindUtils.VariableValueDollarOptional | src/utils/keybinds.ts:72-74 | `$name` and `name` look up the same value; of `$$name` only one `$` is stripped |
| Text.TrimByShape | src-tauri/src/hyprpaper_backend.rs:88 | a trimmed string has no droppable character at either end, and it is empty exactly when the input is all droppable characters |
| Text.TrimByIdempotent | src/components/keybinds/KeybindFormDialog.tsx:114-122 | trimming twice is trimming once |
| Text.SplitOnce | src-tauri/src/audio_backend.rs:116-121 | `find` of the dot and the slices on either side of it: none exactly when the character is absent; otherwise the two halves around its first occurrence |
| Text.ParseU32 | src-tauri/src/audio_backend.rs:83 | Rust `u32::from_str`: a parsed value is below 2^32, and the parsed text is an optional `+`, then zeros, then the decimal text of the value |
| Text.ZerosThenDecimal | src-tauri/src/audio_backend.rs:83 | every digit string is some leading zeros followed by the canonical decimal text of its value |
| Text.ParseU32OfPadded | src-tauri/src/audio_backend.rs:83 | leading zeros, with or without a leading `+`, do not change the parsed u32 |
| Text.ParseU32OfDecimal | src-tauri/src/audio_backend.rs:83 | the decimal text of any u32, with or without a leading `+`, parses back to it |
| Text.ParseU32Rejects | src-tauri/src/audio_backend.rs:83 | the empty text, a lone `+`, a leading `-` and a leading non-digit other than `+` are rejected |
| Text.LastIndexOf | src/pages/Appearance.tsx:108-111 | `lastIndexOf` of one character: -1 exactly when absent, otherwise the last position holding it |
| Text.UpperOfLower | src/utils/keybinds.ts:8 | upper-casing a lower-cased string equals upper-casing the string |
| AudioBackend.BeforeChar | src-tauri/src/audio_backend.rs:124-131 | the prefix before the first occurrence of a character, or the whole text |
| AudioBackend.DeviceDescription | src-tauri/src/audio_backend.rs:86-97 | without any occurrence of `[vol:` the text unchanged; otherwise the trimmed text before its first occurrence |
| AudioBackend.InlineVolumeText | src-tauri/src/audio_backend.rs:89-93 | the slice after `[vol:` up to the next `]` is always in bounds: the bracket lies at least five characters after the tag's start |
| AudioBackend.ParseDeviceLine | src-tauri/src/audio_backend.rs:75-108 | none when the stripped content has no `.` or the trimmed id is not a u32; default iff the tree-stripped line starts with `*`; name and description are both the cut description; type copied; volume 0, unmuted |
| AudioBackend.DeviceLineRoundTrip | src-tauri/src/audio_backend.rs:75-108 | a device line built from tree drawing, a marker, an id, a name and a volume tag parses back to that id, name and default flag |
| AudioBackend.StreamNames | src-tauri/src/audio_backend.rs:121-131 | with a first `:` at c, the app name is the trimmed text before c and the media name is the trimmed text after c up to the next `[`, dropped exactly when empty; without `:` the app name is the trimmed text up to the first `[` and there is no media name |
| AudioBackend.ParseStreamLine | src-tauri/src/audio_backend.rs:112-140 | none without a `.` or when the id, after an optional `*`, is not a u32; otherwise the names of the text after the dot, volume 0, unmuted |
| AudioBackend.StreamLineRoundTrip | src-tauri/src/audio_backend.rs:112-140 | a stream line built from an optional `*`, an id, an app name, a media name and a volume tag parses back to them |
| AudioBackend.StreamVolumeTagColon | src-tauri/src/audio_backend.rs:121-131 | the `:` is searched in the whole rest, volume tag included: a line with a volume tag but no media name gets the app name `name [vol` and, as media name, the volume text and its closing `]` |
| AudioBackend.ReportsMuted | src-tauri/src/audio_backend.rs:62 | muted exactly when the output contains `[MUTED]` at some position |
| AudioBackend.Collect | src-tauri/src/audio_backend.rs:219-236 | the list of the current subsection gets the parsed entry exactly when the line parses, every other list is unchanged, and the section state is kept |
| AudioBackend.ParseStatus | src-tauri/src/audio_backend.rs:165-237 | sinks are all of type `sink`, sources of type `source`, and output without an `Audio` line yields nothing |
| AudioBackend.ContentLineCollected | src-tauri/src/audio_backend.rs:219-236 | after any prefix, a content line appends its parsed entry to the list of the current subsection exactly when it parses, and leaves the other lists as they were |
| AudioBackend.HeaderThenLine | src-tauri/src/audio_backend.rs:178-236 | after an `Audio` line and a subsection header, one line yields exactly its parsed entry in that subsection's list and nothing elsewhere |
| AudioBackend.SinkLineListed | src-tauri/src/audio_backend.rs:178-222 | `Audio`, `Sinks:` and a parsing device line give exactly that sink, and no sources or streams |
| AudioBackend.StepShape | src-tauri/src/audio_backend.rs:178-236 | on a content line the state is kept and the current subsection's list gets the parsed entry exactly when the line parses; any line changes the section state or appends at most one entry, never both |
| AudioBackend.ScanKeepsInvariant | src-tauri/src/audio_backend.rs:178-191 | outside the Audio section the subsection stays "none" |
| AudioBackend.ScanAppend | src-tauri/src/audio_backend.rs:165-237 | scanning two blocks of lines is scanning the first, then the second |
| AudioBackend.ScanExtends | src-tauri/src/audio_backend.rs:219-236 | entries are only appended in line order; collected entries are never changed or reordered |
| AudioBackend.ScanTypes | src-tauri/src/audio_backend.rs:219-229 | every collected sink has type `sink` and every source has type `source` |
| AudioBackend.OutsideAudioAddsNothing | src-tauri/src/audio_backend.rs:178-191 | outside the Audio section nothing changes until a line starts with `Audio` |
| AudioBackend.WithoutAudioHeader | src-tauri/src/audio_backend.rs:178-191 | output without a line starting with `Audio` yields no devices and no streams |
| AudioBackend.AfterVideoAddsNothing | src-tauri/src/audio_backend.rs:182-186 | a `Video` or `Settings` line ends collection until the next `Audio` line |
| AudioBackend.NoSectionAddsNothing | src-tauri/src/audio_backend.rs:205-208 | while the subsection is "none", nothing is collected until a `Sinks:`, `Sources:` or `Streams:` line |
| AudioBackend.DevicesHeaderSuspends | src-tauri/src/audio_backend.rs:205-208 | a `Devices:` or `Filters:` line suspends collection until the next subsection header |
| HyprpaperBackend.DecodeWallpaper | src-tauri/src/hyprpaper_backend.rs:65-77 | a value is a wallpaper exactly when it contains a `,`: monitor and path are the trimmed halves around the first `,`, and an empty monitor stays empty (every monitor) |
| HyprpaperBackend.DecodeWallpapersDrops | src-tauri/src/hyprpaper_backend.rs:67-77 | values without a `,` contribute no wallpaper |
| HyprpaperBackend.DecodeWallpapersKeeps | src-tauri/src/hyprpaper_backend.rs:67-77 | when every value has a `,`, there is one wallpaper per value, in call order |
| HyprpaperBackend.DecodeWallpapersAppend | src-tauri/src/hyprpaper_backend.rs:67-77 | decoding is order-preserving: decoding a concatenation concatenates the decodings |
| HyprpaperBackend.EncodeWallpaper | src-tauri/src/hyprpaper_backend.rs:186 | the encoded value always contains the `,` separator |
| HyprpaperBackend.EncodeDecode | src-tauri/src/hyprpaper_backend.rs:71-76 | decoding an encoded wallpaper gives back the trimmed monitor and path exactly when the trimmed monitor contains no `,` |
| HyprpaperBackend.CommaMonitorCut | src-tauri/src/hyprpaper_backend.rs:71-76 | a monitor containing `,` is cut short by the decoder |
| HyprpaperBackend.GetConfig | src-tauri/src/hyprpaper_backend.rs:29-83 | fails with "not found" exactly when there is no file; otherwise the preloads are the preload calls and the wallpapers are the decoded wallpaper calls, in call order |
| HyprpaperBackend.BlankPathIsAllSpace | src-tauri/src/hyprpaper_backend.rs:88-90 | a path is rejected exactly when it is all white space |
| HyprpaperBackend.AddCall | src-tauri/src/hyprpaper_backend.rs:113 | adding a call appends to its keyword's list and leaves every other keyword's list alone |
| HyprpaperBackend.RemoveCall | src-tauri/src/hyprpaper_backend.rs:147-149 | removing succeeds exactly for an index in range; the later values shift down by one; other keywords are unchanged |
| HyprpaperBackend.AddPreload | src-tauri/src/hyprpaper_backend.rs:86-122 | a blank path fails with "empty path"; otherwise the trimmed path is appended to the preloads of the file, or of a new one, and nothing else changes |
| HyprpaperBackend.RemovePreload | src-tauri/src/hyprpaper_backend.rs:125-157 | no file means "not found"; an index out of range fails; success leaves the preload values before and after the index, in order, and changes nothing else |
| HyprpaperBackend.RemovePreloadListed | src-tauri/src/hyprpaper_backend.rs:147-149 | as read back, the preloads lose exactly the one at the index and the wallpapers are unchanged |
| HyprpaperBackend.SetWallpaper | src-tauri/src/hyprpaper_backend.rs:160-199 | a blank path fails with "empty path"; otherwise the encoded wallpaper is appended, never replacing one for the same monitor, and nothing else changes |
| HyprpaperBackend.RemoveWallpaper | src-tauri/src/hyprpaper_backend.rs:202-234 | no file means "not found"; an index out of range fails; success leaves the wallpaper values before and after the index, in order, and changes nothing else |
| HyprpaperBackend.UpdateWallpaper | src-tauri/src/hyprpaper_backend.rs:237-282 | checks in order: empty path, then a missing file, then the index; success keeps the number of wallpaper values and leaves every other keyword's calls unchanged |
| HyprpaperBackend.UpdateWallpaperKeepsPreloads | src-tauri/src/hyprpaper_backend.rs:263-274 | as read back, an update leaves the preloads unchanged |
| HyprpaperBackend.ReplaceWallpaper | src-tauri/src/hyprpaper_backend.rs:285-306 | a blank path fails; otherwise the file text is exactly `preload = P` and `wallpaper = M,P`, one per line, with M and P trimmed |
| HyprpaperBackend.SetWallpaperAppends | src-tauri/src/hyprpaper_backend.rs:186-191 | as read back, the wallpapers are the old ones followed by the new one, and the preloads are unchanged |
| HyprpaperBackend.AddPreloadAppends | src-tauri/src/hyprpaper_backend.rs:113 | as read back, the preloads end with the trimmed path and the wallpapers are unchanged |
| HyprpaperBackend.UpdateWallpaperMovesLast | src-tauri/src/hyprpaper_backend.rs:263-274 | update removes the value at the index and appends the new one, so the other values keep their order and the new value is last |
| HyprpaperBackend.RemoveWallpaperListed | src-tauri/src/hyprpaper_backend.rs:224-226 | as read back, removal drops the wallpaper of the removed value, if it had one, and keeps the order of the rest |
| HyprpaperBackend.UpdateWallpaperListed | src-tauri/src/hyprpaper_backend.rs:263-274 | as read back, the updated wallpaper is last and the others keep their order |
| HyprpaperBackend.ReplaceWallpaperAgrees | src-tauri/src/hyprpaper_backend.rs:299-305 | the written wallpaper decodes to the same path as the written preload |
| KeybindForm.RemoveAll | src/components/keybinds/KeybindFormDialog.tsx:70 | every copy of the modifier is removed and every other modifier is kept with its multiplicity |
| KeybindForm.ToggleModifier | src/components/keybinds/KeybindFormDialog.tsx:68-74 | a selected modifier is removed everywhere; an unselected one is appended at the end |
| KeybindForm.RemoveAllKeepsOthers | src/components/keybinds/KeybindFormDialog.tsx:70 | deselecting one modifier keeps every other modifier and adds none |
| KeybindForm.ToggleTwiceAbsent | src/components/keybinds/KeybindFormDialog.tsx:68-74 | toggling an unselected modifier twice restores the list |
| KeybindForm.ToggleTwicePresent | src/components/keybinds/KeybindFormDialog.tsx:68-74 | toggling a selected modifier twice leaves one copy of it at the end |
| KeybindForm.Matching | src/components/keybinds/KeybindFormDialog.tsx:80-82 | a dispatcher is kept exactly when its lower-cased form contains the lower-cased input |
| KeybindForm.MatchingAppend | src/components/keybinds/KeybindFormDialog.tsx:80-82 | the filter keeps list order |
| KeybindForm.Suggestions | src/components/keybinds/KeybindFormDialog.tsx:76-87 | nothing for a blank input; otherwise the first min(8, matches) matching dispatchers, in list order |
| KeybindForm.SuggestionsIgnoreCase | src/components/keybinds/KeybindFormDialog.tsx:79-86 | the suggestions do not depend on the case of the input |
| KeybindForm.BlankIgnoresCase | src/components/keybinds/KeybindFormDialog.tsx:79 | upper-casing keeps a blank input blank and a non-blank one non-blank |
| KeybindForm.Submit | src/components/keybinds/KeybindFormDialog.tsx:89-137 | "Key is required" before "Dispatcher is required"; `add_bindu` iff bindu; `edit_keybind` iff not bindu and editing; the index is sent only with an edit; modifiers unchanged; key, dispatcher and params are the trimmed inputs |
| KeybindForm.SubmitSeesTrimmed | src/components/keybinds/KeybindFormDialog.tsx:110-123 | submitting the trimmed fields gives the same outcome, error or call, as the typed ones |
| KeybindForm.BinduNeverEdits | src/components/keybinds/KeybindFormDialog.tsx:104-108 | a bindu form adds, with no index, even when opened on an existing keybind |
| KeybindForm.ResubmitSame | src/components/keybinds/KeybindFormDialog.tsx:110-123 | submitting the submitted fields again sends the same call |
| AppearancePage.CurrentWallpaper | src/pages/Appearance.tsx:201-205 | none without a config or wallpapers; otherwise the last listed wallpaper |
| AppearancePage.CurrentAfterSet | src/pages/Appearance.tsx:201-205 | after `set_wallpaper` the current wallpaper is the one just set |
| AppearancePage.CurrentAfterUpdate | src/pages/Appearance.tsx:201-205 | after `update_wallpaper` the current wallpaper is the one just written |
| AppearancePage.DefaultDirectory | src/pages/Appearance.tsx:105-115 | the path before its last `/` or `\`, excluding the separator; none without a current wallpaper or a separator |
| AppearancePage.DirectoryOfJoined | src/pages/Appearance.tsx:108-113 | the directory of `dir + separator + name` is `dir` |
| AppearancePage.RootDirectory | src/pages/Appearance.tsx:112-113 | a separator at index 0 gives the empty directory |
| AppearancePage.ChangePreference | src/pages/Appearance.tsx:162-199 | each control sends its new value for its own field and the settings shown before the change for the other two |
| AppearancePage.PayloadIsShown | src/pages/Appearance.tsx:162-199 | the payload equals the settings the page shows afterwards, and repeating a change changes nothing more |
| AudioPage.UpdateDevices | src/pages/Audio.tsx:62-72 | only entries with that id get the new volume or mute flag; length, order and every other entry and field are unchanged |
| AudioPage.UpdateStreams | src/pages/Audio.tsx:62-72 | the same for streams |
| AudioPage.UpdateState | src/pages/Audio.tsx:61-73 | nothing happens without a loaded state; otherwise all three lists are edited |
| AudioPage.UnknownIdChangesNothing | src/pages/Audio.tsx:62-72 | an edit for an id that no node carries leaves the state unchanged |
| AudioPage.EditIdempotent | src/pages/Audio.tsx:62-72 | applying an edit twice is applying it once |
| AudioPage.VolumeChange | src/pages/Audio.tsx:59-73 | nothing happens without a loaded state; otherwise every sink, source and stream whose id is the node's gets the new volume, and every other entry, the lengths and the order are unchanged |
| AudioPage.MuteToggle | src/pages/Audio.tsx:92-106 | nothing happens without a loaded state; otherwise every sink, source and stream whose id is the node's gets `muted` set to the negation of the value the button showed, and every other entry, the lengths and the order are unchanged |
| AudioPage.MuteToggleTwice | src/pages/Audio.tsx:92-107 | pressing mute twice, each time with the value shown, restores the state |
| AudioPage.EditsCommute | src/pages/Audio.tsx:59-116 | edits of two different nodes can be applied in either order |
| AudioPage.DisplayState | src/pages/Audio.tsx:129-130 | the cached state while loading with a cache, otherwise the live state |
| AudioPage.ShowSkeleton | src/pages/Audio.tsx:131 | placeholders only without an error and only during a load; always during the first load without an error |
| AudioPage.ReloadShowsCache | src/pages/Audio.tsx:129-131 | a reload with a cache shows the cache and no placeholders; without one it shows placeholders unless there is an error |
| OsBackend.MatugenArgs | src-tauri/src/os_backend.rs:19-25 | starts with `image` and the path, ends with `--type` and the generator, has `--mode light` in between iff light mode, so 6 arguments in light mode and 4 otherwise |
| OsBackend.MatugenArgsRoundTrip | src-tauri/src/os_backend.rs:19-25 | the image path, the mode and the generator can be read back from the arguments |
| OsBackend.RunMatugen | src-tauri/src/os_backend.rs:26-36 | success iff the process ran and exited successfully; otherwise "Failed to execute matugen: " with the spawn error, or "Matugen failed: " with stderr |
| OsBackend.FailuresDistinguishable | src-tauri/src/os_backend.rs:26-36 | different failures give different error texts |
| WifiSignal.StrengthText | src/components/network/WifiNetworkCard.tsx:19-24 | Excellent from 75, Good from 50, Fair from 25, Weak below; lower bounds inclusive |
| WifiSignal.StrengthColor | src/components/network/WifiNetworkCard.tsx:26-31 | green, yellow, orange and red at the same thresholds |
| WifiSignal.TextAndColorAgree | src/components/network/WifiNetworkCard.tsx:19-31 | text and colour come from the same band |
| WifiSignal.BandOf | src/components/network/WifiNetworkCard.tsx:19-31 | the band's rank is the number of thresholds reached |
| WifiSignal.BandMonotone | src/components/network/WifiNetworkCard.tsx:19-31 | a higher strength never gives a weaker band |
| ThemeHook.InitialTheme | src/hooks/use-theme.ts:6-11 | dark exactly when the stored value is `dark`; light for `light`, for any other value and when nothing is stored |
| ThemeHook.Toggle | src/hooks/use-theme.ts:26-28 | toggling always changes the theme |
| ThemeHook.ToggleTwice | src/hooks/use-theme.ts:26-28 | toggling twice is the identity |
| ThemeHook.ApplyTheme | src/hooks/use-theme.ts:14-24 | the root has the `dark` class iff the theme is dark, other classes are unchanged, the theme is stored under `theme`, and other storage keys are unchanged |
| ThemeHook.ReloadRestores | src/hooks/use-theme.ts:6-9 | after the effect, initialising again restores the same theme |
| ThemeHook.ApplyIdempotent | src/hooks/use-theme.ts:14-24 | running the effect twice is running it once |

## Left out

- The Hyprland configuration engine for keybinds, variables, env vars, bindu, window rules and layer rules. The commands are only registered in `src-tauri/src/main.rs`, and no implementation is part of the repository.
- hyprlang `Config` parsing, saving and handler-call internals. This is a foreign library. Its handler calls are a map from keyword to the list of values. A parse or save failure is not modelled. A removal at an out-of-range index is taken to fail.
- The hyprpaper reload through `hyprctl`. This is inter-process communication.
- The `HOME` lookup and the path text in error messages. Error messages are modelled as error constructors, not as formatted strings.
- `fit_mode` of a wallpaper. It is not decoded from the value; it is a display option.
- Every process call in `audio_backend.rs`: `wpctl`, `which`, `check_wpctl_available`, `set_default_device`, `set_volume`, `set_mute`, and the volume queries.
- AudioBackend.ParseDeviceLine: volumes are `real` and parsed devices carry volume 0. The float parsing and clamping of volumes is left out, and the inline `[vol: …]` text is located but not parsed as a float.
- `tool_exists` in `os_backend.rs`, and the spawning of matugen. The process's outcome is a parameter of `RunMatugen`.
- The debounce timers in `Audio.tsx`, and the backend calls that follow a local edit. These are timing and concurrency concerns.
- The error path of loading the audio state, the backend calls of `handleChangeWallpaper`, and the file picker. These are asynchronous I/O.
- The form reset effect of `KeybindFormDialog.tsx`. It only copies props into the form.
- Full Unicode case mapping. `toUpperCase`/`toLowerCase` are modelled on ASCII letters only, so characters such as `ß` or `ſ` map to themselves.
- The dispatcher table of `src/constants/keybinds.ts`. That file is not part of this model, so the dispatcher list and the description table are parameters.
- JavaScript object-prototype keys (such as `constructor`) in the description table. A table lookup is a plain map lookup.
- NaN signal strengths. Strength is a `real`.
- The React rendering of every page and component.

## Findings

| source | as written | input that shows it | evidently intended | confidence | as-written member | corrected member |
|---|---|---|---|---|---|---|
| src/utils/keybinds.ts:32-57 | on `$` the pending literal is flushed before the check that a name character follows, so a lone `$` starts a new literal part | `"a$ b"` gives the literal parts `"a"` and `"$ b"` | line 51 appends a lone `$` to the pending literal, so it should stay in the literal around it: `"a$ b"` is one literal, and no two literal parts are adjacent | not executed | KeybindUtils.AsWrittenSplitsAtLoneDollar | KeybindUtils.AsWrittenMergesToCorrected |
