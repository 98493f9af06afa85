/** The `wpctl status` reader of `src-tauri/src/audio_backend.rs`: the parsers of
    one device line and one stream line, and the scan that routes the lines of the
    Audio section into sinks, sources and streams. Volumes are read by separate
    process calls and are floating point; they are kept abstract as `real` and
    the parsers leave them at zero, as the source does. */
module AudioBackend {
  import opened Wrappers
  import opened Text

  datatype AudioDevice = AudioDevice(
    id: nat,
    name: string,
    description: string,
    deviceType: string,
    volume: real,
    muted: bool,
    isDefault: bool)

  datatype AudioStream = AudioStream(
    id: nat,
    appName: string,
    mediaName: Option<string>,
    volume: real,
    muted: bool)

  datatype AudioState = AudioState(
    sinks: seq<AudioDevice>,
    sources: seq<AudioDevice>,
    streams: seq<AudioStream>)

  // ---------------------------------------------------------------------------
  // Character classes

  /** The tree-drawing characters `wpctl` indents its lines with. */
  predicate IsTreeChar(c: char) {
    c == ' ' || c == '\U{2502}' || c == '\U{251C}' || c == '\U{2514}' || c == '\U{2500}'
  }

  predicate IsStarOrSpace(c: char) {
    c == '*' || c == ' '
  }

  predicate IsStar(c: char) {
    c == '*'
  }

  /** A line with its leading tree drawing removed. */
  function StripTree(line: string): string {
    TrimStartBy(line, IsTreeChar)
  }

  /** `s.split(c).next()`: the text before the first `c`, or all of `s`. */
  function BeforeChar(s: string, c: char): (r: string)
    ensures c !in r
    ensures |r| <= |s| && r == s[..|r|]
    ensures |r| == |s| || s[|r|] == c
  {
    match FindChar(s, c)
    case None => s
    case Some(k) => s[..k]
  }

  // ---------------------------------------------------------------------------
  // Device lines

  /** The device name: the text before the first `[vol:` tag, trimmed, or the
      whole (already trimmed) text when there is no tag. */
  function DeviceDescription(rest: string): (d: string)
    ensures (forall k: nat :: !OccursAt(rest, "[vol:", k)) ==> d == rest
    ensures forall k: nat :: FirstOccurrence(rest, "[vol:", k) ==> d == Trim(rest[..k])
  {
    match IndexOf(rest, "[vol:")
    case None => rest
    case Some(k) =>
      assert forall m: nat :: FirstOccurrence(rest, "[vol:", m) ==> m == k;
      Trim(rest[..k])
  }

  /** `k` is where `pat` first occurs in `s`. */
  predicate FirstOccurrence(s: string, pat: string, k: nat) {
    OccursAt(s, pat, k) && forall j: nat :: j < k ==> !OccursAt(s, pat, j)
  }

  /** `k` is where `c` first occurs in `s`. */
  predicate FirstAt(s: string, c: char, k: nat) {
    k < |s| && s[k] == c && c !in s[..k]
  }

  lemma FirstAtIsFound(s: string, c: char)
    ensures forall k: nat :: FirstAt(s, c, k) ==> FindChar(s, c) == Some(k)
  {
    forall k: nat | FirstAt(s, c, k)
      ensures FindChar(s, c) == Some(k)
    {
      assert forall j :: 0 <= j < k ==> s[j] == s[..k][j];
      FindCharAt(s, c, k);
    }
  }

  /** The text between `[vol:` and the next `]` (or the end of the line). The
      slice the source takes is always in bounds: the closing bracket, when there
      is one, lies at least five characters after the tag's start because the tag
      itself contains no `]`. */
  function InlineVolumeText(rest: string, volStart: nat): (v: string)
    requires OccursAt(rest, "[vol:", volStart)
    ensures volStart + 5 + |v| <= |rest|
    ensures v == rest[volStart + 5..volStart + 5 + |v|]
    ensures ']' !in v
    ensures volStart + 5 + |v| == |rest| || rest[volStart + 5 + |v|] == ']'
  {
    var tail := rest[volStart..];
    assert tail[..5] == "[vol:";
    assert forall j :: 0 <= j < 5 ==> tail[j] == tail[..5][j];
    assert forall j :: 0 <= j < 5 ==> tail[j] != ']';
    var volEnd := match FindChar(tail, ']') case None => |tail| case Some(k) => k;
    rest[volStart + 5..volStart + volEnd]
  }

  /** The part of a device line after the tree drawing, the default marker and the
      spaces around it: it should start with the node id. */
  function DeviceContent(line: string): string {
    TrimStartBy(StripTree(line), IsStarOrSpace)
  }

  /** `parse_device_line`: the id before the first `.`, then the description;
      nothing when there is no `.` or the id is not a 32-bit number. */
  function ParseDeviceLine(line: string, deviceType: string): (r: Option<AudioDevice>)
    ensures SplitOnce(DeviceContent(line), '.').None? ==> r.None?
    ensures SplitOnce(DeviceContent(line), '.').Some? ==>
      var (idText, after) := SplitOnce(DeviceContent(line), '.').value;
      && (r.Some? <==> ParseU32(Trim(idText)).Some?)
      && (r.Some? ==> (Some(r.value.id) == ParseU32(Trim(idText))
                       && r.value.name == DeviceDescription(Trim(after))))
    ensures r.Some? ==> (r.value.isDefault <==> StartsWith(StripTree(line), "*"))
    ensures r.Some? ==> r.value.name == r.value.description
    ensures r.Some? ==> r.value.deviceType == deviceType && r.value.volume == 0.0 && !r.value.muted
  {
    var trimmed := StripTree(line);
    var isDefault := trimmed != [] && trimmed[0] == '*';
    assert isDefault <==> StartsWith(trimmed, "*") by {
      if trimmed != [] {
        assert trimmed[..1] == [trimmed[0]];
      }
    }
    match SplitOnce(TrimStartBy(trimmed, IsStarOrSpace), '.')
    case None => None
    case Some((idText, after)) =>
      match ParseU32(Trim(idText))
      case None => None
      case Some(id) =>
        var description := DeviceDescription(Trim(after));
        Some(AudioDevice(id, description, description, deviceType, 0.0, false, isDefault))
  }

  // ---------------------------------------------------------------------------
  // Stream lines

  /** The id text of a stream line: the text before the dot, trimmed, with
      leading `*` removed and trimmed again. */
  function StreamIdText(beforeDot: string): string {
    Trim(TrimStartBy(Trim(beforeDot), IsStar))
  }

  /** The application and media names of the text after the id. */
  function StreamNames(rest: string): (r: (string, Option<string>))
    ensures ':' !in r.0 && TrimmedBy(r.0, IsRustSpace)
    ensures r.1.Some? ==> r.1.value != [] && '[' !in r.1.value && TrimmedBy(r.1.value, IsRustSpace)
    ensures ':' !in rest ==> r == (Trim(BeforeChar(rest, '[')), None)
    ensures forall c: nat :: FirstAt(rest, ':', c) ==>
      && r.0 == Trim(rest[..c])
      && (r.1.None? <==> Trim(BeforeChar(rest[c + 1..], '[')) == [])
      && (r.1.Some? ==> r.1.value == Trim(BeforeChar(rest[c + 1..], '[')))
  {
    FirstAtIsFound(rest, ':');
    match FindChar(rest, ':')
    case Some(colon) =>
      var app := Trim(rest[..colon]);
      var media := Trim(BeforeChar(rest[colon + 1..], '['));
      assert ':' !in rest[..colon];
      TrimmedWithout(rest[..colon], ':');
      TrimmedWithout(BeforeChar(rest[colon + 1..], '['), '[');
      (app, if media == [] then None else Some(media))
    case None =>
      var before := BeforeChar(rest, '[');
      assert ':' !in before by { assert before == rest[..|before|]; }
      TrimmedWithout(before, ':');
      (Trim(before), None)
  }

  /** `parse_stream_line`: the id before the first `.` (a `*` before it is
      tolerated), then the application name before the first `:` and the media
      name after it, up to the first `[`. */
  function ParseStreamLine(line: string): (r: Option<AudioStream>)
    ensures SplitOnce(Trim(StripTree(line)), '.').None? ==> r.None?
    ensures SplitOnce(Trim(StripTree(line)), '.').Some? ==>
      var (idText, after) := SplitOnce(Trim(StripTree(line)), '.').value;
      && (r.Some? <==> ParseU32(StreamIdText(idText)).Some?)
      && (r.Some? ==> (Some(r.value.id) == ParseU32(StreamIdText(idText))
                       && (r.value.appName, r.value.mediaName) == StreamNames(Trim(after))))
    ensures r.Some? ==> r.value.volume == 0.0 && !r.value.muted
  {
    match SplitOnce(Trim(StripTree(line)), '.')
    case None => None
    case Some((idText, after)) =>
      match ParseU32(StreamIdText(idText))
      case None => None
      case Some(id) =>
        var names := StreamNames(Trim(after));
        Some(AudioStream(id, names.0, names.1, 0.0, false))
  }

  /** Trimming gives a trimmed text and brings in no character. */
  lemma TrimmedWithout(s: string, c: char)
    requires c !in s
    ensures c !in Trim(s) && TrimmedBy(Trim(s), IsRustSpace)
  {
    TrimByShape(s, IsRustSpace);
    TrimIsInfix(s, IsRustSpace);
  }

  /** Trimming only removes characters: whatever is absent from the input is
      absent from the result. */
  lemma TrimIsInfix(s: string, drop: char -> bool)
    ensures forall c :: c !in s ==> c !in TrimBy(s, drop)
  {
    var t := TrimStartBy(s, drop);
    var r := TrimEndBy(t, drop);
    assert forall k :: 0 <= k < |r| ==> r[k] == s[|s| - |t| + k];
  }

  // ---------------------------------------------------------------------------
  // Lines as `wpctl status` prints them, and what the parsers read back

  /** A device line: tree drawing, the default marker `*` or a space, the id, a
      dot, the name and the volume tag. */
  function DeviceLine(indent: string, isDefault: bool, id: nat, name: string, volume: string): string {
    indent + (if isDefault then "*" else " ") + "   " + NatToDecimal(id) + ". " + name
      + " [vol: " + volume + "]"
  }

  /** A stream line: tree drawing, optionally a `*`, the id, a dot, the
      application, a colon, the media name and the volume tag. */
  function StreamLine(indent: string, starred: bool, id: nat, app: string, media: string, volume: string): string {
    indent + (if starred then "* " else "") + NatToDecimal(id) + ". " + app + ": " + media
      + " [vol: " + volume + "]"
  }

  /** A run of digits is left alone by every trim used here. */
  lemma DigitsTrimmed(d: string)
    requires d != [] && All(d, IsDigit)
    ensures Trim(d) == d && '.' !in d && TrimmedBy(d, IsRustSpace)
  {
    assert IsDigit(d[0]) && IsDigit(d[|d| - 1]);
    TrimByOfTrimmed(d, IsRustSpace);
  }

  /** The name of a device is read back from the text after the id. */
  lemma DescriptionOfTagged(name: string, volume: string)
    requires name != [] && TrimmedBy(name, IsRustSpace) && '[' !in name
    ensures DeviceDescription(name + " [vol: " + volume + "]") == name
  {
    VolumeTagAfterName(name, volume);
    NameBeforeSpace(name);
  }

  lemma NameBeforeSpace(name: string)
    requires name != [] && TrimmedBy(name, IsRustSpace)
    ensures Trim(name + " ") == name
  {
    assert name + " " == "" + name + " ";
    TrimByPadded("", name, " ", IsRustSpace);
  }

  /** A tagged text loses the space the parser finds in front of it. */
  lemma TaggedAfterSpace(first: string, volume: string)
    requires first != [] && !IsRustSpace(first[0])
    ensures Trim(" " + (first + " [vol: " + volume + "]")) == first + " [vol: " + volume + "]"
  {
    var body := first + " [vol: " + volume + "]";
    assert body[0] == first[0];
    TaggedTrimmed(body);
  }

  /** In a device line the first `[vol:` is the one right after the name. */
  lemma VolumeTagAfterName(name: string, volume: string)
    requires '[' !in name
    ensures var body := name + " [vol: " + volume + "]";
      IndexOf(body, "[vol:") == Some(|name| + 1) && body[..|name| + 1] == name + " "
  {
    var body := name + " [vol: " + volume + "]";
    var k := |name| + 1;
    assert body[k..k + 5] == "[vol:";
    assert forall j :: 0 <= j < |name| ==> body[j] == name[j];
    assert body[|name|] == ' ';
    IndexOfFirst(body, "[vol:", k);
    assert body[..k] == name + " ";
  }

  /** The stripped head of a device line: the marker decides `isDefault`, and what
      is left after the marker and the spaces is the text from the id on. */
  lemma DeviceHead(indent: string, isDefault: bool, tail: string)
    requires All(indent, IsTreeChar) && tail != [] && IsDigit(tail[0])
    ensures var line := indent + (if isDefault then "*" else " ") + "   " + tail;
      && (StartsWith(StripTree(line), "*") <==> isDefault)
      && DeviceContent(line) == tail
  {
    if isDefault {
      DefaultDeviceHead(indent, tail);
    } else {
      PlainDeviceHead(indent, tail);
    }
  }

  lemma DefaultDeviceHead(indent: string, tail: string)
    requires All(indent, IsTreeChar) && tail != [] && IsDigit(tail[0])
    ensures var line := indent + "*" + "   " + tail;
      StartsWith(StripTree(line), "*") && DeviceContent(line) == tail
  {
    MarkedStripped(indent, tail);
    MarkedContent(tail);
  }

  lemma MarkedStripped(indent: string, tail: string)
    requires All(indent, IsTreeChar)
    ensures StripTree(indent + "*" + "   " + tail) == "*   " + tail
  {
    var marked := "*   " + tail;
    assert indent + "*" + "   " + tail == indent + marked;
    TrimStartPadded(indent, marked, IsTreeChar);
  }

  lemma MarkedContent(tail: string)
    requires tail != [] && IsDigit(tail[0])
    ensures StartsWith("*   " + tail, "*") && TrimStartBy("*   " + tail, IsStarOrSpace) == tail
  {
    assert ("*   " + tail)[..1] == "*";
    assert All("*   ", IsStarOrSpace);
    TrimStartPadded("*   ", tail, IsStarOrSpace);
  }

  lemma PlainDeviceHead(indent: string, tail: string)
    requires All(indent, IsTreeChar) && tail != [] && IsDigit(tail[0])
    ensures var line := indent + " " + "   " + tail;
      !StartsWith(StripTree(line), "*") && DeviceContent(line) == tail
  {
    var line := indent + " " + "   " + tail;
    var pad := indent + "    ";
    assert line == pad + tail;
    assert All(pad, IsTreeChar) by {
      assert forall j :: 0 <= j < |indent| ==> pad[j] == indent[j];
    }
    TrimStartPadded(pad, tail, IsTreeChar);
    assert !IsStarOrSpace(tail[0]);
  }

  /** Every device line `wpctl status` prints is read back: the id, the name
      (as name and description), the default marker, and the given type. */
  lemma DeviceLineRoundTrip(indent: string, isDefault: bool, id: nat, name: string, volume: string, deviceType: string)
    requires All(indent, IsTreeChar) && id < U32Limit
    requires name != [] && TrimmedBy(name, IsRustSpace) && '[' !in name
    ensures ParseDeviceLine(DeviceLine(indent, isDefault, id, name, volume), deviceType)
         == Some(AudioDevice(id, name, name, deviceType, 0.0, false, isDefault))
  {
    var d := NatToDecimal(id);
    var body := name + " [vol: " + volume + "]";
    var tail := d + "." + (" " + body);
    assert DeviceLine(indent, isDefault, id, name, volume)
        == indent + (if isDefault then "*" else " ") + "   " + tail;
    DeviceHead(indent, isDefault, tail);
    DigitsTrimmed(d);
    SplitOnceUnique(tail, '.', d, " " + body);
    ParseU32OfDecimal(id);
    TaggedAfterSpace(name, volume);
    DescriptionOfTagged(name, volume);
  }

  /** The names after the id of a stream line are read back. */
  lemma NamesOfTagged(app: string, media: string, volume: string)
    requires app != [] && TrimmedBy(app, IsRustSpace) && ':' !in app
    requires media != [] && TrimmedBy(media, IsRustSpace) && '[' !in media
    ensures var body := app + ": " + media + " [vol: " + volume + "]";
      Trim(" " + body) == body && StreamNames(body) == (app, Some(media))
  {
    var body := app + ": " + media + " [vol: " + volume + "]";
    assert StreamNames(body) == (app, Some(media)) by {
      AppBeforeColon(app, media, volume);
      MediaOfTagged(media, volume);
      TrimByOfTrimmed(app, IsRustSpace);
    }
    assert Trim(" " + body) == body by {
      assert body[0] == app[0];
      TaggedTrimmed(body);
    }
  }

  /** A text that starts with a non-space and ends with `]` is already trimmed,
      and a space in front of it is trimmed away. */
  lemma TaggedTrimmed(body: string)
    requires body != [] && !IsRustSpace(body[0]) && body[|body| - 1] == ']'
    ensures Trim(body) == body && Trim(" " + body) == body
  {
    TrimByOfTrimmed(body, IsRustSpace);
    assert " " + body == " " + body + "";
    TrimByPadded(" ", body, "", IsRustSpace);
  }

  lemma AppBeforeColon(app: string, media: string, volume: string)
    requires app != [] && ':' !in app
    ensures var body := app + ": " + media + " [vol: " + volume + "]";
      && FindChar(body, ':') == Some(|app|)
      && body[..|app|] == app
      && body[|app| + 1..] == " " + media + " [vol: " + volume + "]"
  {
    var body := app + ": " + media + " [vol: " + volume + "]";
    assert forall j :: 0 <= j < |app| ==> body[j] == app[j];
    FindCharAt(body, ':', |app|);
    assert body[..|app|] == app;
    assert body[|app| + 1..] == " " + media + " [vol: " + volume + "]";
  }

  lemma MediaOfTagged(media: string, volume: string)
    requires media != [] && TrimmedBy(media, IsRustSpace) && '[' !in media
    ensures Trim(BeforeChar(" " + media + " [vol: " + volume + "]", '[')) == media
  {
    var after := " " + media + " [vol: " + volume + "]";
    assert BeforeChar(after, '[') == " " + media + " " by {
      assert forall j :: 0 <= j < |media| ==> after[j + 1] == media[j];
      FindCharAt(after, '[', |media| + 2);
      assert after[..|media| + 2] == " " + media + " ";
    }
    assert " " + media + " " == " " + media + " ";
    TrimByPadded(" ", media, " ", IsRustSpace);
  }

  /** The id text of a stream line, with or without a `*` in front. */
  lemma StreamIdOf(starred: bool, d: string)
    requires d != [] && All(d, IsDigit)
    ensures '.' !in (if starred then "* " else "") + d
    ensures StreamIdText((if starred then "* " else "") + d) == d
  {
    DigitsTrimmed(d);
    if starred {
      var t := "* " + d;
      assert '.' !in t;
      StarredIdTrimmed(d);
      StarredIdStripped(d);
      SpacedIdTrimmed(d);
      assert StreamIdText(t) == d;
    } else {
      assert "" + d == d;
      assert TrimStartBy(d, IsStar) == d;
    }
  }

  lemma StarredIdTrimmed(d: string)
    requires d != [] && All(d, IsDigit)
    ensures Trim("* " + d) == "* " + d
  {
    var t := "* " + d;
    assert t[|t| - 1] == d[|d| - 1];
    assert IsDigit(d[|d| - 1]);
    TrimByOfTrimmed(t, IsRustSpace);
  }

  lemma StarredIdStripped(d: string)
    requires d != [] && All(d, IsDigit)
    ensures TrimStartBy("* " + d, IsStar) == " " + d
  {
    assert "* " + d == "*" + (" " + d);
    TrimStartPadded("*", " " + d, IsStar);
  }

  lemma SpacedIdTrimmed(d: string)
    requires d != [] && All(d, IsDigit)
    ensures Trim(" " + d) == d
  {
    assert " " + d == " " + d + "";
    assert IsDigit(d[0]) && IsDigit(d[|d| - 1]);
    TrimByPadded(" ", d, "", IsRustSpace);
  }

  /** Every stream line with an application and a media name is read back,
      whether or not a `*` precedes the id. */
  lemma StreamLineRoundTrip(indent: string, starred: bool, id: nat, app: string, media: string, volume: string)
    requires All(indent, IsTreeChar) && id < U32Limit
    requires app != [] && TrimmedBy(app, IsRustSpace) && ':' !in app
    requires media != [] && TrimmedBy(media, IsRustSpace) && '[' !in media
    ensures ParseStreamLine(StreamLine(indent, starred, id, app, media, volume))
         == Some(AudioStream(id, app, Some(media), 0.0, false))
  {
    var d := NatToDecimal(id);
    var head := (if starred then "* " else "") + d;
    var body := app + ": " + media + " [vol: " + volume + "]";
    StreamLineTail(indent, starred, id, app, media, volume);
    StreamIdOf(starred, d);
    SplitOnceUnique(head + "." + (" " + body), '.', head, " " + body);
    ParseU32OfDecimal(id);
    NamesOfTagged(app, media, volume);
    ParseStreamOfParts(StreamLine(indent, starred, id, app, media, volume), head, " " + body, id, app, Some(media));
  }

  /** A stream line without its tree drawing: the text from the id on. */
  lemma StreamLineTail(indent: string, starred: bool, id: nat, app: string, media: string, volume: string)
    requires All(indent, IsTreeChar) && app != []
    ensures var head := (if starred then "* " else "") + NatToDecimal(id);
      var body := app + ": " + media + " [vol: " + volume + "]";
      Trim(StripTree(StreamLine(indent, starred, id, app, media, volume))) == head + "." + (" " + body)
  {
    var d := NatToDecimal(id);
    var head := (if starred then "* " else "") + d;
    var body := app + ": " + media + " [vol: " + volume + "]";
    var tail := head + "." + (" " + body);
    assert IsDigit(d[0]);
    StreamLineShape(starred, d, app, media, volume);
    StreamLineSplit(indent, starred, id, app, media, volume);
    StripTrimmedTail(indent, tail);
  }

  lemma StreamLineSplit(indent: string, starred: bool, id: nat, app: string, media: string, volume: string)
    ensures var head := (if starred then "* " else "") + NatToDecimal(id);
      var body := app + ": " + media + " [vol: " + volume + "]";
      StreamLine(indent, starred, id, app, media, volume) == indent + (head + "." + (" " + body))
  {
  }

  lemma StreamLineShape(starred: bool, d: string, app: string, media: string, volume: string)
    requires d != []
    ensures var head := (if starred then "* " else "") + d;
      var tail := head + "." + (" " + (app + ": " + media + " [vol: " + volume + "]"));
      && tail[|tail| - 1] == ']'
      && tail[0] == (if starred then '*' else d[0])
  {
    var head := (if starred then "* " else "") + d;
    var core := head + "." + " " + app + ": " + media + " [vol: " + volume;
    var tail := head + "." + (" " + (app + ": " + media + " [vol: " + volume + "]"));
    assert tail == core + "]";
    assert tail[0] == head[0];
  }

  /** Tree drawing in front of a text that starts with neither drawing nor
      space and ends with `]` is stripped, and the rest is already trimmed. */
  lemma StripTrimmedTail(indent: string, tail: string)
    requires All(indent, IsTreeChar) && tail != []
    requires !IsTreeChar(tail[0]) && !IsRustSpace(tail[0]) && tail[|tail| - 1] == ']'
    ensures Trim(StripTree(indent + tail)) == tail
  {
    TrimStartPadded(indent, tail, IsTreeChar);
    TaggedTrimmed(tail);
  }

  /** The parser's result from the results of its three steps. */
  lemma ParseStreamOfParts(line: string, idText: string, after: string, id: nat, app: string, media: Option<string>)
    requires SplitOnce(Trim(StripTree(line)), '.') == Some((idText, after))
    requires ParseU32(StreamIdText(idText)) == Some(id)
    requires StreamNames(Trim(after)) == (app, media)
    ensures ParseStreamLine(line) == Some(AudioStream(id, app, media, 0.0, false))
  {
  }

  /** The `:` is searched in the whole rest of the line, the volume tag
      included: a stream line without a media name but with a volume tag is read
      with the tag's colon as the separator, so the application name keeps
      ` [vol` and the volume becomes the media name. */
  lemma StreamVolumeTagColon(name: string, volume: string)
    requires name != [] && TrimmedBy(name, IsRustSpace) && ':' !in name
    requires volume != [] && !IsRustSpace(volume[0]) && '[' !in volume
    ensures StreamNames(name + " [vol: " + volume + "]") == (name + " [vol", Some(volume + "]"))
  {
    var body := name + " [vol: " + volume + "]";
    var k := |name| + 5;
    var app := name + " [vol";
    VolumeTagColonAt(name, volume);
    assert Trim(app) == app by {
      assert app[0] == name[0] && app[|app| - 1] == 'l';
      TrimByOfTrimmed(app, IsRustSpace);
    }
    VolumeAfterColon(volume);
    StreamNamesOfParts(body, k, app, volume + "]");
  }

  lemma VolumeTagColonAt(name: string, volume: string)
    requires ':' !in name
    ensures var body := name + " [vol: " + volume + "]";
      var k := |name| + 5;
      && FindChar(body, ':') == Some(k)
      && body[..k] == name + " [vol"
      && body[k + 1..] == " " + volume + "]"
  {
    var body := name + " [vol: " + volume + "]";
    var k := |name| + 5;
    assert forall j :: 0 <= j < |name| ==> body[j] == name[j];
    FindCharAt(body, ':', k);
    assert body[..k] == name + " [vol";
    assert body[k + 1..] == " " + volume + "]";
  }

  lemma VolumeAfterColon(volume: string)
    requires volume != [] && !IsRustSpace(volume[0]) && '[' !in volume
    ensures Trim(BeforeChar(" " + volume + "]", '[')) == volume + "]"
  {
    var after := " " + volume + "]";
    assert forall j :: 0 <= j < |volume| ==> after[j + 1] == volume[j];
    assert BeforeChar(after, '[') == after;
    assert after == " " + (volume + "]") + "";
    assert (volume + "]")[0] == volume[0];
    TrimByPadded(" ", volume + "]", "", IsRustSpace);
  }

  /** The names of a stream from the position of its first `:` and the two
      trimmed pieces around it. */
  lemma StreamNamesOfParts(rest: string, colon: nat, app: string, media: string)
    requires FindChar(rest, ':') == Some(colon)
    requires Trim(rest[..colon]) == app
    requires Trim(BeforeChar(rest[colon + 1..], '[')) == media && media != []
    ensures StreamNames(rest) == (app, Some(media))
  {
  }

  // ---------------------------------------------------------------------------
  // `wpctl get-volume`

  /** The mute flag of `get_node_volume`: the output mentions `[MUTED]`. */
  function ReportsMuted(stdout: string): (muted: bool)
    ensures muted <==> exists k: nat :: OccursAt(stdout, "[MUTED]", k)
  {
    Contains(stdout, "[MUTED]")
  }

  // ---------------------------------------------------------------------------
  // The section scan of `get_audio_state`

  datatype Section = NoSection | Sinks | Sources | Streams

  datatype ScanState = ScanState(
    inAudio: bool,
    section: Section,
    sinks: seq<AudioDevice>,
    sources: seq<AudioDevice>,
    streams: seq<AudioStream>)

  const InitialScan := ScanState(false, NoSection, [], [], [])

  /** A line that only holds tree drawing and whitespace. */
  predicate IsBlankLine(line: string) {
    Trim(StripTree(line)) == []
  }

  /** The subsection a line inside the Audio section switches to, if it is a
      subsection header; `Devices:` and `Filters:` switch collection off. */
  function SubsectionHeader(line: string): Option<Section> {
    if Contains(line, "Sinks:") then Some(Sinks)
    else if Contains(line, "Sources:") then Some(Sources)
    else if Contains(line, "Streams:") then Some(Streams)
    else if Contains(line, "Devices:") || Contains(line, "Filters:") then Some(NoSection)
    else None
  }

  /** Parse a content line into the list of the current subsection; a line that
      does not parse is skipped. */
  function Collect(st: ScanState, line: string): (nx: ScanState)
    ensures nx.inAudio == st.inAudio && nx.section == st.section
    ensures nx.sinks == if st.section == Sinks && ParseDeviceLine(line, "sink").Some?
      then st.sinks + [ParseDeviceLine(line, "sink").value] else st.sinks
    ensures nx.sources == if st.section == Sources && ParseDeviceLine(line, "source").Some?
      then st.sources + [ParseDeviceLine(line, "source").value] else st.sources
    ensures nx.streams == if st.section == Streams && ParseStreamLine(line).Some?
      then st.streams + [ParseStreamLine(line).value] else st.streams
    ensures (|nx.sinks| - |st.sinks|) + (|nx.sources| - |st.sources|)
      + (|nx.streams| - |st.streams|) <= 1
  {
    match st.section
    case Sinks =>
      (match ParseDeviceLine(line, "sink")
       case Some(d) => st.(sinks := st.sinks + [d])
       case None => st)
    case Sources =>
      (match ParseDeviceLine(line, "source")
       case Some(d) => st.(sources := st.sources + [d])
       case None => st)
    case Streams =>
      (match ParseStreamLine(line)
       case Some(s) => st.(streams := st.streams + [s])
       case None => st)
    case NoSection => st
  }

  /** One turn of the loop over the lines of `wpctl status`. */
  function Step(st: ScanState, line: string): ScanState {
    if StartsWith(line, "Audio") then st.(inAudio := true)
    else if StartsWith(line, "Video") || StartsWith(line, "Settings") then
      st.(inAudio := false, section := NoSection)
    else if !st.inAudio then st
    else match SubsectionHeader(line)
      case Some(section) => st.(section := section)
      case None => if IsBlankLine(line) then st else Collect(st, line)
  }

  function Scan(st: ScanState, lines: seq<string>): ScanState
    decreases |lines|
  {
    if lines == [] then st else Scan(Step(st, lines[0]), lines[1..])
  }

  /** `get_audio_state` without the volume queries: the devices and streams the
      status text lists, in the order it lists them. */
  function ParseStatus(lines: seq<string>): (r: AudioState)
    ensures AllOfType(r.sinks, "sink") && AllOfType(r.sources, "source")
    ensures (forall k :: 0 <= k < |lines| ==> !StartsWith(lines[k], "Audio")) ==>
      r == AudioState([], [], [])
  {
    var st := Scan(InitialScan, lines);
    ScanTypes(InitialScan, lines);
    WithoutAudioHeader(lines);
    AudioState(st.sinks, st.sources, st.streams)
  }

  /** A line the loop hands to the parsers: inside the Audio section, neither a
      section nor a subsection header, and not blank. */
  predicate IsContentLine(st: ScanState, line: string) {
    && st.inAudio
    && !StartsWith(line, "Audio") && !StartsWith(line, "Video") && !StartsWith(line, "Settings")
    && SubsectionHeader(line).None? && !IsBlankLine(line)
  }

  /** A content line that parses is appended to the list of the current
      subsection, and to no other; every other line appends nothing. A line
      that appends leaves the section state as it was. */
  lemma StepShape(st: ScanState, line: string)
    ensures var nx := Step(st, line);
      && nx.sinks == (if IsContentLine(st, line) && st.section == Sinks && ParseDeviceLine(line, "sink").Some?
                      then st.sinks + [ParseDeviceLine(line, "sink").value] else st.sinks)
      && nx.sources == (if IsContentLine(st, line) && st.section == Sources && ParseDeviceLine(line, "source").Some?
                        then st.sources + [ParseDeviceLine(line, "source").value] else st.sources)
      && nx.streams == (if IsContentLine(st, line) && st.section == Streams && ParseStreamLine(line).Some?
                        then st.streams + [ParseStreamLine(line).value] else st.streams)
      && (IsContentLine(st, line) ==> nx.inAudio == st.inAudio && nx.section == st.section)
      && (|nx.sinks| - |st.sinks|) + (|nx.sources| - |st.sources|) + (|nx.streams| - |st.streams|) <= 1
  {
    var nx := Step(st, line);
    if IsContentLine(st, line) {
      assert nx == Collect(st, line);
    } else {
      assert nx.sinks == st.sinks && nx.sources == st.sources && nx.streams == st.streams;
    }
  }

  /** Outside the Audio section the subsection is always "none". */
  predicate ScanInvariant(st: ScanState) {
    !st.inAudio ==> st.section == NoSection
  }

  lemma {:induction false} ScanKeepsInvariant(st: ScanState, lines: seq<string>)
    requires ScanInvariant(st)
    ensures ScanInvariant(Scan(st, lines))
    decreases |lines|
  {
    if lines != [] {
      ScanKeepsInvariant(Step(st, lines[0]), lines[1..]);
    }
  }

  /** Scanning two blocks of lines is scanning the first, then the second. */
  lemma {:induction false} ScanAppend(st: ScanState, a: seq<string>, b: seq<string>)
    ensures Scan(st, a + b) == Scan(Scan(st, a), b)
    decreases |a|
  {
    if a != [] {
      assert (a + b)[0] == a[0];
      assert (a + b)[1..] == a[1..] + b;
      ScanAppend(Step(st, a[0]), a[1..], b);
    } else {
      assert a + b == b;
    }
  }

  predicate IsPrefix<T(==)>(a: seq<T>, b: seq<T>) {
    |a| <= |b| && b[..|a|] == a
  }

  /** Every list of `b` starts with the corresponding list of `a`. */
  predicate Extends(a: ScanState, b: ScanState) {
    IsPrefix(a.sinks, b.sinks) && IsPrefix(a.sources, b.sources) && IsPrefix(a.streams, b.streams)
  }

  lemma PrefixTrans<T>(a: seq<T>, b: seq<T>, c: seq<T>)
    requires IsPrefix(a, b) && IsPrefix(b, c)
    ensures IsPrefix(a, c)
  {
    assert c[..|a|] == c[..|b|][..|a|];
  }

  lemma StepExtends(st: ScanState, line: string)
    ensures Extends(st, Step(st, line))
  {
    StepShape(st, line);
    var nx := Step(st, line);
    assert IsPrefix(st.sinks, nx.sinks) by {
      if nx.sinks != st.sinks { assert nx.sinks[..|st.sinks|] == st.sinks; }
    }
    assert IsPrefix(st.sources, nx.sources) by {
      if nx.sources != st.sources { assert nx.sources[..|st.sources|] == st.sources; }
    }
    assert IsPrefix(st.streams, nx.streams) by {
      if nx.streams != st.streams { assert nx.streams[..|st.streams|] == st.streams; }
    }
  }

  /** Entries already collected are never changed or reordered: each list of the
      input state is a prefix of the corresponding list afterwards. */
  lemma {:induction false} ScanExtends(st: ScanState, lines: seq<string>)
    ensures Extends(st, Scan(st, lines))
    decreases |lines|
  {
    var r := Scan(st, lines);
    if lines == [] {
      assert r == st;
      assert st.sinks[..|st.sinks|] == st.sinks;
      assert st.sources[..|st.sources|] == st.sources;
      assert st.streams[..|st.streams|] == st.streams;
    } else {
      var nx := Step(st, lines[0]);
      StepExtends(st, lines[0]);
      ScanExtends(nx, lines[1..]);
      PrefixTrans(st.sinks, nx.sinks, r.sinks);
      PrefixTrans(st.sources, nx.sources, r.sources);
      PrefixTrans(st.streams, nx.streams, r.streams);
    }
  }

  predicate AllOfType(ds: seq<AudioDevice>, deviceType: string) {
    forall k :: 0 <= k < |ds| ==> ds[k].deviceType == deviceType
  }

  lemma AppendOfType(ds: seq<AudioDevice>, d: AudioDevice, deviceType: string)
    requires AllOfType(ds, deviceType) && d.deviceType == deviceType
    ensures AllOfType(ds + [d], deviceType)
  {
    assert forall k :: 0 <= k < |ds| ==> (ds + [d])[k] == ds[k];
  }

  lemma StepTypes(st: ScanState, line: string)
    requires AllOfType(st.sinks, "sink") && AllOfType(st.sources, "source")
    ensures AllOfType(Step(st, line).sinks, "sink") && AllOfType(Step(st, line).sources, "source")
  {
    StepShape(st, line);
    var nx := Step(st, line);
    if nx.sinks != st.sinks {
      AppendOfType(st.sinks, ParseDeviceLine(line, "sink").value, "sink");
    }
    if nx.sources != st.sources {
      AppendOfType(st.sources, ParseDeviceLine(line, "source").value, "source");
    }
  }

  lemma {:induction false} ScanTypes(st: ScanState, lines: seq<string>)
    requires AllOfType(st.sinks, "sink") && AllOfType(st.sources, "source")
    ensures AllOfType(Scan(st, lines).sinks, "sink") && AllOfType(Scan(st, lines).sources, "source")
    decreases |lines|
  {
    if lines == [] {
      assert Scan(st, lines) == st;
    } else {
      StepTypes(st, lines[0]);
      ScanTypes(Step(st, lines[0]), lines[1..]);
    }
  }

  /** Outside the Audio section nothing is collected until a line starts with
      `Audio`: in particular nothing after a `Video` or `Settings` line. */
  lemma {:induction false} OutsideAudioAddsNothing(st: ScanState, lines: seq<string>)
    requires ScanInvariant(st) && !st.inAudio
    requires forall k :: 0 <= k < |lines| ==> !StartsWith(lines[k], "Audio")
    ensures Scan(st, lines) == st
    decreases |lines|
  {
    if lines != [] {
      assert !StartsWith(lines[0], "Audio");
      assert Step(st, lines[0]) == st;
      OutsideAudioAddsNothing(st, lines[1..]);
    }
  }

  lemma WithoutAudioHeader(lines: seq<string>)
    ensures (forall k :: 0 <= k < |lines| ==> !StartsWith(lines[k], "Audio")) ==>
      Scan(InitialScan, lines) == InitialScan
  {
    if forall k :: 0 <= k < |lines| ==> !StartsWith(lines[k], "Audio") {
      OutsideAudioAddsNothing(InitialScan, lines);
    }
  }

  /** A `Video` or `Settings` line ends collection until the next `Audio` line. */
  lemma AfterVideoAddsNothing(st: ScanState, header: string, lines: seq<string>)
    requires StartsWith(header, "Video") || StartsWith(header, "Settings")
    requires !StartsWith(header, "Audio")
    requires forall k :: 0 <= k < |lines| ==> !StartsWith(lines[k], "Audio")
    ensures var r := Scan(st, [header] + lines);
      r.sinks == st.sinks && r.sources == st.sources && r.streams == st.streams
  {
    var nx := Step(st, header);
    assert nx == st.(inAudio := false, section := NoSection);
    OutsideAudioAddsNothing(nx, lines);
    assert ([header] + lines)[1..] == lines;
  }

  /** No subsection header, no collection: once a `Devices:` or `Filters:` line
      has switched the subsection off, lines that name no `Sinks:`, `Sources:`
      or `Streams:` add nothing. */
  lemma {:induction false} NoSectionAddsNothing(st: ScanState, lines: seq<string>)
    requires st.section == NoSection
    requires forall k :: 0 <= k < |lines| ==>
      !Contains(lines[k], "Sinks:") && !Contains(lines[k], "Sources:") && !Contains(lines[k], "Streams:")
    ensures var r := Scan(st, lines);
      r.section == NoSection && r.sinks == st.sinks && r.sources == st.sources && r.streams == st.streams
    decreases |lines|
  {
    if lines != [] {
      var nx := Step(st, lines[0]);
      assert nx.section == NoSection && nx.sinks == st.sinks && nx.sources == st.sources
        && nx.streams == st.streams;
      NoSectionAddsNothing(nx, lines[1..]);
    }
  }

  lemma DevicesHeaderSuspends(st: ScanState, header: string, lines: seq<string>)
    requires st.inAudio && !StartsWith(header, "Audio")
    requires !StartsWith(header, "Video") && !StartsWith(header, "Settings")
    requires !Contains(header, "Sinks:") && !Contains(header, "Sources:") && !Contains(header, "Streams:")
    requires Contains(header, "Devices:") || Contains(header, "Filters:")
    requires forall k :: 0 <= k < |lines| ==>
      !Contains(lines[k], "Sinks:") && !Contains(lines[k], "Sources:") && !Contains(lines[k], "Streams:")
    ensures var r := Scan(st, [header] + lines);
      r.sinks == st.sinks && r.sources == st.sources && r.streams == st.streams
  {
    var nx := Step(st, header);
    assert nx == st.(section := NoSection);
    NoSectionAddsNothing(nx, lines);
    assert ([header] + lines)[1..] == lines;
  }

  /** The status text's entries reach the result: a content line that parses,
      read after some lines, is appended to exactly the list of the subsection
      those lines left the scan in. */
  lemma ContentLineCollected(pre: seq<string>, line: string)
    requires IsContentLine(Scan(InitialScan, pre), line)
    ensures var st := Scan(InitialScan, pre);
      var r := ParseStatus(pre + [line]);
      && r.sinks == (if st.section == Sinks && ParseDeviceLine(line, "sink").Some?
                     then st.sinks + [ParseDeviceLine(line, "sink").value] else st.sinks)
      && r.sources == (if st.section == Sources && ParseDeviceLine(line, "source").Some?
                       then st.sources + [ParseDeviceLine(line, "source").value] else st.sources)
      && r.streams == (if st.section == Streams && ParseStreamLine(line).Some?
                       then st.streams + [ParseStreamLine(line).value] else st.streams)
  {
    var st := Scan(InitialScan, pre);
    ScanAppend(InitialScan, pre, [line]);
    assert Scan(st, [line]) == Scan(Step(st, line), []);
    StepShape(st, line);
  }

  /** An `Audio` line and a subsection header open that subsection with
      nothing collected yet. */
  lemma AudioThenHeader(header: string, section: Section)
    requires !StartsWith(header, "Audio") && !StartsWith(header, "Video") && !StartsWith(header, "Settings")
    requires SubsectionHeader(header) == Some(section)
    ensures Scan(InitialScan, ["Audio", header]) == ScanState(true, section, [], [], [])
  {
    var a := Step(InitialScan, "Audio");
    assert StartsWith("Audio", "Audio");
    assert a == ScanState(true, NoSection, [], [], []);
    var h := Step(a, header);
    assert h == ScanState(true, section, [], [], []);
    assert ["Audio", header][1..] == [header];
    assert Scan(a, [header]) == Scan(h, []);
  }

  /** An `Audio` line, a subsection header and a content line: the line's entry
      is the only one collected, in the list the header names. */
  lemma HeaderThenLine(header: string, section: Section, line: string)
    requires !StartsWith(header, "Audio") && !StartsWith(header, "Video") && !StartsWith(header, "Settings")
    requires SubsectionHeader(header) == Some(section)
    requires !StartsWith(line, "Audio") && !StartsWith(line, "Video") && !StartsWith(line, "Settings")
    requires SubsectionHeader(line).None? && !IsBlankLine(line)
    ensures var r := ParseStatus(["Audio", header, line]);
      && r.sinks == (if section == Sinks && ParseDeviceLine(line, "sink").Some?
                     then [ParseDeviceLine(line, "sink").value] else [])
      && r.sources == (if section == Sources && ParseDeviceLine(line, "source").Some?
                       then [ParseDeviceLine(line, "source").value] else [])
      && r.streams == (if section == Streams && ParseStreamLine(line).Some?
                       then [ParseStreamLine(line).value] else [])
  {
    AudioThenHeader(header, section);
    assert ["Audio", header, line] == ["Audio", header] + [line];
    ContentLineCollected(["Audio", header], line);
  }

  /** `Sinks:` is a subsection header and no section header. */
  lemma SinksHeader()
    ensures !StartsWith("Sinks:", "Audio") && !StartsWith("Sinks:", "Video") && !StartsWith("Sinks:", "Settings")
    ensures SubsectionHeader("Sinks:") == Some(Sinks)
  {
    assert IndexOf("Sinks:", "Sinks:") == Some(0) by {
      assert "Sinks:"[..|"Sinks:"|] == "Sinks:";
    }
    assert "Sinks:"[..5] != "Audio" by { assert "Sinks:"[..5][0] == 'S'; }
    assert "Sinks:"[..5] != "Video" by { assert "Sinks:"[..5][0] == 'S'; }
  }

  /** A device line under `Sinks:` is listed as a sink. */
  lemma SinkLineListed(line: string)
    requires !StartsWith(line, "Audio") && !StartsWith(line, "Video") && !StartsWith(line, "Settings")
    requires SubsectionHeader(line).None? && !IsBlankLine(line)
    requires ParseDeviceLine(line, "sink").Some?
    ensures ParseStatus(["Audio", "Sinks:", line]).sinks == [ParseDeviceLine(line, "sink").value]
    ensures ParseStatus(["Audio", "Sinks:", line]).sources == []
    ensures ParseStatus(["Audio", "Sinks:", line]).streams == []
  {
    SinksHeader();
    HeaderThenLine("Sinks:", Sinks, line);
  }
}
