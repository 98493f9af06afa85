/** The state updates of the Audio page: the immediate local edit made when a
    volume slider moves or a mute button is pressed, and the choice of what the
    page displays while a reload is in flight. The backend calls these edits are
    followed by, and the debounce timer of the volume call, are not part of this
    model. */
module AudioPage {
  import opened Wrappers
  import opened AudioBackend

  /** A local edit of one node. */
  datatype Edit = SetVolume(volume: real) | SetMuted(muted: bool)

  function EditDevice(d: AudioDevice, e: Edit): AudioDevice {
    match e
    case SetVolume(v) => d.(volume := v)
    case SetMuted(m) => d.(muted := m)
  }

  function EditStream(s: AudioStream, e: Edit): AudioStream {
    match e
    case SetVolume(v) => s.(volume := v)
    case SetMuted(m) => s.(muted := m)
  }

  /** `updateDevice`: the edit applied to the devices whose id is `nodeId`. */
  function UpdateDevices(devices: seq<AudioDevice>, nodeId: int, e: Edit): (r: seq<AudioDevice>)
    ensures |r| == |devices|
    ensures forall i :: 0 <= i < |r| && devices[i].id != nodeId ==> r[i] == devices[i]
    ensures forall i :: 0 <= i < |r| && devices[i].id == nodeId ==>
      && r[i].id == devices[i].id && r[i].name == devices[i].name
      && r[i].description == devices[i].description && r[i].deviceType == devices[i].deviceType
      && r[i].isDefault == devices[i].isDefault
      && r[i].volume == (if e.SetVolume? then e.volume else devices[i].volume)
      && r[i].muted == (if e.SetMuted? then e.muted else devices[i].muted)
  {
    seq(|devices|, i requires 0 <= i < |devices| =>
      if devices[i].id == nodeId then EditDevice(devices[i], e) else devices[i])
  }

  /** `updateStream`: the edit applied to the streams whose id is `nodeId`. */
  function UpdateStreams(streams: seq<AudioStream>, nodeId: int, e: Edit): (r: seq<AudioStream>)
    ensures |r| == |streams|
    ensures forall i :: 0 <= i < |r| && streams[i].id != nodeId ==> r[i] == streams[i]
    ensures forall i :: 0 <= i < |r| && streams[i].id == nodeId ==>
      && r[i].id == streams[i].id && r[i].appName == streams[i].appName
      && r[i].mediaName == streams[i].mediaName
      && r[i].volume == (if e.SetVolume? then e.volume else streams[i].volume)
      && r[i].muted == (if e.SetMuted? then e.muted else streams[i].muted)
  {
    seq(|streams|, i requires 0 <= i < |streams| =>
      if streams[i].id == nodeId then EditStream(streams[i], e) else streams[i])
  }

  /** The edit applied to every list of the page's state; nothing happens while
      no state is loaded. */
  function UpdateState(state: Option<AudioState>, nodeId: int, e: Edit): (r: Option<AudioState>)
    ensures r.None? <==> state.None?
    ensures r.Some? ==>
      && r.value.sinks == UpdateDevices(state.value.sinks, nodeId, e)
      && r.value.sources == UpdateDevices(state.value.sources, nodeId, e)
      && r.value.streams == UpdateStreams(state.value.streams, nodeId, e)
  {
    match state
    case None => None
    case Some(s) =>
      Some(AudioState(UpdateDevices(s.sinks, nodeId, e), UpdateDevices(s.sources, nodeId, e),
                      UpdateStreams(s.streams, nodeId, e)))
  }

  /** The local part of `handleVolumeChange`. */
  function VolumeChange(state: Option<AudioState>, nodeId: int, volume: real): (r: Option<AudioState>)
    ensures r.None? <==> state.None?
    ensures r.Some? ==>
      && |r.value.sinks| == |state.value.sinks|
      && forall i :: 0 <= i < |r.value.sinks| ==>
           r.value.sinks[i] == if state.value.sinks[i].id == nodeId
             then state.value.sinks[i].(volume := volume) else state.value.sinks[i]
    ensures r.Some? ==>
      && |r.value.sources| == |state.value.sources|
      && forall i :: 0 <= i < |r.value.sources| ==>
           r.value.sources[i] == if state.value.sources[i].id == nodeId
             then state.value.sources[i].(volume := volume) else state.value.sources[i]
    ensures r.Some? ==>
      && |r.value.streams| == |state.value.streams|
      && forall i :: 0 <= i < |r.value.streams| ==>
           r.value.streams[i] == if state.value.streams[i].id == nodeId
             then state.value.streams[i].(volume := volume) else state.value.streams[i]
  {
    UpdateState(state, nodeId, SetVolume(volume))
  }

  /** The local part of `handleMuteToggle`: the new value is the negation of the
      `currentMuted` the button passed, not of the stored value. */
  function MuteToggle(state: Option<AudioState>, nodeId: int, currentMuted: bool): (r: Option<AudioState>)
    ensures r.None? <==> state.None?
    ensures r.Some? ==>
      && |r.value.sinks| == |state.value.sinks|
      && forall i :: 0 <= i < |r.value.sinks| ==>
           r.value.sinks[i] == if state.value.sinks[i].id == nodeId
             then state.value.sinks[i].(muted := !currentMuted) else state.value.sinks[i]
    ensures r.Some? ==>
      && |r.value.sources| == |state.value.sources|
      && forall i :: 0 <= i < |r.value.sources| ==>
           r.value.sources[i] == if state.value.sources[i].id == nodeId
             then state.value.sources[i].(muted := !currentMuted) else state.value.sources[i]
    ensures r.Some? ==>
      && |r.value.streams| == |state.value.streams|
      && forall i :: 0 <= i < |r.value.streams| ==>
           r.value.streams[i] == if state.value.streams[i].id == nodeId
             then state.value.streams[i].(muted := !currentMuted) else state.value.streams[i]
  {
    UpdateState(state, nodeId, SetMuted(!currentMuted))
  }

  /** No node carries `nodeId`. */
  predicate Absent(s: AudioState, nodeId: int) {
    && (forall i :: 0 <= i < |s.sinks| ==> s.sinks[i].id != nodeId)
    && (forall i :: 0 <= i < |s.sources| ==> s.sources[i].id != nodeId)
    && (forall i :: 0 <= i < |s.streams| ==> s.streams[i].id != nodeId)
  }

  /** An edit for an id the page does not list leaves the state as it is. */
  lemma UnknownIdChangesNothing(s: AudioState, nodeId: int, e: Edit)
    requires Absent(s, nodeId)
    ensures UpdateState(Some(s), nodeId, e) == Some(s)
  {
    assert UpdateDevices(s.sinks, nodeId, e) == s.sinks;
    assert UpdateDevices(s.sources, nodeId, e) == s.sources;
    assert UpdateStreams(s.streams, nodeId, e) == s.streams;
  }

  /** Repeating an edit changes nothing more. */
  lemma EditIdempotent(state: Option<AudioState>, nodeId: int, e: Edit)
    ensures UpdateState(UpdateState(state, nodeId, e), nodeId, e) == UpdateState(state, nodeId, e)
  {
    if state.Some? {
      var s := state.value;
      var once := UpdateState(state, nodeId, e).value;
      assert UpdateDevices(once.sinks, nodeId, e) == once.sinks;
      assert UpdateDevices(once.sources, nodeId, e) == once.sources;
      assert UpdateStreams(once.streams, nodeId, e) == once.streams;
    }
  }

  /** Every node carrying `nodeId` is muted exactly when `muted` says. */
  predicate MutedAs(s: AudioState, nodeId: int, muted: bool) {
    && (forall i :: 0 <= i < |s.sinks| && s.sinks[i].id == nodeId ==> s.sinks[i].muted == muted)
    && (forall i :: 0 <= i < |s.sources| && s.sources[i].id == nodeId ==> s.sources[i].muted == muted)
    && (forall i :: 0 <= i < |s.streams| && s.streams[i].id == nodeId ==> s.streams[i].muted == muted)
  }

  /** Pressing the mute button twice, each time with the value it showed,
      restores the state. */
  lemma MuteToggleTwice(s: AudioState, nodeId: int, currentMuted: bool)
    requires MutedAs(s, nodeId, currentMuted)
    ensures MuteToggle(MuteToggle(Some(s), nodeId, currentMuted), nodeId, !currentMuted) == Some(s)
  {
    var once := MuteToggle(Some(s), nodeId, currentMuted).value;
    var twice := MuteToggle(Some(once), nodeId, !currentMuted).value;
    assert twice.sinks == s.sinks;
    assert twice.sources == s.sources;
    assert twice.streams == s.streams;
  }

  /** Edits of two different nodes do not interfere: their order does not
      matter. */
  lemma EditsCommute(state: Option<AudioState>, a: int, ea: Edit, b: int, eb: Edit)
    requires a != b
    ensures UpdateState(UpdateState(state, a, ea), b, eb) == UpdateState(UpdateState(state, b, eb), a, ea)
  {
    if state.Some? {
      var ab := UpdateState(UpdateState(state, a, ea), b, eb).value;
      var ba := UpdateState(UpdateState(state, b, eb), a, ea).value;
      assert ab.sinks == ba.sinks;
      assert ab.sources == ba.sources;
      assert ab.streams == ba.streams;
    }
  }

  // ---------------------------------------------------------------------------
  // What the page shows

  /** `displayState`: the cached state while a load is running and a cache
      exists, the live state otherwise. */
  function DisplayState(loading: bool, cached: Option<AudioState>, live: Option<AudioState>): (r: Option<AudioState>)
    ensures loading && cached.Some? ==> r == cached
    ensures !(loading && cached.Some?) ==> r == live
  {
    if loading && cached.Some? then cached else live
  }

  /** A JavaScript string used as a condition is false when empty. */
  predicate HasError(error: Option<string>) {
    error.Some? && error.value != ""
  }

  /** `showSkeleton`: placeholders during the first load, or during a reload
      with nothing cached, unless an error is shown. */
  function ShowSkeleton(initialLoad: bool, loading: bool, cached: Option<AudioState>, error: Option<string>): (r: bool)
    ensures r ==> !HasError(error)
    ensures r ==> initialLoad || loading
    ensures !HasError(error) && initialLoad ==> r
  {
    (initialLoad || (loading && cached.None?)) && !HasError(error)
  }

  /** After the first load, a reload with a cache keeps showing the cached
      state instead of placeholders; a reload without one shows placeholders
      unless there is an error. */
  lemma ReloadShowsCache(loading: bool, cached: Option<AudioState>, live: Option<AudioState>, error: Option<string>)
    requires loading
    ensures cached.Some? ==> !ShowSkeleton(false, loading, cached, error) && DisplayState(loading, cached, live) == cached
    ensures cached.None? ==> (ShowSkeleton(false, loading, cached, error) <==> !HasError(error))
  {
  }
}
