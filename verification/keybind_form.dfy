/** The logic of the keybind form dialog: toggling a modifier, the dispatcher
    suggestions shown while typing, and what a submit sends to the backend.
    The dispatcher list is a parameter; its contents are not part of this model. */
module KeybindForm {
  import opened Wrappers
  import opened Text

  // ---------------------------------------------------------------------------
  // Modifiers

  /** `filter((m) => m !== modifier)`: every occurrence of `m` dropped. */
  function RemoveAll(mods: seq<string>, m: string): (r: seq<string>)
    ensures m !in r
    ensures multiset(r) == multiset(mods)[m := 0]
  {
    if mods == [] then []
    else
      assert mods == [mods[0]] + mods[1..];
      if mods[0] == m then RemoveAll(mods[1..], m) else [mods[0]] + RemoveAll(mods[1..], m)
  }

  /** `toggleModifier`: a selected modifier is deselected (every copy of it), an
      unselected one is added at the end. */
  function ToggleModifier(mods: seq<string>, m: string): (r: seq<string>)
    ensures m in mods ==> m !in r && multiset(r) == multiset(mods)[m := 0]
    ensures m !in mods ==> |r| == |mods| + 1 && r[..|mods|] == mods && r[|mods|] == m
  {
    if m in mods then RemoveAll(mods, m) else mods + [m]
  }

  lemma {:induction false} RemoveAllAbsent(mods: seq<string>, m: string)
    requires m !in mods
    ensures RemoveAll(mods, m) == mods
  {
    if mods != [] {
      RemoveAllAbsent(mods[1..], m);
      assert mods == [mods[0]] + mods[1..];
    }
  }

  lemma {:induction false} RemoveAllAppend(a: seq<string>, b: seq<string>, m: string)
    ensures RemoveAll(a + b, m) == RemoveAll(a, m) + RemoveAll(b, m)
  {
    if a == [] {
      assert a + b == b;
    } else {
      assert (a + b)[0] == a[0];
      assert (a + b)[1..] == a[1..] + b;
      RemoveAllAppend(a[1..], b, m);
    }
  }

  /** Deselecting `m` keeps every other selected modifier and adds none. */
  lemma RemoveAllKeepsOthers(mods: seq<string>, m: string, x: string)
    requires x != m
    ensures x in RemoveAll(mods, m) <==> x in mods
  {
    assert x in multiset(RemoveAll(mods, m)) <==> x in multiset(mods);
  }

  /** Toggling an unselected modifier twice restores the selection. */
  lemma ToggleTwiceAbsent(mods: seq<string>, m: string)
    requires m !in mods
    ensures ToggleModifier(ToggleModifier(mods, m), m) == mods
  {
    assert m in mods + [m];
    RemoveAllAppend(mods, [m], m);
    RemoveAllAbsent(mods, m);
    assert RemoveAll([m], m) == [] by { assert [m][1..] == []; }
    assert mods + [] == mods;
  }

  /** Toggling a selected modifier twice leaves exactly one copy of it, moved
      to the end, after the other modifiers in their order. */
  lemma ToggleTwicePresent(mods: seq<string>, m: string)
    requires m in mods
    ensures ToggleModifier(ToggleModifier(mods, m), m) == RemoveAll(mods, m) + [m]
  {
  }

  // ---------------------------------------------------------------------------
  // Dispatcher suggestions

  /** The most suggestions shown at once. */
  const MaxSuggestions: nat := 8

  /** A dispatcher matches when its lower-cased name contains the lower-cased
      input, spaces included. */
  predicate Matches(dispatcher: string, value: string) {
    Contains(ToLower(dispatcher), ToLower(value))
  }

  /** The matching dispatchers, in list order. */
  function Matching(available: seq<string>, value: string): (r: seq<string>)
    ensures |r| <= |available|
    ensures forall d :: d in r <==> d in available && Matches(d, value)
  {
    if available == [] then []
    else
      var rest := Matching(available[1..], value);
      assert forall d :: d in available <==> d == available[0] || d in available[1..];
      if Matches(available[0], value) then [available[0]] + rest else rest
  }

  /** `handleDispatcherChange`: nothing for a blank input; otherwise the first
      eight matching dispatchers. */
  function Suggestions(available: seq<string>, value: string): (r: seq<string>)
    ensures TrimJs(value) == [] ==> r == []
    ensures |r| <= MaxSuggestions
    ensures forall d :: d in r ==> d in available && Matches(d, value)
    ensures TrimJs(value) != [] && |Matching(available, value)| <= MaxSuggestions ==>
      forall d :: d in available && Matches(d, value) ==> d in r
    ensures TrimJs(value) != [] ==>
      && |r| == (if |Matching(available, value)| < MaxSuggestions then |Matching(available, value)| else MaxSuggestions)
      && r == Matching(available, value)[..|r|]
  {
    if TrimJs(value) == [] then []
    else
      var m := Matching(available, value);
      var n := if |m| < MaxSuggestions then |m| else MaxSuggestions;
      assert forall d :: d in m[..n] ==> d in m;
      assert n == |m| ==> m[..n] == m;
      m[..n]
  }

  /** Matching keeps list order: matching a concatenation concatenates the
      matches. */
  lemma {:induction false} MatchingAppend(a: seq<string>, b: seq<string>, value: string)
    ensures Matching(a + b, value) == Matching(a, value) + Matching(b, value)
  {
    if a == [] {
      assert a + b == b;
    } else {
      assert (a + b)[0] == a[0];
      assert (a + b)[1..] == a[1..] + b;
      MatchingAppend(a[1..], b, value);
    }
  }

  /** The case of the input does not matter. */
  lemma SuggestionsIgnoreCase(available: seq<string>, value: string)
    ensures Suggestions(available, ToUpper(value)) == Suggestions(available, value)
  {
    LowerOfUpper(value);
    assert forall d :: Matches(d, ToUpper(value)) == Matches(d, value);
    MatchingIgnoresCase(available, value);
    BlankIgnoresCase(value);
  }

  lemma {:induction false} MatchingIgnoresCase(available: seq<string>, value: string)
    ensures Matching(available, ToUpper(value)) == Matching(available, value)
  {
    LowerOfUpper(value);
    if available != [] {
      MatchingIgnoresCase(available[1..], value);
    }
  }

  /** Upper-casing touches no whitespace, so it keeps a blank input blank and a
      non-blank one non-blank. */
  lemma BlankIgnoresCase(value: string)
    ensures TrimJs(ToUpper(value)) == [] <==> TrimJs(value) == []
  {
    var u := ToUpper(value);
    forall i | 0 <= i < |value|
      ensures IsJsSpace(u[i]) <==> IsJsSpace(value[i])
    {
      UpperKeepsSpace(value[i]);
    }
    assert All(u, IsJsSpace) <==> All(value, IsJsSpace);
    TrimByShape(value, IsJsSpace);
    TrimByShape(u, IsJsSpace);
  }

  lemma UpperKeepsSpace(c: char)
    ensures IsJsSpace(ToUpperChar(c)) <==> IsJsSpace(c)
  {
    if 'a' <= c <= 'z' {
      assert 'A' <= ToUpperChar(c) <= 'Z';
    }
  }

  // ---------------------------------------------------------------------------
  // Submit

  /** The backend call a submit makes. `index` is only sent for an edit. */
  datatype Invocation = Invocation(
    command: string,
    index: Option<int>,
    modifiers: seq<string>,
    key: string,
    dispatcher: string,
    params: string)

  const KeyRequired: string := "Key is required"
  const DispatcherRequired: string := "Dispatcher is required"

  /** `handleSubmit`: the key is checked first, then the dispatcher; a bindu
      form always adds, a keybind form edits when it was opened on an existing
      keybind (`editing` holds its index) and adds otherwise. */
  function Submit(modifiers: seq<string>, key: string, dispatcher: string, params: string,
                  editing: Option<int>, isBindu: bool): (r: Result<Invocation, string>)
    ensures TrimJs(key) == [] ==> r == Err(KeyRequired)
    ensures TrimJs(key) != [] && TrimJs(dispatcher) == [] ==> r == Err(DispatcherRequired)
    ensures r.Ok? <==> TrimJs(key) != [] && TrimJs(dispatcher) != []
    ensures r.Ok? ==> (r.value.command == "add_bindu" <==> isBindu)
    ensures r.Ok? ==> (r.value.command == "edit_keybind" <==> !isBindu && editing.Some?)
    ensures r.Ok? ==> (r.value.command == "add_keybind" <==> !isBindu && editing.None?)
    ensures r.Ok? ==> (r.value.index.Some? <==> r.value.command == "edit_keybind")
    ensures r.Ok? && r.value.index.Some? ==> r.value.index == editing
    ensures r.Ok? ==> r.value.modifiers == modifiers
    ensures r.Ok? ==> TrimmedBy(r.value.key, IsJsSpace) && r.value.key != []
    ensures r.Ok? ==> TrimmedBy(r.value.dispatcher, IsJsSpace) && r.value.dispatcher != []
    ensures r.Ok? ==> TrimmedBy(r.value.params, IsJsSpace)
    ensures r.Ok? ==>
      r.value.key == TrimJs(key) && r.value.dispatcher == TrimJs(dispatcher) && r.value.params == TrimJs(params)
  {
    TrimByShape(key, IsJsSpace);
    TrimByShape(dispatcher, IsJsSpace);
    TrimByShape(params, IsJsSpace);
    if TrimJs(key) == [] then Err(KeyRequired)
    else if TrimJs(dispatcher) == [] then Err(DispatcherRequired)
    else
      var command := if isBindu then "add_bindu" else if editing.Some? then "edit_keybind" else "add_keybind";
      var index := if !isBindu && editing.Some? then editing else None;
      Ok(Invocation(command, index, modifiers, TrimJs(key), TrimJs(dispatcher), TrimJs(params)))
  }

  /** Only the trimmed fields matter: submitting the trimmed key, dispatcher
      and params gives the same outcome, error or call, as the typed ones. */
  lemma SubmitSeesTrimmed(modifiers: seq<string>, key: string, dispatcher: string, params: string,
                          editing: Option<int>, isBindu: bool)
    ensures Submit(modifiers, TrimJs(key), TrimJs(dispatcher), TrimJs(params), editing, isBindu)
         == Submit(modifiers, key, dispatcher, params, editing, isBindu)
  {
    TrimByIdempotent(key, IsJsSpace);
    TrimByIdempotent(dispatcher, IsJsSpace);
    TrimByIdempotent(params, IsJsSpace);
  }

  /** A bindu form never edits, whatever it was opened on. */
  lemma BinduNeverEdits(modifiers: seq<string>, key: string, dispatcher: string, params: string, editing: Option<int>)
    requires TrimJs(key) != [] && TrimJs(dispatcher) != []
    ensures var r := Submit(modifiers, key, dispatcher, params, editing, true);
      r.Ok? && r.value.command == "add_bindu" && r.value.index.None?
  {
  }

  /** The submitted fields are the typed ones up to surrounding whitespace, so
      submitting them again sends the same call. */
  lemma ResubmitSame(modifiers: seq<string>, key: string, dispatcher: string, params: string,
                     editing: Option<int>, isBindu: bool)
    requires Submit(modifiers, key, dispatcher, params, editing, isBindu).Ok?
    ensures var v := Submit(modifiers, key, dispatcher, params, editing, isBindu).value;
      Submit(v.modifiers, v.key, v.dispatcher, v.params, editing, isBindu).Ok?
        && Submit(v.modifiers, v.key, v.dispatcher, v.params, editing, isBindu).value == v
  {
    TrimByIdempotent(key, IsJsSpace);
    TrimByIdempotent(dispatcher, IsJsSpace);
    TrimByIdempotent(params, IsJsSpace);
  }
}
