/** The keybind helpers of `src/utils/keybinds.ts`: the badge style of a modifier,
    the description of a dispatcher, the split of a bind command into literal text
    and `$name` variable references, and the lookup of a variable's value. */
module KeybindUtils {
  import opened Wrappers
  import opened Text

  // ---------------------------------------------------------------------------
  // Modifier badges

  /** The badge styles a modifier can be shown with. */
  datatype BadgeVariant = Default | Secondary | Outline | Destructive

  /** `getModifierVariant`: the style is chosen on the upper-cased name; the
      aliases of one physical key share a style, and every unknown name is shown
      in the `outline` style (as ALT is). */
  function ModifierVariant(modifier: string): (r: BadgeVariant)
    ensures var m := ToUpper(modifier);
      && (r == Default <==> m in {"SUPER", "MOD4", "WIN"})
      && (r == Secondary <==> m == "SHIFT")
      && (r == Destructive <==> m in {"CTRL", "CONTROL"})
      && (r == Outline <==> m !in {"SUPER", "MOD4", "WIN", "SHIFT", "CTRL", "CONTROL"})
  {
    var m := ToUpper(modifier);
    if m == "SUPER" || m == "MOD4" || m == "WIN" then Default
    else if m == "SHIFT" then Secondary
    else if m == "ALT" || m == "MOD1" then Outline
    else if m == "CTRL" || m == "CONTROL" then Destructive
    else Outline
  }

  /** The style does not depend on how the name is capitalised. */
  lemma ModifierVariantIgnoresCase(modifier: string)
    ensures ModifierVariant(ToLower(modifier)) == ModifierVariant(modifier)
    ensures ModifierVariant(ToUpper(modifier)) == ModifierVariant(modifier)
  {
    UpperOfLower(modifier);
    assert ToUpper(ToUpper(modifier)) == ToUpper(modifier);
  }

  // ---------------------------------------------------------------------------
  // Dispatcher descriptions

  const CustomDispatcherDescription := "Custom dispatcher command"

  /** `getDispatcherDescription`: the table entry of the lower-cased dispatcher,
      or the generic text when the entry is missing or empty (JavaScript's `||`
      treats the empty string as missing). The table itself is a parameter. */
  function DispatcherDescription(dispatcher: string, descriptions: map<string, string>): (r: string)
    ensures r != ""
    ensures var key := ToLower(dispatcher);
      && (key in descriptions && descriptions[key] != "" ==> r == descriptions[key])
      && (key !in descriptions || descriptions[key] == "" ==> r == CustomDispatcherDescription)
  {
    var key := ToLower(dispatcher);
    if key in descriptions && descriptions[key] != "" then descriptions[key]
    else CustomDispatcherDescription
  }

  /** Looking up `EXEC`, `Exec` or `exec` gives the same description. */
  lemma DispatcherDescriptionIgnoresCase(dispatcher: string, descriptions: map<string, string>)
    ensures DispatcherDescription(ToUpper(dispatcher), descriptions)
         == DispatcherDescription(dispatcher, descriptions)
  {
    LowerOfUpper(dispatcher);
  }

  // ---------------------------------------------------------------------------
  // Splitting a command into literal text and variable references

  /** One piece of a command: literal text, or a `$name` reference. */
  datatype CommandPart = CommandPart(text: string, isVariable: bool)

  /** The class `[a-zA-Z0-9_]` of variable-name characters. */
  predicate IsNameChar(c: char) {
    ('a' <= c <= 'z') || ('A' <= c <= 'Z') || ('0' <= c <= '9') || c == '_'
  }

  /** `$` followed by a non-empty run of name characters. */
  predicate IsVariableText(t: string) {
    |t| >= 2 && t[0] == '$' && forall j :: 1 <= j < |t| ==> IsNameChar(t[j])
  }

  /** Non-empty text in which no `$` is directly followed by a name character: a
      `$` that starts no name stays literal text. */
  predicate IsLiteralText(t: string) {
    t != [] && forall j :: 0 <= j < |t| - 1 && t[j] == '$' ==> !IsNameChar(t[j + 1])
  }

  predicate ValidPart(p: CommandPart) {
    if p.isVariable then IsVariableText(p.text) else IsLiteralText(p.text)
  }

  /** The seam between two consecutive parts: a variable is never followed by a
      name character (its name is maximal), and a literal is followed by a `$`. */
  predicate SeamOk(a: CommandPart, b: CommandPart) {
    && b.text != []
    && (a.isVariable ==> !IsNameChar(b.text[0]))
    && (!a.isVariable ==> b.text[0] == '$')
  }

  /** Valid parts with valid seams; two literals may still be adjacent. */
  predicate LooselyWellFormed(ps: seq<CommandPart>) {
    && (forall k :: 0 <= k < |ps| ==> ValidPart(ps[k]))
    && (forall k :: 0 < k < |ps| ==> SeamOk(ps[k - 1], ps[k]))
  }

  /** Loosely well formed, and no two literal parts are adjacent. */
  predicate WellFormed(ps: seq<CommandPart>) {
    && LooselyWellFormed(ps)
    && (forall k :: 0 < k < |ps| ==> ps[k - 1].isVariable || ps[k].isVariable)
  }

  /** The text the parts spell out. */
  function Concat(ps: seq<CommandPart>): string {
    if ps == [] then "" else Concat(ps[..|ps| - 1]) + ps[|ps| - 1].text
  }

  /** `ps` is a lossless, well-formed split of `s`. */
  predicate IsTokenization(ps: seq<CommandPart>, s: string) {
    WellFormed(ps) && Concat(ps) == s
  }

  /** The end of the run of name characters that starts at `i`. */
  function NameRunEnd(s: string, i: nat): (e: nat)
    requires i <= |s|
    ensures i <= e <= |s|
    ensures forall j :: i <= j < e ==> IsNameChar(s[j])
    ensures e == |s| || !IsNameChar(s[e])
    decreases |s| - i
  {
    if i < |s| && IsNameChar(s[i]) then NameRunEnd(s, i + 1) else i
  }

  /** Push the accumulated literal text, if there is any. */
  function Flush(parts: seq<CommandPart>, current: string): seq<CommandPart> {
    if current != [] then parts + [CommandPart(current, false)] else parts
  }

  lemma ConcatSnoc(ps: seq<CommandPart>, p: CommandPart)
    ensures Concat(ps + [p]) == Concat(ps) + p.text
  {
    assert (ps + [p])[..|ps|] == ps;
  }

  lemma LooselyWellFormedSnoc(ps: seq<CommandPart>, p: CommandPart)
    requires LooselyWellFormed(ps) && ValidPart(p)
    requires ps != [] ==> SeamOk(ps[|ps| - 1], p)
    ensures LooselyWellFormed(ps + [p])
  {
    var r := ps + [p];
    assert forall k :: 0 <= k < |ps| ==> r[k] == ps[k];
  }

  lemma WellFormedSnoc(ps: seq<CommandPart>, p: CommandPart)
    requires WellFormed(ps) && ValidPart(p)
    requires ps != [] ==> SeamOk(ps[|ps| - 1], p) && (ps[|ps| - 1].isVariable || p.isVariable)
    ensures WellFormed(ps + [p])
  {
    LooselyWellFormedSnoc(ps, p);
    var r := ps + [p];
    assert forall k :: 0 <= k < |ps| ==> r[k] == ps[k];
  }

  lemma ConcatFlush(ps: seq<CommandPart>, current: string)
    ensures Concat(Flush(ps, current)) == Concat(ps) + current
  {
    if current != [] {
      ConcatSnoc(ps, CommandPart(current, false));
    }
  }

  /** The state of the scanning loop of `parseCommandVariables` (as corrected):
      what has been consumed is the parts followed by the pending literal text. */
  predicate TokenizerInvariant(s: string, i: nat, parts: seq<CommandPart>, current: string) {
    && i <= |s|
    && Concat(parts) + current == s[..i]
    && WellFormed(parts)
    && (parts != [] ==> parts[|parts| - 1].isVariable)
    && (current != [] ==> IsLiteralText(current))
    && (current != [] && parts != [] ==> !IsNameChar(current[0]))
    && (current != [] && current[|current| - 1] == '$' ==> i == |s| || !IsNameChar(s[i]))
    && (current == [] && parts != [] ==> i == |s| || !IsNameChar(s[i]))
  }

  /** The scanning loop with the pending text pushed only once a variable is
      actually found, so that a lone `$` stays in the surrounding literal. */
  function TokenizeFrom(s: string, i: nat, parts: seq<CommandPart>, current: string): (r: seq<CommandPart>)
    requires TokenizerInvariant(s, i, parts, current)
    ensures IsTokenization(r, s)
    decreases |s| - i
  {
    if i == |s| then
      TokenizerFinish(s, parts, current);
      Flush(parts, current)
    else if s[i] == '$' then
      var e := NameRunEnd(s, i + 1);
      if e > i + 1 then
        TokenizerPushVariable(s, i, e, parts, current);
        TokenizeFrom(s, e, Flush(parts, current) + [CommandPart(s[i..e], true)], "")
      else
        TokenizerKeepDollar(s, i, parts, current);
        TokenizeFrom(s, e, parts, current + "$")
    else
      TokenizerKeepChar(s, i, parts, current);
      TokenizeFrom(s, i + 1, parts, current + [s[i]])
  }

  lemma TokenizerFinish(s: string, parts: seq<CommandPart>, current: string)
    requires TokenizerInvariant(s, |s|, parts, current)
    ensures IsTokenization(Flush(parts, current), s)
  {
    ConcatFlush(parts, current);
    assert s[..|s|] == s;
    if current != [] {
      var lit := CommandPart(current, false);
      assert ValidPart(lit);
      assert parts != [] ==> SeamOk(parts[|parts| - 1], lit);
      WellFormedSnoc(parts, lit);
    }
  }

  lemma TokenizerPushVariable(s: string, i: nat, e: nat, parts: seq<CommandPart>, current: string)
    requires TokenizerInvariant(s, i, parts, current) && i < |s| && s[i] == '$'
    requires e == NameRunEnd(s, i + 1) && e > i + 1
    ensures TokenizerInvariant(s, e, Flush(parts, current) + [CommandPart(s[i..e], true)], "")
  {
    var flushed := Flush(parts, current);
    var v := CommandPart(s[i..e], true);
    VariablePart(s, i, e);
    TokenizerFlush(s, i, parts, current);
    ConcatPush(flushed, s, i, e);
    WellFormedSnoc(flushed, v);
  }

  lemma TokenizerFlush(s: string, i: nat, parts: seq<CommandPart>, current: string)
    requires TokenizerInvariant(s, i, parts, current) && i < |s|
    ensures WellFormed(Flush(parts, current))
    ensures Concat(Flush(parts, current)) == s[..i]
  {
    ConcatFlush(parts, current);
    if current != [] {
      WellFormedSnoc(parts, CommandPart(current, false));
    }
  }

  /** The text from a `$` to the end of the name run after it is a variable
      reference. */
  lemma VariablePart(s: string, i: nat, e: nat)
    requires i < |s| && s[i] == '$'
    requires e == NameRunEnd(s, i + 1) && e > i + 1
    ensures ValidPart(CommandPart(s[i..e], true)) && s[i..e][0] == '$'
  {
    assert forall j :: 1 <= j < e - i ==> s[i..e][j] == s[i + j];
  }

  lemma ConcatPush(ps: seq<CommandPart>, s: string, i: nat, e: nat)
    requires i <= e <= |s| && Concat(ps) == s[..i]
    ensures Concat(ps + [CommandPart(s[i..e], true)]) == s[..e]
  {
    ConcatSnoc(ps, CommandPart(s[i..e], true));
    assert s[..i] + s[i..e] == s[..e];
  }

  lemma TokenizerKeepDollar(s: string, i: nat, parts: seq<CommandPart>, current: string)
    requires TokenizerInvariant(s, i, parts, current) && i < |s| && s[i] == '$'
    requires NameRunEnd(s, i + 1) == i + 1
    ensures TokenizerInvariant(s, i + 1, parts, current + "$")
  {
    assert s[..i + 1] == s[..i] + "$";
    var c := current + "$";
    assert forall j :: 0 <= j < |c| - 1 && c[j] == '$' ==> !IsNameChar(c[j + 1]);
  }

  lemma TokenizerKeepChar(s: string, i: nat, parts: seq<CommandPart>, current: string)
    requires TokenizerInvariant(s, i, parts, current) && i < |s| && s[i] != '$'
    ensures TokenizerInvariant(s, i + 1, parts, current + [s[i]])
  {
    assert s[..i + 1] == s[..i] + [s[i]];
    var c := current + [s[i]];
    assert forall j :: 0 <= j < |c| - 1 && c[j] == '$' ==> !IsNameChar(c[j + 1]);
  }

  /** `parseCommandVariables` as it evidently should behave: the loop of the
      source, except that the pending literal is pushed only when a variable
      follows. The result is a lossless, well-formed split of the command. */
  function ParseCommandVariables(command: string): (parts: seq<CommandPart>)
    ensures IsTokenization(parts, command)
  {
    TokenizeFrom(command, 0, [], "")
  }

  /** The state of the scanning loop of `parseCommandVariables` as written. */
  predicate AsWrittenInvariant(s: string, i: nat, parts: seq<CommandPart>, current: string) {
    && i <= |s|
    && Concat(parts) + current == s[..i]
    && LooselyWellFormed(parts)
    && (current != [] ==> IsLiteralText(current))
    && (current != [] && parts != [] ==> SeamOk(parts[|parts| - 1], CommandPart(current, false)))
    && (current != [] && current[|current| - 1] == '$' ==> i == |s| || !IsNameChar(s[i]))
    && (current == [] && parts != [] ==> parts[|parts| - 1].isVariable && (i == |s| || !IsNameChar(s[i])))
  }

  /** The scanning loop exactly as written: on every `$` the pending text is
      pushed first, and a `$` that starts no name then begins a new literal. */
  function TokenizeAsWrittenFrom(s: string, i: nat, parts: seq<CommandPart>, current: string): (r: seq<CommandPart>)
    requires AsWrittenInvariant(s, i, parts, current)
    ensures LooselyWellFormed(r) && Concat(r) == s
    decreases |s| - i
  {
    if i == |s| then
      AsWrittenFinish(s, parts, current);
      Flush(parts, current)
    else if s[i] == '$' then
      var e := NameRunEnd(s, i + 1);
      if e > i + 1 then
        AsWrittenPushVariable(s, i, e, parts, current);
        TokenizeAsWrittenFrom(s, e, Flush(parts, current) + [CommandPart(s[i..e], true)], "")
      else
        AsWrittenKeepDollar(s, i, parts, current);
        TokenizeAsWrittenFrom(s, e, Flush(parts, current), "$")
    else
      AsWrittenKeepChar(s, i, parts, current);
      TokenizeAsWrittenFrom(s, i + 1, parts, current + [s[i]])
  }

  lemma AsWrittenFinish(s: string, parts: seq<CommandPart>, current: string)
    requires AsWrittenInvariant(s, |s|, parts, current)
    ensures LooselyWellFormed(Flush(parts, current)) && Concat(Flush(parts, current)) == s
  {
    ConcatFlush(parts, current);
    assert s[..|s|] == s;
  }

  lemma AsWrittenFlush(s: string, i: nat, parts: seq<CommandPart>, current: string)
    requires AsWrittenInvariant(s, i, parts, current) && i < |s| && s[i] == '$'
    ensures LooselyWellFormed(Flush(parts, current))
    ensures Concat(Flush(parts, current)) == s[..i]
  {
    ConcatFlush(parts, current);
    if current != [] {
      LooselyWellFormedSnoc(parts, CommandPart(current, false));
    }
  }

  lemma AsWrittenPushVariable(s: string, i: nat, e: nat, parts: seq<CommandPart>, current: string)
    requires AsWrittenInvariant(s, i, parts, current) && i < |s| && s[i] == '$'
    requires e == NameRunEnd(s, i + 1) && e > i + 1
    ensures AsWrittenInvariant(s, e, Flush(parts, current) + [CommandPart(s[i..e], true)], "")
  {
    var flushed := Flush(parts, current);
    var v := CommandPart(s[i..e], true);
    VariablePart(s, i, e);
    AsWrittenFlush(s, i, parts, current);
    ConcatPush(flushed, s, i, e);
    LooselyWellFormedSnoc(flushed, v);
    assert Concat(flushed + [v]) + "" == s[..e];
  }

  lemma AsWrittenKeepDollar(s: string, i: nat, parts: seq<CommandPart>, current: string)
    requires AsWrittenInvariant(s, i, parts, current) && i < |s| && s[i] == '$'
    requires NameRunEnd(s, i + 1) == i + 1
    ensures AsWrittenInvariant(s, i + 1, Flush(parts, current), "$")
  {
    AsWrittenFlush(s, i, parts, current);
    assert s[..i + 1] == s[..i] + "$";
  }

  lemma AsWrittenKeepChar(s: string, i: nat, parts: seq<CommandPart>, current: string)
    requires AsWrittenInvariant(s, i, parts, current) && i < |s| && s[i] != '$'
    ensures AsWrittenInvariant(s, i + 1, parts, current + [s[i]])
  {
    assert s[..i + 1] == s[..i] + [s[i]];
    var c := current + [s[i]];
    assert forall j :: 0 <= j < |c| - 1 && c[j] == '$' ==> !IsNameChar(c[j + 1]);
  }

  /** `parseCommandVariables` exactly as written. It is lossless and every part is
      valid, but a lone `$` right after literal text starts a second literal. */
  function ParseCommandVariablesAsWritten(command: string): (parts: seq<CommandPart>)
    ensures LooselyWellFormed(parts)
    ensures Concat(parts) == command
  {
    TokenizeAsWrittenFrom(command, 0, [], "")
  }

  // ---------------------------------------------------------------------------
  // What a split determines

  lemma {:induction false} ConcatAppend(a: seq<CommandPart>, b: seq<CommandPart>)
    ensures Concat(a + b) == Concat(a) + Concat(b)
    decreases |b|
  {
    if b == [] {
      assert a + b == a;
    } else {
      var b' := b[..|b| - 1];
      assert (a + b)[..|a + b| - 1] == a + b';
      ConcatAppend(a, b');
    }
  }

  lemma ConcatFront(ps: seq<CommandPart>)
    requires ps != []
    ensures Concat(ps) == ps[0].text + Concat(ps[1..])
  {
    ConcatAppend([ps[0]], ps[1..]);
    assert [ps[0]] + ps[1..] == ps;
    assert Concat([ps[0]]) == Concat([]) + ps[0].text;
  }

  lemma ConcatOfValidParts(ps: seq<CommandPart>)
    requires forall k :: 0 <= k < |ps| ==> ValidPart(ps[k])
    ensures Concat(ps) == [] <==> ps == []
  {
    if ps != [] {
      assert ValidPart(ps[|ps| - 1]);
    }
  }

  lemma WellFormedTail(ps: seq<CommandPart>)
    requires ps != []
    ensures LooselyWellFormed(ps) ==> LooselyWellFormed(ps[1..])
    ensures WellFormed(ps) ==> WellFormed(ps[1..])
  {
    var t := ps[1..];
    assert forall k :: 0 <= k < |t| ==> t[k] == ps[k + 1];
  }

  /** A non-empty text starts with a variable reference at `k`. */
  predicate StartsVariable(s: string, k: nat) {
    k + 1 < |s| && s[k] == '$' && IsNameChar(s[k + 1])
  }

  /** The first position at or after `k` where a variable reference starts. */
  function LiteralEnd(s: string, k: nat): (e: nat)
    requires k <= |s|
    ensures k <= e <= |s|
    ensures forall j :: k <= j < e ==> !StartsVariable(s, j)
    ensures e == |s| || StartsVariable(s, e)
    decreases |s| - k
  {
    if k == |s| || StartsVariable(s, k) then k else LiteralEnd(s, k + 1)
  }

  /** The part a well-formed split of a non-empty `s` must begin with. */
  function FirstPart(s: string): CommandPart
    requires s != []
  {
    if StartsVariable(s, 0) then CommandPart(s[..NameRunEnd(s, 1)], true)
    else CommandPart(s[..LiteralEnd(s, 0)], false)
  }

  lemma FirstPartDetermined(ps: seq<CommandPart>, s: string)
    requires IsTokenization(ps, s) && s != []
    ensures ps != [] && ps[0] == FirstPart(s)
  {
    assert ps != [];
    var t := ps[0].text;
    assert ValidPart(ps[0]);
    ConcatFront(ps);
    var rest := Concat(ps[1..]);
    assert s == t + rest;
    assert s[..|t|] == t;
    if |ps| > 1 {
      WellFormedTail(ps);
      ConcatFront(ps[1..]);
      assert ps[1..][0] == ps[1];
      assert ValidPart(ps[1]);
      assert SeamOk(ps[0], ps[1]);
      assert rest != [] && rest[0] == ps[1].text[0];
      assert s[|t|] == ps[1].text[0];
      if |ps[1].text| >= 2 {
        assert rest[1] == ps[1].text[1];
        assert s[|t| + 1] == ps[1].text[1];
      }
    } else {
      assert rest == [];
      assert |t| == |s|;
    }
    if ps[0].isVariable {
      assert StartsVariable(s, 0) by { assert s[1] == t[1]; }
      var e := NameRunEnd(s, 1);
      assert forall j :: 1 <= j < |t| ==> IsNameChar(s[j]) by {
        forall j | 1 <= j < |t| ensures IsNameChar(s[j]) { assert s[j] == t[j]; }
      }
      assert e == |t|;
      assert FirstPart(s) == CommandPart(s[..|t|], true);
    } else {
      assert !ps[0].isVariable;
      if |ps| > 1 {
        assert ps[1].isVariable;
      }
      assert !StartsVariable(s, 0);
      var e := LiteralEnd(s, 0);
      assert forall j :: 0 <= j < |t| ==> !StartsVariable(s, j);
      assert |t| == |s| || StartsVariable(s, |t|) by {
        if |t| < |s| {
          assert |ps| > 1 && ps[1].isVariable;
          assert s[|t|] == ps[1].text[0] == '$';
          assert s[|t| + 1] == ps[1].text[1];
        }
      }
      assert e == |t|;
      assert FirstPart(s) == CommandPart(s[..|t|], false);
    }
  }

  /** A text has exactly one lossless, well-formed split: the conditions of
      `IsTokenization` pin the result of `parseCommandVariables` down completely. */
  lemma {:induction false} TokenizationUnique(ps: seq<CommandPart>, qs: seq<CommandPart>, s: string)
    requires IsTokenization(ps, s) && IsTokenization(qs, s)
    ensures ps == qs
    decreases |ps|
  {
    if s == [] {
      ConcatOfValidParts(ps);
      ConcatOfValidParts(qs);
    } else {
      FirstPartDetermined(ps, s);
      FirstPartDetermined(qs, s);
      var n := |ps[0].text|;
      ConcatFront(ps);
      ConcatFront(qs);
      assert s[..n] == ps[0].text == qs[0].text;
      assert Concat(ps[1..]) == s[n..] == Concat(qs[1..]);
      WellFormedTail(ps);
      WellFormedTail(qs);
      TokenizationUnique(ps[1..], qs[1..], s[n..]);
      assert ps == [ps[0]] + ps[1..];
      assert qs == [qs[0]] + qs[1..];
    }
  }

  /** Every variable reference is maximal: the input character right after it, if
      any, is not a name character. */
  lemma VariableIsMaximal(ps: seq<CommandPart>, s: string, k: nat)
    requires LooselyWellFormed(ps) && Concat(ps) == s
    requires k < |ps| && ps[k].isVariable
    ensures var end := |Concat(ps[..k + 1])|;
      end < |s| ==> !IsNameChar(s[end])
  {
    assert ps == ps[..k + 1] + ps[k + 1..];
    ConcatAppend(ps[..k + 1], ps[k + 1..]);
    if k + 1 < |ps| {
      ConcatFront(ps[k + 1..]);
      assert ps[k + 1..][0] == ps[k + 1];
      assert SeamOk(ps[k], ps[k + 1]);
    }
  }

  /** A command without `$` is one literal part (none when it is empty). */
  lemma NoDollarIsOneLiteral(command: string)
    requires '$' !in command
    ensures command == [] ==> ParseCommandVariables(command) == []
    ensures command != [] ==> ParseCommandVariables(command) == [CommandPart(command, false)]
  {
    var ps := ParseCommandVariables(command);
    if command == [] {
      ConcatOfValidParts(ps);
    } else {
      var single := [CommandPart(command, false)];
      assert Concat(single) == Concat([]) + command;
      assert IsTokenization(single, command);
      TokenizationUnique(ps, single, command);
    }
  }

  // ---------------------------------------------------------------------------
  // Relating the code as written to the corrected split

  /** Join every run of adjacent literal parts into one literal. */
  function MergeLiterals(ps: seq<CommandPart>): seq<CommandPart>
    decreases |ps|
  {
    if |ps| <= 1 then ps
    else
      var rest := MergeLiterals(ps[1..]);
      if !ps[0].isVariable && rest != [] && !rest[0].isVariable
      then [CommandPart(ps[0].text + rest[0].text, false)] + rest[1..]
      else [ps[0]] + rest
  }

  /** What `MergeLiterals` keeps: well-formedness, the spelled-out text, and the
      kind and first character of the first part. */
  predicate MergePreserves(ps: seq<CommandPart>, r: seq<CommandPart>) {
    && WellFormed(r)
    && Concat(r) == Concat(ps)
    && (ps != [] && ps[0].text != [] ==>
          (r != [] && r[0].isVariable == ps[0].isVariable
           && r[0].text != [] && r[0].text[0] == ps[0].text[0]))
  }

  lemma {:induction false} MergeLiteralsSound(ps: seq<CommandPart>)
    requires LooselyWellFormed(ps)
    ensures MergePreserves(ps, MergeLiterals(ps))
    decreases |ps|
  {
    if |ps| <= 1 {
      if |ps| == 1 {
        assert ValidPart(ps[0]);
        assert Concat(ps) == Concat([]) + ps[0].text;
      }
    } else {
      var rest := MergeLiterals(ps[1..]);
      WellFormedTail(ps);
      MergeLiteralsSound(ps[1..]);
      assert ps[1..][0] == ps[1];
      ConcatFront(ps);
      if !ps[0].isVariable && !rest[0].isVariable {
        MergeJoin(ps, rest);
      } else {
        MergeKeep(ps, rest);
      }
    }
  }

  lemma MergeJoin(ps: seq<CommandPart>, rest: seq<CommandPart>)
    requires |ps| >= 2 && LooselyWellFormed(ps) && MergePreserves(ps[1..], rest)
    requires Concat(ps) == ps[0].text + Concat(ps[1..])
    requires !ps[0].isVariable && !rest[0].isVariable
    ensures MergePreserves(ps, [CommandPart(ps[0].text + rest[0].text, false)] + rest[1..])
  {
    assert ps[1..][0] == ps[1];
    assert ValidPart(ps[0]) && ValidPart(rest[0]);
    assert SeamOk(ps[0], ps[1]);
    var a := ps[0].text;
    var b := rest[0].text;
    var m := CommandPart(a + b, false);
    LiteralJoin(a, b);
    ReplaceHead(rest, m);
    var r := [m] + rest[1..];
    ConcatFront(r);
    ConcatFront(rest);
    assert r[1..] == rest[1..];
    var x := Concat(rest[1..]);
    assert Concat(r) == (a + b) + x;
    assert (a + b) + x == a + (b + x) by { AppendAssoc(a, b, x); }
  }

  lemma AppendAssoc(a: string, b: string, c: string)
    ensures (a + b) + c == a + (b + c)
  {
  }

  /** Replacing the first part by another valid part of the same kind keeps a
      split well formed. */
  lemma ReplaceHead(rest: seq<CommandPart>, m: CommandPart)
    requires WellFormed(rest) && rest != [] && ValidPart(m) && m.isVariable == rest[0].isVariable
    ensures WellFormed([m] + rest[1..])
  {
    var r := [m] + rest[1..];
    assert forall k :: 0 < k < |r| ==> r[k] == rest[k];
    if |r| > 1 {
      assert SeamOk(rest[0], rest[1]);
    }
  }

  /** Two literals glued at a `$` form one literal. */
  lemma LiteralJoin(a: string, b: string)
    requires IsLiteralText(a) && IsLiteralText(b) && b[0] == '$'
    ensures IsLiteralText(a + b)
  {
    var t := a + b;
    forall j | 0 <= j < |t| - 1 && t[j] == '$'
      ensures !IsNameChar(t[j + 1])
    {
      if j < |a| - 1 {
        assert t[j] == a[j] && t[j + 1] == a[j + 1];
      } else if j == |a| - 1 {
        assert t[j + 1] == b[0];
      } else {
        assert t[j] == b[j - |a|] && t[j + 1] == b[j - |a| + 1];
      }
    }
  }

  lemma MergeKeep(ps: seq<CommandPart>, rest: seq<CommandPart>)
    requires |ps| >= 2 && LooselyWellFormed(ps) && MergePreserves(ps[1..], rest)
    requires Concat(ps) == ps[0].text + Concat(ps[1..])
    requires ps[0].isVariable || rest[0].isVariable
    ensures MergePreserves(ps, [ps[0]] + rest)
  {
    assert ps[1..][0] == ps[1];
    assert SeamOk(ps[0], ps[1]) && ValidPart(ps[0]);
    var r := [ps[0]] + rest;
    assert SeamOk(ps[0], rest[0]);
    assert forall k :: 0 < k < |r| ==> r[k] == rest[k - 1];
    assert WellFormed(r);
    ConcatFront(r);
    assert r[1..] == rest;
  }

  /** Merging the adjacent literals that the code as written produces yields the
      corrected split: the two differ only in how literal text is chunked. */
  lemma AsWrittenMergesToCorrected(command: string)
    ensures MergeLiterals(ParseCommandVariablesAsWritten(command)) == ParseCommandVariables(command)
  {
    var w := ParseCommandVariablesAsWritten(command);
    MergeLiteralsSound(w);
    TokenizationUnique(MergeLiterals(w), ParseCommandVariables(command), command);
  }

  /** The discrepancy on a concrete command: as written, `a$ b` is split into the
      two adjacent literals `a` and `$ b`; the corrected split is one literal. */
  lemma AsWrittenSplitsAtLoneDollar()
    ensures ParseCommandVariablesAsWritten("a$ b") == [CommandPart("a", false), CommandPart("$ b", false)]
    ensures ParseCommandVariables("a$ b") == [CommandPart("a$ b", false)]
  {
    var s := "a$ b";
    var lit := [CommandPart("a", false)];
    AsWrittenAfterLoneDollar();
    assert NameRunEnd(s, 2) == 2;
    assert Flush([], "a") == lit;
    assert TokenizeAsWrittenFrom(s, 1, [], "a") == TokenizeAsWrittenFrom(s, 2, lit, "$");
    assert "" + [s[0]] == "a";
    assert TokenizeAsWrittenFrom(s, 0, [], "") == TokenizeAsWrittenFrom(s, 1, [], "a");
    CorrectedKeepsLoneDollar();
  }

  lemma AsWrittenAfterLoneDollar()
    ensures TokenizeAsWrittenFrom("a$ b", 2, [CommandPart("a", false)], "$")
         == [CommandPart("a", false), CommandPart("$ b", false)]
  {
    var s := "a$ b";
    var lit := [CommandPart("a", false)];
    assert TokenizeAsWrittenFrom(s, 4, lit, "$ b") == lit + [CommandPart("$ b", false)];
    assert "$ " + [s[3]] == "$ b";
    assert TokenizeAsWrittenFrom(s, 3, lit, "$ ") == TokenizeAsWrittenFrom(s, 4, lit, "$ b");
    assert "$" + [s[2]] == "$ ";
    assert TokenizeAsWrittenFrom(s, 2, lit, "$") == TokenizeAsWrittenFrom(s, 3, lit, "$ ");
  }

  lemma CorrectedKeepsLoneDollar()
    ensures ParseCommandVariables("a$ b") == [CommandPart("a$ b", false)]
  {
    var s := "a$ b";
    var single := [CommandPart(s, false)];
    assert Concat(single) == Concat([]) + s;
    assert IsTokenization(single, s);
    TokenizationUnique(ParseCommandVariables(s), single, s);
  }

  // ---------------------------------------------------------------------------
  // Variable values

  /** A user variable: `$name = value` in the compositor configuration. */
  datatype Variable = Variable(name: string, value: string)

  /** The name with at most one leading `$` removed. */
  function StripDollar(name: string): (r: string)
    ensures name != [] && name[0] == '$' ==> r == name[1..]
    ensures (name == [] || name[0] != '$') ==> r == name
  {
    if name != [] && name[0] == '$' then name[1..] else name
  }

  /** `variables.find`: the index of the first variable called `name`. */
  function FindVariable(variables: seq<Variable>, name: string): (r: Option<nat>)
    ensures r.Some? ==> r.value < |variables| && variables[r.value].name == name
    ensures r.Some? ==> forall k :: 0 <= k < r.value ==> variables[k].name != name
    ensures r.None? <==> forall k :: 0 <= k < |variables| ==> variables[k].name != name
  {
    if variables == [] then None
    else if variables[0].name == name then Some(0)
    else match FindVariable(variables[1..], name)
      case None => None
      case Some(k) => Some(k + 1)
  }

  /** `getVariableValue`: the value of the first variable whose name is the
      reference with one leading `$` removed, or `null` when there is none. */
  function VariableValue(reference: string, variables: seq<Variable>): (r: Option<string>)
    ensures var name := StripDollar(reference);
      && (r.None? <==> forall k :: 0 <= k < |variables| ==> variables[k].name != name)
      && (forall k :: 0 <= k < |variables| && variables[k].name == name
            && (forall j :: 0 <= j < k ==> variables[j].name != name)
            ==> r == Some(variables[k].value))
  {
    match FindVariable(variables, StripDollar(reference))
    case None => None
    case Some(k) => Some(variables[k].value)
  }

  /** A reference may be written with or without its `$`, but only one `$` is
      removed: `$$x` looks for a variable called `$x`. */
  lemma VariableValueDollarOptional(name: string, variables: seq<Variable>)
    requires name == [] || name[0] != '$'
    ensures VariableValue("$" + name, variables) == VariableValue(name, variables)
    ensures StripDollar("$$" + name) == "$" + name
  {
    assert ("$" + name)[1..] == name;
    assert ("$$" + name)[1..] == "$" + name;
  }
}
