/** The page's state transitions: restoring the inputs and the theme at
    load time, the two inputs' `input` and clear-button handlers, and the
    theme toggle, each writing through to the store. */
module Page {
  import opened Strings
  import opened Storage

  const CharKey: string := "charInputText"
  const MsgKey: string := "msgInputText"
  const ThemeKey: string := "theme"

  /** The two text inputs: the free character counter and the message counter. */
  datatype Field = CharField | MsgField

  function Key(f: Field): string {
    match f
    case CharField => CharKey
    case MsgField => MsgKey
  }

  function Other(f: Field): Field {
    match f
    case CharField => MsgField
    case MsgField => CharField
  }

  /** The values of the two inputs, whether the body has the `dark-mode`
      class, and the store behind them. */
  datatype PageState = PageState(charText: string, msgText: string, dark: bool, store: Store)

  function Text(p: PageState, f: Field): string {
    match f
    case CharField => p.charText
    case MsgField => p.msgText
  }

  function WithText(p: PageState, f: Field, text: string): (q: PageState)
    ensures Text(q, f) == text && Text(q, Other(f)) == Text(p, Other(f))
    ensures q.dark == p.dark && q.store == p.store
  {
    match f
    case CharField => p.(charText := text)
    case MsgField => p.(msgText := text)
  }

  /** The script's start-up: each input shows what the store holds for it,
      and dark mode is on exactly when the stored theme is "dark". */
  function Startup(st: Store): (p: PageState)
    ensures p.store == st
    ensures forall f :: Text(p, f) == Load(st, Key(f))
    ensures p.dark <==> Load(st, ThemeKey) == "dark"
    ensures !st.canRead ==> p.charText == "" && p.msgText == "" && !p.dark
  {
    PageState(Load(st, CharKey), Load(st, MsgKey), Load(st, ThemeKey) == "dark", st)
  }

  /** An input's `input` event: the new value is shown and saved; `written`
      says whether this `setItem` went through. */
  function Edit(p: PageState, f: Field, text: string, written: bool): (q: PageState)
    ensures Text(q, f) == text && Text(q, Other(f)) == Text(p, Other(f))
    ensures q.dark == p.dark
    ensures q.store == Save(p.store, Key(f), text, written)
  {
    WithText(p, f, text).(store := Save(p.store, Key(f), text, written))
  }

  /** An input's clear button. A value that trims to nothing is left alone
      ("Already empty!"), store included; otherwise the value becomes "" and
      "" is saved under the input's key. Nothing else changes. */
  function Clear(p: PageState, f: Field, written: bool): (q: PageState)
    ensures AllWhitespace(Text(p, f)) ==> q == p
    ensures !AllWhitespace(Text(p, f)) ==>
      Text(q, f) == "" && q.store == Save(p.store, Key(f), "", written)
    ensures Text(q, Other(f)) == Text(p, Other(f)) && q.dark == p.dark
  {
    if Trim(Text(p, f)) == "" then p
    else Edit(p, f, "", written)
  }

  /** The theme button: dark mode flips and the new theme's name is saved. */
  function ToggleTheme(p: PageState, written: bool): (q: PageState)
    ensures q.dark == !p.dark
    ensures q.charText == p.charText && q.msgText == p.msgText
    ensures q.store == Save(p.store, ThemeKey, if q.dark then "dark" else "light", written)
  {
    var dark := !p.dark;
    p.(dark := dark, store := Save(p.store, ThemeKey, if dark then "dark" else "light", written))
  }

  /** A user action, with whether the `setItem` it triggers goes through. */
  datatype Event =
    | Input(field: Field, text: string, written: bool)
    | ClearClicked(field: Field, written: bool)
    | ThemeClicked(written: bool)

  function Step(p: PageState, e: Event): PageState {
    match e
    case Input(f, text, written) => Edit(p, f, text, written)
    case ClearClicked(f, written) => Clear(p, f, written)
    case ThemeClicked(written) => ToggleTheme(p, written)
  }

  function Run(p: PageState, events: seq<Event>): PageState
    decreases |events|
  {
    if events == [] then p else Run(Step(p, events[0]), events[1..])
  }

  /** Every write of the session goes through. */
  predicate AllWritten(events: seq<Event>) {
    forall i :: 0 <= i < |events| ==> events[i].written
  }

  /** Reloading the page would show exactly what it shows now. */
  predicate Consistent(p: PageState) {
    Startup(p.store) == p
  }

  /** Clearing twice is clearing once. */
  lemma ClearIdempotent(p: PageState, f: Field, written: bool, again: bool)
    ensures Clear(Clear(p, f, written), f, again) == Clear(p, f, written)
  {
  }

  /** After a clear that did something and was saved, the store holds "" for the input. */
  lemma ClearPersistsEmpty(p: PageState, f: Field)
    requires p.store.canRead && !AllWhitespace(Text(p, f))
    ensures Load(Clear(p, f, true).store, Key(f)) == "" == Text(Clear(p, f, true), f)
  {
  }

  /** Toggling twice restores the theme and leaves the inputs alone. */
  lemma ToggleInvolution(p: PageState, w1: bool, w2: bool)
    ensures ToggleTheme(ToggleTheme(p, w1), w2).dark == p.dark
    ensures ToggleTheme(ToggleTheme(p, w1), w2).charText == p.charText
    ensures ToggleTheme(ToggleTheme(p, w1), w2).msgText == p.msgText
  {
  }

  /** After a saved toggle, the stored theme reads "dark" exactly when dark mode is on. */
  lemma ToggleStoresTheme(p: PageState)
    requires p.store.canRead
    ensures Load(ToggleTheme(p, true).store, ThemeKey) == "dark" <==> ToggleTheme(p, true).dark
  {
  }

  /** Every handler whose write goes through keeps the store in step with
      the page, as long as the store can be read. */
  lemma StepConsistent(p: PageState, e: Event)
    requires p.store.canRead && Consistent(p) && e.written
    ensures Step(p, e).store.canRead && Consistent(Step(p, e))
  {
  }

  /** A write that throws while the value changes leaves the store behind
      the page: a reload would show the previous value. */
  lemma FailedWriteLosesEdit(p: PageState, f: Field, text: string)
    requires p.store.canRead && Consistent(p) && text != Text(p, f)
    ensures !Consistent(Edit(p, f, text, false))
    ensures Text(Startup(Edit(p, f, text, false).store), f) == Text(p, f)
  {
  }

  /** Whatever the user does after the page starts, as long as every write
      goes through, a reload restores the inputs and the theme as they were left. */
  lemma {:induction false} RunConsistent(p: PageState, events: seq<Event>)
    requires p.store.canRead && Consistent(p) && AllWritten(events)
    ensures Run(p, events).store.canRead && Consistent(Run(p, events))
    decreases |events|
  {
    if events != [] {
      StepConsistent(p, events[0]);
      assert AllWritten(events[1..]) by {
        forall i | 0 <= i < |events[1..]| ensures events[1..][i].written {
          assert events[1..][i] == events[i + 1];
        }
      }
      RunConsistent(Step(p, events[0]), events[1..]);
    }
  }

  /** The page as loaded from a readable store is consistent with it, so any
      session whose writes all go through, followed by a reload, ends where
      the session left off. */
  lemma ReloadRestoresSession(st: Store, events: seq<Event>)
    requires st.canRead && AllWritten(events)
    ensures Startup(Run(Startup(st), events).store) == Run(Startup(st), events)
  {
    RunConsistent(Startup(st), events);
  }
}
