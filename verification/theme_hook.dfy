/** The light/dark theme hook: the theme chosen at start-up from storage, the
    toggle, and the effect that marks the document root and saves the choice.
    The document root's class list and the browser storage are explicit
    values. */
module ThemeHook {
  import opened Wrappers

  datatype Theme = Light | Dark

  const StorageKey: string := "theme"
  const DarkClass: string := "dark"

  function Name(t: Theme): string {
    match t
    case Light => "light"
    case Dark => "dark"
  }

  /** The initial theme: a stored `"light"` or `"dark"`, light for anything
      else or nothing stored. */
  function InitialTheme(stored: Option<string>): (t: Theme)
    ensures t == Dark <==> stored == Some("dark")
  {
    if stored == Some("light") then Light
    else if stored == Some("dark") then Dark
    else Light
  }

  /** `toggleTheme`. */
  function Toggle(t: Theme): (r: Theme)
    ensures r != t
  {
    if t == Light then Dark else Light
  }

  lemma ToggleTwice(t: Theme)
    ensures Toggle(Toggle(t)) == t
  {
  }

  /** The document root's classes and the browser's local storage. */
  datatype Page = Page(rootClasses: set<string>, storage: map<string, string>)

  function Stored(p: Page): Option<string> {
    if StorageKey in p.storage then Some(p.storage[StorageKey]) else None
  }

  /** The effect run whenever the theme changes. */
  function ApplyTheme(t: Theme, p: Page): (r: Page)
    ensures DarkClass in r.rootClasses <==> t == Dark
    ensures forall c :: c != DarkClass ==> (c in r.rootClasses <==> c in p.rootClasses)
    ensures Stored(r) == Some(Name(t))
    ensures forall k :: k != StorageKey ==> (k in r.storage <==> k in p.storage)
    ensures forall k :: k != StorageKey && k in p.storage ==> r.storage[k] == p.storage[k]
  {
    var classes := if t == Dark then p.rootClasses + {DarkClass} else p.rootClasses - {DarkClass};
    Page(classes, p.storage[StorageKey := Name(t)])
  }

  /** After the effect, starting again reads back the same theme. */
  lemma ReloadRestores(t: Theme, p: Page)
    ensures InitialTheme(Stored(ApplyTheme(t, p))) == t
  {
  }

  /** Running the effect again changes nothing. */
  lemma ApplyIdempotent(t: Theme, p: Page)
    ensures ApplyTheme(t, ApplyTheme(t, p)) == ApplyTheme(t, p)
  {
  }
}
