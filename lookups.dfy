/** The guide's small tables: category display names, difficulty badge
    classes, the section reached by each keyboard shortcut, feature card and
    hero button, and the colour-scheme rules. */
module Lookups {
  import opened Wrappers

  /** Display names of the prompt categories, by category id. */
  const CategoryNames: map<string, string> := map[
    "basic" := "基礎編輯",
    "advanced" := "進階合成",
    "creative" := "創意應用",
    "professional" := "專業用途"
  ]

  /** Badge classes, by the difficulty label shown on a card. */
  const DifficultyClasses: map<string, string> := map[
    "簡單" := "simple",
    "中等" := "medium",
    "困難" := "hard"
  ]

  /** The six sections, in navigation order. */
  const Sections: seq<string> := ["home", "features", "examples", "database", "generator", "tutorial"]

  /** The keys that, held with Ctrl or Cmd, jump to a section. */
  const NumberKeys: seq<string> := ["1", "2", "3", "4", "5", "6"]

  /** The sections the three feature cards lead to, by card position. */
  const FeatureCardSections: seq<string> := ["features", "database", "generator"]

  const Dark := "dark"
  const Light := "light"

  /** `getCategoryName`: the display name, or the id itself when it has none. */
  function CategoryName(id: string): (r: string)
    ensures id in CategoryNames ==> r == CategoryNames[id]
    ensures id !in CategoryNames ==> r == id
  {
    if id in CategoryNames then CategoryNames[id] else id
  }

  /** No category id is its own display name, so the fallback is exactly the
      case of an unknown id. */
  lemma CategoryNameFallback(id: string)
    ensures CategoryName(id) == id <==> id !in CategoryNames
  {
    if id in CategoryNames {
      assert id == "basic" || id == "advanced" || id == "creative" || id == "professional";
    }
  }

  /** `getDifficultyClass`: one of the three badge classes, `simple` for
      any label other than medium or hard. */
  function DifficultyClass(difficulty: string): (r: string)
    ensures r == "simple" || r == "medium" || r == "hard"
    ensures r == "medium" <==> difficulty == "中等"
    ensures r == "hard" <==> difficulty == "困難"
  {
    if difficulty in DifficultyClasses then DifficultyClasses[difficulty] else "simple"
  }

  /** The section a key press jumps to: only Ctrl/Cmd with one of the keys
      1 to 6, which name the sections in navigation order. */
  function ShortcutSection(key: string, ctrlOrMeta: bool): (r: Option<string>)
    ensures r.Some? <==> ctrlOrMeta && key in NumberKeys
    ensures r.Some? ==> r.value in Sections
  {
    if ctrlOrMeta && key in NumberKeys then
      var index := key[0] as int - '1' as int;
      Some(Sections[index])
    else None
  }

  /** Ctrl/Cmd with the k-th number key reaches the k-th section, so every
      section has exactly one shortcut. */
  lemma ShortcutsCoverSections(k: int)
    requires 0 <= k < 6
    ensures ShortcutSection(NumberKeys[k], true) == Some(Sections[k])
    ensures forall j :: 0 <= j < 6 && j != k ==> ShortcutSection(NumberKeys[j], true) != Some(Sections[k])
  {
  }

  /** The section a feature card leads to, by its position among its
      siblings; positions other than the first three lead nowhere. */
  function FeatureCardSection(index: int): (r: Option<string>)
    ensures r.Some? <==> 0 <= index < 3
    ensures r.Some? ==> r.value in Sections && r.value != "home"
    ensures index == 0 ==> r == Some("features")
    ensures index == 1 ==> r == Some("database")
    ensures index == 2 ==> r == Some("generator")
  {
    if 0 <= index < |FeatureCardSections| then Some(FeatureCardSections[index]) else None
  }

  /** The section a hero button's `data-action` leads to. */
  function ActionSection(action: string): (r: Option<string>)
    ensures r.Some? <==> action == "start" || action == "examples"
    ensures r.Some? ==> r.value in Sections
    ensures action == "start" ==> r == Some("features")
    ensures action == "examples" ==> r == Some("examples")
  {
    if action == "start" then Some("features")
    else if action == "examples" then Some("examples")
    else None
  }

  /** The colour scheme the operating system asks for. */
  function SystemTheme(prefersDark: bool): string {
    if prefersDark then Dark else Light
  }

  /** A stored `theme` value counts as an explicit choice only when it is a
      non-empty string (JavaScript treats the empty string as false). */
  predicate HasExplicitTheme(saved: Option<string>) {
    saved.Some? && saved.value != ""
  }

  /** The scheme chosen at start-up: the stored choice when there is one,
      the system preference otherwise. */
  function InitialTheme(saved: Option<string>, prefersDark: bool): (r: string)
    ensures HasExplicitTheme(saved) ==> r == saved.value
    ensures !HasExplicitTheme(saved) ==> r == SystemTheme(prefersDark)
  {
    if HasExplicitTheme(saved) then saved.value else SystemTheme(prefersDark)
  }

  /** `toggleTheme`'s new scheme: `dark` goes to `light`, anything else to
      `dark`; the result always differs from the current value. */
  function ToggledTheme(current: string): (r: string)
    ensures r == Dark || r == Light
    ensures r != current
    ensures r == Light <==> current == Dark
  {
    if current == Dark then Light else Dark
  }

  /** Toggling twice gives back either of the two schemes. */
  lemma ToggleThemeTwice(current: string)
    requires current == Dark || current == Light
    ensures ToggledTheme(ToggledTheme(current)) == current
  {
  }

  /** The scheme after the system preference changes: followed only while
      no explicit choice is stored. */
  function ThemeAfterSystemChange(saved: Option<string>, current: string, matchesDark: bool): (r: string)
    ensures HasExplicitTheme(saved) ==> r == current
    ensures !HasExplicitTheme(saved) ==> r == SystemTheme(matchesDark)
  {
    if HasExplicitTheme(saved) then current else SystemTheme(matchesDark)
  }

  /** Once the user has toggled the scheme, system changes are ignored. */
  lemma ToggleOverridesSystem(current: string, other: string, matchesDark: bool)
    ensures HasExplicitTheme(Some(ToggledTheme(current)))
    ensures ThemeAfterSystemChange(Some(ToggledTheme(current)), other, matchesDark) == other
  {
  }
}
