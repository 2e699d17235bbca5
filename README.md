# Nano Banana guide — a Dafny model of `NanoBananaGuide`

The Nano Banana guide is a single-page site. Its behaviour lives in one
class, `NanoBananaGuide` (`nano/app.js`). The class:

- switches between six page sections and their navigation items;
- switches the tabs of the tutorial;
- opens and closes the mobile menu;
- chooses and toggles a light or dark colour scheme;
- renders a catalog of prompts as cards that can be filtered by category
  and searched by text;
- assembles a prompt from a six-field generator form;
- keeps a list of favorite prompts in local storage.

This project models that class with the page reduced to plain data:

- Every group of elements whose `active` class the class switches becomes
  a sequence of `Flag(key, active)`. The groups are the sections, the
  desktop and mobile navigation items, the tab buttons and panels, and the
  filter tabs. `key` is the attribute the element is matched on, or None
  when the element does not carry it (`getAttribute` then gives null,
  which equals no string).
- The database container becomes a sequence of `Card` values. Each card
  holds its category, title, content, tags, favorite state and whether it
  is displayed.

The modules follow the structure of the class:

- `Text`: the JavaScript string operations the class relies on. These are
  `trim`, ASCII `toLowerCase`, `includes`, `indexOf`, `join` and the
  decimal rendering of an index.
- `Favorites`: the favorites list as values (`Added`, `Removed`,
  `Toggled`) and what adding, removing and toggling do to it.
- `Composer`: `generatePrompt`'s assembly of the prompt text.
- `Elements`: the element groups, `getElementById` within a group, and the
  two loops that set `active` flags.
- `Lookups`: category names, difficulty classes, keyboard shortcuts,
  feature-card and hero-button targets, and the colour-scheme rules.
- `Database`:
  - the catalog;
  - card construction in `populateDatabase`;
  - the filter and search loops, with the rules they apply.
- `Guide`: the class `NanoBananaGuide`.
  - Its fields are the application state, the element groups, the cards,
    the form, the last toast and the two local-storage entries.
  - Each method changes only the fields it names.
  - `Valid()` is kept by every method that touches the fields it reads. It
    states four things:
    - the stored favorites reload to the list in memory;
    - the menu, its overlay and the scroll lock follow the menu flag;
    - the database is populated only when the page has its container;
    - there is one card per catalog entry once the database is populated,
      and none before.

The generated prompt follows `nano/app.js:603-608`: the subject is never
labelled and the other five fields always are, even when one of them comes
first (`Composer.ExampleStyle`).

The user typing into the six generator inputs is a step of the environment,
not of the class: `Guide.NanoBananaGuide.EditForm` stands for it, so that
`GeneratePrompt` reads whatever the inputs hold.

## Model

| member | source | states |
|---|---|---|
| Text.Trim | nano/app.js:548 | `String.prototype.trim` over the ECMAScript white-space and line-terminator set; never longer than its input |
| Text.TrimInfix | nano/app.js:548 | the trimmed string is the input's middle: what remains after cutting off a white prefix and a white suffix |
| Text.TrimSpec | nano/app.js:548 | a string trims to empty exactly when it is all white space; otherwise the trimmed string has no white space at either end |
| Text.TrimUnpadded | nano/app.js:584-589 | a string with no white space at its ends is its own trim |
| Text.TrimIdempotent | nano/app.js:584-589 | trimming twice is trimming once |
| Text.LowerChar | nano/app.js:564-565 | ASCII `toLowerCase` of a character: upper-case letters map to the code point 32 higher (their lower-case letters), all else unchanged |
| Text.Lower | nano/app.js:564-565 | lower-casing keeps the length and maps each character independently |
| Text.LowerIdempotent | nano/app.js:564-565 | lower-casing twice is lower-casing once |
| Text.Contains | nano/app.js:565 | `includes` as a left-to-right scan: a match at the start, or one further on; `Text.ContainsIff` states what it finds |
| Text.ContainsIff | nano/app.js:565 | the `includes` scan succeeds exactly when the needle occurs at some offset |
| Text.IndexOf | nano/app.js:719 | `indexOf` is -1 exactly when the value is absent; otherwise it is the first position holding the value |
| Text.Join | nano/app.js:562 | `join` begins with the first part, followed by the separator when there is a second part; an empty result means every part was empty |
| Text.JoinSnoc | nano/app.js:610 | joining one more part appends the separator and then the part, so the parts appear in order with one separator between neighbours |
| Text.Digit | nano/app.js:479 | the digit character of 0..9 |
| Text.Decimal | nano/app.js:479 | decimal rendering in a template literal: at least one digit, only digits, a single digit exactly below 10 |
| Text.DecimalInjective | nano/app.js:479 | distinct numbers render differently |
| Favorites.Load | nano/app.js:726-734 | `loadFavorites`: the stored list, or the empty list when nothing is stored; `Guide.NanoBananaGuide.Valid` keeps it equal to the list in memory |
| Favorites.Added | nano/app.js:711-716 | the list after `addFavorite`; `Favorites.AddedSpec` states its properties |
| Favorites.Removed | nano/app.js:718-724 | the list after `removeFavorite`: the first occurrence spliced out; `Favorites.RemovedSpec` states its properties |
| Favorites.Toggled | nano/app.js:692-709 | the list after a favorite button is clicked: removed when present, added when absent; `Favorites.ToggledSpec` states its properties |
| Favorites.AddedSpec | nano/app.js:711-716 | `addFavorite` makes the prompt a member; it appends only an absent prompt and leaves a present one's list unchanged; a duplicate-free list stays duplicate-free |
| Favorites.RemovedSpec | nano/app.js:718-724 | `removeFavorite` deletes exactly the first occurrence and keeps the others in order, one shorter; an absent prompt changes nothing |
| Favorites.RemovedMultiset | nano/app.js:718-724 | removal takes away one copy of the prompt, if there is one, and nothing else |
| Favorites.RemovedMembers | nano/app.js:718-724 | on a duplicate-free list, removal keeps exactly the other members |
| Favorites.RemovedDistinct | nano/app.js:718-724 | on a duplicate-free list, removal leaves no copy behind and keeps the list duplicate-free |
| Favorites.ToggleTwiceAbsent | nano/app.js:692-724 | toggling a non-favorite appends it; toggling it again gives back the exact original list |
| Favorites.ToggleTwicePresent | nano/app.js:692-724 | toggling a favorite twice keeps the same members, length and distinctness, with the prompt moved to the end |
| Favorites.ToggledSpec | nano/app.js:692-709 | toggling flips the prompt's membership and keeps a duplicate-free list duplicate-free |
| Elements.Lookup | nano/app.js:312-316 | `getElementById` within a group: -1 exactly when the id is empty or no element carries it, otherwise the first element that does; the empty id is never found |
| Elements.OnlyActiveIsOne | nano/app.js:319-326 | after clearing all and activating the target, exactly one element is active |
| Elements.MarkMatching | nano/app.js:350-364 | each element is active exactly when it carries the attribute and it equals the key, so an element without the attribute is never active; attributes and order are kept |
| Elements.ActivateOnly | nano/app.js:319-326 | every element is cleared and only the target, if any, is active |
| Lookups.CategoryName | nano/app.js:838-846 | the display name of a known category id, the id itself otherwise |
| Lookups.CategoryNameFallback | nano/app.js:838-846 | the name equals the id exactly when the id is unknown |
| Lookups.DifficultyClass | nano/app.js:848-855 | always one of simple, medium, hard; medium and hard exactly for their two labels |
| Lookups.ShortcutSection | nano/app.js:294-303 | a shortcut fires exactly for Ctrl/Cmd with a key 1..6, and always names a section |
| Lookups.ShortcutsCoverSections | nano/app.js:294-303 | key k reaches section k and no other key reaches it |
| Lookups.FeatureCardSection | nano/app.js:103-113 | a feature card leads somewhere exactly at positions 0..2: 0 to features, 1 to database, 2 to generator |
| Lookups.ActionSection | nano/app.js:88-97 | only the start and examples actions lead to a section: start to features, examples to examples |
| Lookups.InitialTheme | nano/app.js:163-168 | a stored non-empty scheme wins; otherwise the system preference |
| Lookups.ToggledTheme | nano/app.js:412-414 | always dark or light and always different from the current value; light exactly when the current one is dark |
| Lookups.ToggleThemeTwice | nano/app.js:412-414 | toggling twice from dark or light returns to it |
| Lookups.ThemeAfterSystemChange | nano/app.js:171-175 | a system change is followed exactly while no scheme is stored |
| Lookups.ToggleOverridesSystem | nano/app.js:171-175 | after a toggle has stored a scheme, later system changes leave the scheme alone |
| Composer.Trimmed | nano/app.js:583-590 | the `inputs` object: every input trimmed; `Composer.TrimmedFields` pairs each trimmed field with its label |
| Composer.Collect | nano/app.js:601-608 | the six `push` lines: each non-empty field's part in field order; `Composer.CollectOrder`, `CollectCount` and `CollectSnoc` state its properties |
| Composer.CollectEmpty | nano/app.js:592-608 | no parts exactly when every trimmed input is empty |
| Composer.CollectNonEmpty | nano/app.js:601-608 | no part is empty |
| Composer.Compose | nano/app.js:582-610 | no prompt exactly when all six fields are blank; otherwise a non-empty prompt; `Composer.ComposeOrder` and `Composer.ComposeEditingLast` state the order and labels of its parts |
| Composer.CollectCount | nano/app.js:601-608 | one part per non-empty trimmed input |
| Composer.CollectFirst | nano/app.js:601-608 | the first part is the first non-empty trimmed input, with its own label |
| Composer.CollectOrder | nano/app.js:601-608 | every non-empty field gives its labelled part, at the position counted by the non-empty fields before it, so the parts keep the fields' order |
| Composer.CollectSnoc | nano/app.js:601-608 | one more field adds its part, if it has one, after all the others |
| Composer.ComposeFirstPart | nano/app.js:601-610 | the prompt begins with the first filled field and its label, the bare subject when the subject is filled |
| Composer.ComposeOrder | nano/app.js:601-610 | the prompt joins the parts with the full-width comma, and every filled input's part, labelled except for the subject, sits after the parts of the filled inputs before it |
| Composer.CollectEditingLast | nano/app.js:601-608 | the editing instruction's part, if any, comes after the parts of the other five fields |
| Composer.ComposeEditingLast | nano/app.js:601-610 | a filled editing instruction is appended last: the other inputs' prompt, the full-width comma, then the labelled instruction |
| Composer.ComposeIgnoresPadding | nano/app.js:583-590 | trimming the inputs beforehand never changes the prompt |
| Composer.CollectSkipsBlanks | nano/app.js:601-608 | empty trimmed inputs contribute no part |
| Composer.CollectSingle | nano/app.js:601-608 | a single non-empty trimmed input gives exactly its own labelled part |
| Composer.ComposeSingle | nano/app.js:601-610 | one filled field gives its own part alone, with no separator: the bare subject, or the field behind its label |
| Composer.CollectSubjectAndStyle | nano/app.js:601-608 | a trimmed subject and style alone give the bare subject, then the labelled style |
| Composer.ComposeSubjectAndStyle | nano/app.js:601-610 | ... joined by the full-width comma |
| Composer.JoinPair | nano/app.js:610 | two parts are joined by exactly one separator |
| Composer.ExampleSubject | nano/app.js:601-610 | "a cat" alone gives "a cat" |
| Composer.ExampleSubjectAndStyle | nano/app.js:601-610 | "a cat" with style "watercolor" gives "a cat，風格：watercolor" |
| Composer.ExampleStyle | nano/app.js:607-610 | a style alone keeps its label, although it is the first part |
| Database.DashPosition | nano/app.js:477-479 | the dash of a card id sits right after the category index |
| Database.CardIdInjective | nano/app.js:477-479 | distinct catalog positions give distinct `data-id`s |
| Database.MakeCard | nano/app.js:488-515 | `createPromptCard`: a displayed card with the entry's text, tags and difficulty, its favorite button active exactly when the content is a favorite |
| Database.CategoryCards | nano/app.js:478-481 | one card per entry of a category |
| Database.CatalogCards | nano/app.js:474-482 | the cards of the whole catalog, category by category and entry by entry; `Database.CatalogCardsSpec` states its properties |
| Database.CatalogCardsLength | nano/app.js:474-482 | one card per catalog entry |
| Database.CatalogCardsSpec | nano/app.js:474-494 | entry pi of category ci becomes the card after all earlier categories' cards; the card has id "ci-pi", that category's id, the entry's title, content, difficulty and tags, a favorite button active exactly when the content is already a favorite, and is displayed |
| Database.BuildCards | nano/app.js:477-482 | the nested loops build exactly the catalog's cards in category-then-entry order |
| Database.CountVisible | nano/app.js:517-535 | the number of displayed cards that the filter and search loops count; `Database.CountVisibleSpec` states its properties |
| Database.CountVisibleSpec | nano/app.js:517-535 | the count is zero exactly when no card is displayed and equals the number of cards exactly when all are |
| Database.FilterShows | nano/app.js:524 | a card passes the filter when the filter is `all` or equals its category |
| Database.SearchText | nano/app.js:558-564 | the text a search looks in: title, content, category display name and tags, joined by spaces |
| Database.SearchShows | nano/app.js:564-565 | a card matches a query when its lower-cased search text contains the lower-cased query; `Database.SearchShowsIff` states what that means |
| Database.ApplyFilter | nano/app.js:519-532 | every card is displayed exactly when the filter is `all` or equals its category; the count is the number displayed; nothing else about a card changes |
| Database.ApplySearch | nano/app.js:552-577 | every card is displayed exactly when its lower-cased title, content, category name and tags contain the lower-cased query; the count is the number displayed |
| Database.FilterIdempotent | nano/app.js:517-535 | applying the same filter twice is applying it once |
| Database.FilterAllShowsAll | nano/app.js:522 | the `all` filter displays every card |
| Database.SearchIgnoresDisplay | nano/app.js:558-565 | the search result does not depend on which cards were displayed before, so it ignores the current filter |
| Database.SearchCaseInsensitive | nano/app.js:564-565 | queries equal after lower-casing display the same cards |
| Database.SearchShowsIff | nano/app.js:564-565 | a card is shown exactly when the lower-cased query occurs in its lower-cased search text |
| Guide.NanoBananaGuide.constructor | nano/app.js:3-9 | home section, consistency tab, all filter, closed menu, favorites loaded from storage, database not populated; the invariant holds |
| Guide.NanoBananaGuide.Init | nano/app.js:20-28 | scheme chosen, database populated when there is a container, success toast shown |
| Guide.NanoBananaGuide.ShowToast | nano/app.js:783-819 | the last toast has the given message and severity and is on screen |
| Guide.NanoBananaGuide.HideToast | nano/app.js:821-829 | the toast is off screen |
| Guide.NanoBananaGuide.SetupTheme | nano/app.js:163-169 | the scheme is the initial-theme choice |
| Guide.NanoBananaGuide.SystemThemeChanged | nano/app.js:171-175 | the scheme follows the system only while none is stored |
| Guide.NanoBananaGuide.ToggleTheme | nano/app.js:412-418 | the scheme flips, is stored, and the info toast names it |
| Guide.NanoBananaGuide.NavigateToSection | nano/app.js:307-346 | unknown id: only the error toast, nothing else changes; known id: exactly that section active, current section set, navigation marked, first visit to the database populates it |
| Guide.NanoBananaGuide.ShowSection | nano/app.js:319-330 | a found section: every section cleared, exactly that one active and current, navigation marked |
| Guide.NanoBananaGuide.UpdateNavigationState | nano/app.js:348-366 | each desktop and mobile navigation item is active exactly when it names the section |
| Guide.NanoBananaGuide.SwitchTab | nano/app.js:428-458 | buttons marked by the tab id; panels cleared, then only a found panel active; current tab changes only when found; an unknown tab leaves no panel active |
| Guide.NanoBananaGuide.ToggleMobileMenu | nano/app.js:368-392 | the menu flag flips and the menu, overlay and scroll lock follow it |
| Guide.NanoBananaGuide.CloseMobileMenu | nano/app.js:394-410 | the menu is closed whatever its state before, so closing is idempotent |
| Guide.NanoBananaGuide.PopulateDatabase | nano/app.js:460-486 | no container or already populated: nothing changes; otherwise exactly the catalog's cards and populated |
| Guide.NanoBananaGuide.FilterDatabase | nano/app.js:517-535 | the filter is remembered and the cards are displayed by it; the count is the number displayed |
| Guide.NanoBananaGuide.UpdateFilterTabs | nano/app.js:537-545 | each filter tab is active exactly when it names the filter |
| Guide.NanoBananaGuide.OnFilterClick | nano/app.js:208-216 | a filter-tab click filters the cards and marks the tab |
| Guide.NanoBananaGuide.PerformSearch | nano/app.js:547-580 | a blank query re-applies the current filter and shows no toast; any other query displays cards by the search rule whatever the filter, with the info toast exactly when none is displayed |
| Guide.NanoBananaGuide.GeneratePrompt | nano/app.js:582-627 | all inputs blank: the warning toast and the previous result untouched; otherwise the composed prompt becomes the result, the actions are shown and the success toast follows |
| Guide.NanoBananaGuide.ClearGeneratorForm | nano/app.js:629-654 | inputs emptied, result removed, actions hidden, info toast |
| Guide.NanoBananaGuide.AddFavorite | nano/app.js:711-716 | the list becomes `Added`; storage is written only when the prompt was absent; distinctness is kept |
| Guide.NanoBananaGuide.RemoveFavorite | nano/app.js:718-724 | the list becomes `Removed`; storage is written only when the prompt was present; distinctness is kept and the prompt is gone |
| Guide.NanoBananaGuide.FavoriteGeneratedPrompt | nano/app.js:667-690 | no generated prompt: warning only; otherwise the prompt is toggled in the favorites with the matching toast |
| Guide.NanoBananaGuide.ToggleFavorite | nano/app.js:692-709 | an empty prompt does nothing; otherwise the card's prompt is toggled, that card's button follows, and the matching toast is shown |
| Guide.NanoBananaGuide.OnMobileNavClick | nano/app.js:78-86 | the full outcome of navigating to the item's section (`NavigatedTo`), then the menu, overlay and scroll lock are closed |
| Guide.NanoBananaGuide.OnActionClick | nano/app.js:88-98 | start navigates to features and examples to examples, each with the full navigation outcome; any other action leaves every field navigation may change as it was |
| Guide.NanoBananaGuide.OnFeatureCardClick | nano/app.js:100-113 | positions 0, 1 and 2 navigate to features, database and generator with the full navigation outcome; any other position leaves every field navigation may change as it was |
| Guide.NanoBananaGuide.OnKeyDown | nano/app.js:274-304 | Escape closes the menu and hides the toast and changes nothing else navigation may change; Ctrl/Cmd with 1..6 navigates to that section with the full navigation outcome; any other key changes nothing |

## Left out

- The DOM itself: element creation, `innerHTML` templating and `escapeHtml`. Cards and element groups are plain values, and a card's title is its text.
- `getElementById` is modelled within the group being switched (sections for navigation, panels for tabs). An id that belongs to an element of another kind is not modelled.
- `localStorage` and JSON. A stored entry is an optional value. A missing or unparsable favorites entry loads as the empty list, and a JSON payload that is not an array is not modelled.
- Timers. The search debounce, the 100 ms deferred population on the first visit to the database, the toast show and hide animation delays, the overlay hide delay and the delayed `init` all happen at once in the model.
- The toast's 3-second auto-dismiss (nano/app.js:814-816). `ShowToast` leaves the toast on screen until `HideToast` or Escape removes it.
- Clipboard copying (`copyToClipboard`, `fallbackCopyToClipboard`, `copyGeneratedPrompt`). These are browser capabilities with asynchronous results.
- The `matchMedia` query and listener registration, `scrollTo`, the Ctrl/Cmd+K focus shortcut, console logging and the init error banner.
- The `try`/`catch` error paths of `init`, `navigateToSection` and `switchTab`. Nothing in the model can throw.
- Failed saves. A `localStorage.setItem` that throws is not modelled, whether it is caught and logged in `saveFavorites` (nano/app.js:737-741) or left uncaught in `toggleTheme` (nano/app.js:416). Every save succeeds in the model. This is what keeps `Valid`'s stored favorites equal to the list in memory, and what lets `AddFavorite`, `RemoveFavorite` and `ToggleTheme` promise the stored value.
- Elements that may be missing. The generator inputs, the result display, the toast and the mobile menu are taken to exist.
- Toast presentation. Only the last message and severity, and whether the toast is on screen, are kept. Icons and classes are left out.
- The theme icon and the text of the generated-result favorite button.
- The contents of the prompt dataset. The catalog is an arbitrary constant.
- Text.Lower: ASCII letters only. Full Unicode `toLowerCase` is not modelled.
- Favorites.ToggledSpec: the membership flip is stated for duplicate-free lists only. A list loaded from storage may hold duplicates, and removing one copy then leaves another.
- Guide.NanoBananaGuide.FavoriteGeneratedPrompt: the membership flip is stated only when the list was duplicate-free before, for the same reason.
- Guide.NanoBananaGuide.ToggleFavorite: only the clicked card's button changes. Other cards showing the same prompt keep their state, as in the code.
- JavaScript property lookups that reach `Object.prototype` (such as `getCategoryName('constructor')`) are not modelled. The tables behave as plain maps.
