/** The application object `NanoBananaGuide` with the page reduced to
    plain data: the element groups whose `active` class it switches, the
    rendered prompt cards, the six generator inputs and the generated
    prompt, the mobile-menu classes, the colour scheme, the last toast, and
    the two values it keeps in local storage. */
module Guide {
  import opened Wrappers
  import opened Text
  import opened Elements
  import opened Lookups
  import opened Favorites
  import opened Composer
  import opened Database

  /** The `type` argument of `showToast`. */
  datatype Severity = Success | Error | Warning | Info

  /** The message and severity of a toast. */
  datatype Toast = Toast(message: string, severity: Severity)

  const LoadedMessage := "應用載入完成"
  const SectionNotFoundMessage := "頁面載入失敗"
  const FillOneFieldMessage := "請至少填寫一個欄位"
  const GeneratedMessage := "提示詞生成完成"
  const ClearedMessage := "表單已清空"
  const NothingToFavoriteMessage := "沒有內容可收藏"
  const FavoriteRemovedMessage := "已從收藏中移除"
  const FavoriteAddedMessage := "已加入收藏"

  /** The toast `toggleTheme` shows for the scheme it switched to. */
  function ThemeMessage(theme: string): string {
    "已切換至" + (if theme == Dark then "深色" else "淺色") + "主題"
  }

  /** The toast a search with no visible card shows, quoting the query as
      typed. */
  function NoResultsMessage(query: string): string {
    "沒有找到「" + query + "」相關的結果"
  }

  /** The element groups of the page as it is loaded. */
  datatype Page = Page(
    sections: seq<Flag>,
    navItems: seq<Flag>,
    mobileNavItems: seq<Flag>,
    tabButtons: seq<Flag>,
    tabPanels: seq<Flag>,
    filterTabs: seq<Flag>)

  class NanoBananaGuide {
    var currentSection: string
    var currentTab: string
    var currentFilter: string
    var mobileMenuOpen: bool
    var favorites: seq<string>
    var databasePopulated: bool

    /** The prompt catalog and whether the page has the database container. */
    const catalog: seq<Category>
    const hasDatabaseContainer: bool

    /** The cards in the database container, in document order. */
    var cards: seq<Card>

    var sections: seq<Flag>
    var navItems: seq<Flag>
    var mobileNavItems: seq<Flag>
    var tabButtons: seq<Flag>
    var tabPanels: seq<Flag>
    var filterTabs: seq<Flag>

    /** The `active` class of the mobile menu and of its overlay, and
        whether page scrolling is switched off. */
    var menuActive: bool
    var overlayActive: bool
    var scrollLocked: bool

    /** The `data-color-scheme` attribute of the document; empty while unset. */
    var theme: string

    /** The six generator inputs, the generated prompt (the `data-prompt`
        attribute of the result) and whether the result actions are shown. */
    var form: GeneratorForm
    var generatedPrompt: Option<string>
    var resultActionsShown: bool

    /** The last toast shown, and whether it is on screen. */
    var lastToast: Option<Toast>
    var toastVisible: bool

    /** The local-storage entries `theme` and `nanoBanana_favorites`. */
    var storedTheme: Option<string>
    var storedFavorites: Option<seq<string>>

    /** The favorites reload to the list in memory; the menu, its overlay
        and the scroll lock agree with the menu flag; cards exist only once
        the database is populated, one per catalog entry. */
    ghost predicate Valid()
      reads this`favorites, this`storedFavorites, this`mobileMenuOpen,
            this`menuActive, this`overlayActive, this`scrollLocked,
            this`databasePopulated, this`cards
    {
      && Load(storedFavorites) == favorites
      && menuActive == mobileMenuOpen && overlayActive == mobileMenuOpen && scrollLocked == mobileMenuOpen
      && (databasePopulated ==> hasDatabaseContainer)
      && |cards| == (if databasePopulated then PromptCount(catalog) else 0)
    }

    /** The constructor's defaults: the home section, the `consistency`
        tab, the `all` filter, a closed menu, the stored favorites, an
        unpopulated database. */
    constructor (catalog: seq<Category>, hasDatabaseContainer: bool, page: Page,
                 storedTheme: Option<string>, storedFavorites: Option<seq<string>>)
      ensures Valid()
      ensures currentSection == "home" && currentTab == "consistency" && currentFilter == "all"
      ensures !mobileMenuOpen && !databasePopulated && cards == []
      ensures favorites == Load(storedFavorites)
      ensures this.catalog == catalog && this.hasDatabaseContainer == hasDatabaseContainer
      ensures sections == page.sections && navItems == page.navItems && mobileNavItems == page.mobileNavItems
      ensures tabButtons == page.tabButtons && tabPanels == page.tabPanels && filterTabs == page.filterTabs
      ensures this.storedTheme == storedTheme && this.storedFavorites == storedFavorites
      ensures theme == "" && form == Empty && generatedPrompt == None && !resultActionsShown
      ensures lastToast == None && !toastVisible
    {
      this.catalog := catalog;
      this.hasDatabaseContainer := hasDatabaseContainer;
      currentSection := "home";
      currentTab := "consistency";
      currentFilter := "all";
      mobileMenuOpen := false;
      favorites := Load(storedFavorites);
      databasePopulated := false;
      cards := [];
      sections := page.sections;
      navItems := page.navItems;
      mobileNavItems := page.mobileNavItems;
      tabButtons := page.tabButtons;
      tabPanels := page.tabPanels;
      filterTabs := page.filterTabs;
      menuActive := false;
      overlayActive := false;
      scrollLocked := false;
      theme := "";
      form := Empty;
      generatedPrompt := None;
      resultActionsShown := false;
      lastToast := None;
      toastVisible := false;
      this.storedTheme := storedTheme;
      this.storedFavorites := storedFavorites;
    }

    /** `init`: choose the colour scheme, populate the database, announce
        that the application is loaded. */
    method Init(prefersDark: bool)
      requires Valid()
      modifies this`theme, this`cards, this`databasePopulated, this`lastToast, this`toastVisible
      ensures Valid()
      ensures theme == InitialTheme(storedTheme, prefersDark)
      ensures databasePopulated == (old(databasePopulated) || hasDatabaseContainer)
      ensures !old(databasePopulated) && hasDatabaseContainer ==> cards == CatalogCards(catalog, favorites)
      ensures old(databasePopulated) ==> cards == old(cards)
      ensures lastToast == Some(Toast(LoadedMessage, Success)) && toastVisible
    {
      SetupTheme(prefersDark);
      PopulateDatabase();
      ShowToast(LoadedMessage, Success);
    }

    /** `showToast`: the message and severity, now on screen. */
    method ShowToast(message: string, severity: Severity)
      modifies this`lastToast, this`toastVisible
      ensures lastToast == Some(Toast(message, severity)) && toastVisible
    {
      lastToast := Some(Toast(message, severity));
      toastVisible := true;
    }

    /** `hideToast`. */
    method HideToast()
      modifies this`toastVisible
      ensures !toastVisible
    {
      toastVisible := false;
    }

    /** `setupTheme`: the stored scheme when there is one, else the
        system's. */
    method SetupTheme(prefersDark: bool)
      modifies this`theme
      ensures theme == InitialTheme(storedTheme, prefersDark)
      ensures HasExplicitTheme(storedTheme) ==> theme == storedTheme.value
    {
      theme := InitialTheme(storedTheme, prefersDark);
    }

    /** The `change` listener on the system preference: followed only while
        no scheme is stored. */
    method SystemThemeChanged(matchesDark: bool)
      modifies this`theme
      ensures theme == ThemeAfterSystemChange(storedTheme, old(theme), matchesDark)
      ensures HasExplicitTheme(storedTheme) ==> theme == old(theme)
    {
      if !HasExplicitTheme(storedTheme) {
        theme := SystemTheme(matchesDark);
      }
    }

    /** `toggleTheme`: switch the scheme, store it, and say which one it is. */
    method ToggleTheme()
      modifies this`theme, this`storedTheme, this`lastToast, this`toastVisible
      ensures theme == ToggledTheme(old(theme)) && theme != old(theme)
      ensures storedTheme == Some(theme) && HasExplicitTheme(storedTheme)
      ensures lastToast == Some(Toast(ThemeMessage(theme), Info)) && toastVisible
    {
      var newTheme := if theme == Dark then Light else Dark;
      theme := newTheme;
      storedTheme := Some(newTheme);
      ShowToast(ThemeMessage(newTheme), Info);
    }

    /** What `navigateToSection(id)` does: an id no section carries only
        raises the error toast; otherwise exactly that section becomes
        active and current, the desktop and mobile navigation follow, the
        toast is left alone, and a first visit to the database populates
        it. */
    twostate predicate NavigatedTo(id: string)
      reads this`sections, this`currentSection, this`navItems, this`mobileNavItems,
            this`cards, this`databasePopulated, this`lastToast, this`toastVisible, this`favorites
    {
      if Lookup(old(sections), id) == -1 then
        && sections == old(sections) && currentSection == old(currentSection)
        && navItems == old(navItems) && mobileNavItems == old(mobileNavItems)
        && cards == old(cards) && databasePopulated == old(databasePopulated)
        && lastToast == Some(Toast(SectionNotFoundMessage, Error)) && toastVisible
      else
        && OnlyActive(sections, old(sections), Lookup(old(sections), id))
        && ActiveSet(sections) == {Lookup(old(sections), id)}
        && sections[Lookup(old(sections), id)].key == Some(id)
        && currentSection == id
        && MarkedFor(navItems, old(navItems), id) && MarkedFor(mobileNavItems, old(mobileNavItems), id)
        && lastToast == old(lastToast) && toastVisible == old(toastVisible)
        && (if id == "database" && !old(databasePopulated) && hasDatabaseContainer
            then databasePopulated && cards == CatalogCards(catalog, favorites)
            else databasePopulated == old(databasePopulated) && cards == old(cards))
    }

    /** Nothing that navigation may change has changed. */
    twostate predicate NotNavigated()
      reads this`sections, this`currentSection, this`navItems, this`mobileNavItems,
            this`cards, this`databasePopulated, this`lastToast, this`toastVisible
    {
      && sections == old(sections) && currentSection == old(currentSection)
      && navItems == old(navItems) && mobileNavItems == old(mobileNavItems)
      && cards == old(cards) && databasePopulated == old(databasePopulated)
      && lastToast == old(lastToast) && toastVisible == old(toastVisible)
    }

    /** `navigateToSection`. */
    method NavigateToSection(id: string)
      requires Valid()
      modifies this`sections, this`currentSection, this`navItems, this`mobileNavItems,
               this`cards, this`databasePopulated, this`lastToast, this`toastVisible
      ensures Valid()
      ensures NavigatedTo(id)
    {
      var target := Lookup(sections, id);
      if target == -1 {
        ShowToast(SectionNotFoundMessage, Error);
        return;
      }
      ShowSection(id, target);
      if id == "database" && !databasePopulated {
        PopulateDatabase();
      }
    }

    /** The part of `navigateToSection` after the target is found: every
        section cleared, the target activated and made current, and the
        navigation updated. */
    method ShowSection(id: string, target: int)
      requires 0 <= target < |sections| && sections[target].key == Some(id)
      modifies this`sections, this`currentSection, this`navItems, this`mobileNavItems
      ensures OnlyActive(sections, old(sections), target)
      ensures ActiveSet(sections) == {target}
      ensures sections[target].key == Some(id)
      ensures currentSection == id
      ensures MarkedFor(navItems, old(navItems), id) && MarkedFor(mobileNavItems, old(mobileNavItems), id)
    {
      var before := sections;
      sections := ActivateOnly(sections, target);
      OnlyActiveIsOne(sections, before, target);
      currentSection := id;
      UpdateNavigationState(id);
    }

    /** `updateNavigationState`: each desktop and mobile navigation item is
        active exactly when its `data-section` is the given section. */
    method UpdateNavigationState(activeSection: string)
      modifies this`navItems, this`mobileNavItems
      ensures MarkedFor(navItems, old(navItems), activeSection)
      ensures MarkedFor(mobileNavItems, old(mobileNavItems), activeSection)
    {
      navItems := MarkMatching(navItems, activeSection);
      mobileNavItems := MarkMatching(mobileNavItems, activeSection);
    }

    /** `switchTab`: the buttons follow the tab id, every panel is cleared
        before the target is looked up, and only a found panel becomes
        active and current. */
    method SwitchTab(tabId: string)
      modifies this`tabButtons, this`tabPanels, this`currentTab
      ensures MarkedFor(tabButtons, old(tabButtons), tabId)
      ensures OnlyActive(tabPanels, old(tabPanels), Lookup(old(tabPanels), tabId))
      ensures currentTab == if Lookup(old(tabPanels), tabId) == -1 then old(currentTab) else tabId
      ensures Lookup(old(tabPanels), tabId) == -1 ==> ActiveSet(tabPanels) == {}
    {
      tabButtons := MarkMatching(tabButtons, tabId);
      var target := Lookup(tabPanels, tabId);
      tabPanels := ActivateOnly(tabPanels, target);
      if target != -1 {
        currentTab := tabId;
      }
    }

    /** `toggleMobileMenu`: the flag flips; the menu, the overlay and the
        scroll lock follow it. */
    method ToggleMobileMenu()
      requires Valid()
      modifies this`mobileMenuOpen, this`menuActive, this`overlayActive, this`scrollLocked
      ensures Valid()
      ensures mobileMenuOpen == !old(mobileMenuOpen)
    {
      mobileMenuOpen := !mobileMenuOpen;
      if mobileMenuOpen {
        menuActive := true;
        overlayActive := true;
        scrollLocked := true;
      } else {
        menuActive := false;
        overlayActive := false;
        scrollLocked := false;
      }
    }

    /** `closeMobileMenu`: closed afterwards, whatever the state before, so
        closing twice is closing once. */
    method CloseMobileMenu()
      requires Valid()
      modifies this`mobileMenuOpen, this`menuActive, this`overlayActive, this`scrollLocked
      ensures Valid()
      ensures !mobileMenuOpen && !menuActive && !overlayActive && !scrollLocked
    {
      mobileMenuOpen := false;
      menuActive := false;
      overlayActive := false;
      scrollLocked := false;
    }

    /** `populateDatabase`: without a container or once populated nothing
        happens; otherwise one card per catalog entry, in category then
        entry order, and the database counts as populated. */
    method PopulateDatabase()
      requires Valid()
      modifies this`cards, this`databasePopulated
      ensures Valid()
      ensures databasePopulated == (old(databasePopulated) || hasDatabaseContainer)
      ensures !old(databasePopulated) && hasDatabaseContainer ==> cards == CatalogCards(catalog, favorites)
      ensures old(databasePopulated) || !hasDatabaseContainer ==> cards == old(cards)
    {
      if !hasDatabaseContainer {
        return;
      }
      if databasePopulated {
        return;
      }
      cards := BuildCards(catalog, favorites);
      CatalogCardsLength(catalog, favorites);
      databasePopulated := true;
    }

    /** `filterDatabase`: remembers the filter and displays exactly the
        cards it admits; the count is the number displayed. */
    method FilterDatabase(filter: string) returns (visibleCount: nat)
      requires Valid()
      modifies this`currentFilter, this`cards
      ensures Valid()
      ensures currentFilter == filter
      ensures FilteredBy(cards, old(cards), filter)
      ensures visibleCount == CountVisible(cards)
    {
      currentFilter := filter;
      cards, visibleCount := ApplyFilter(cards, filter);
    }

    /** `updateFilterTabs`: each filter tab is active exactly when its
        `data-filter` is the chosen filter. */
    method UpdateFilterTabs(activeFilter: string)
      modifies this`filterTabs
      ensures MarkedFor(filterTabs, old(filterTabs), activeFilter)
    {
      filterTabs := MarkMatching(filterTabs, activeFilter);
    }

    /** A click on a filter tab: filter, then mark the tab. */
    method OnFilterClick(filter: string)
      requires Valid()
      modifies this`currentFilter, this`cards, this`filterTabs
      ensures Valid()
      ensures currentFilter == filter
      ensures FilteredBy(cards, old(cards), filter)
      ensures MarkedFor(filterTabs, old(filterTabs), filter)
    {
      var _ := FilterDatabase(filter);
      UpdateFilterTabs(filter);
    }

    /** `performSearch`: a blank query re-applies the current filter;
        any other query displays exactly the cards whose text contains it,
        whatever the filter, and an info toast follows when none is shown. */
    method PerformSearch(query: string) returns (visibleCount: nat)
      requires Valid()
      modifies this`currentFilter, this`cards, this`lastToast, this`toastVisible
      ensures Valid()
      ensures currentFilter == old(currentFilter)
      ensures visibleCount == CountVisible(cards)
      ensures Trim(query) == "" ==>
        && FilteredBy(cards, old(cards), old(currentFilter))
        && lastToast == old(lastToast) && toastVisible == old(toastVisible)
      ensures Trim(query) != "" ==> SearchedBy(cards, old(cards), query)
      ensures Trim(query) != "" && visibleCount == 0 ==>
        lastToast == Some(Toast(NoResultsMessage(query), Info)) && toastVisible
      ensures visibleCount != 0 ==> lastToast == old(lastToast) && toastVisible == old(toastVisible)
    {
      if Trim(query) == "" {
        visibleCount := FilterDatabase(currentFilter);
        return;
      }
      cards, visibleCount := ApplySearch(cards, query);
      if visibleCount == 0 {
        ShowToast(NoResultsMessage(query), Info);
      }
    }

    /** The user typing into the six generator inputs. */
    method EditForm(f: GeneratorForm)
      modifies this`form
      ensures form == f
    {
      form := f;
    }

    /** `generatePrompt`: with every input blank only the warning toast
        appears and the previous result stays; otherwise the composed prompt
        becomes the result and its actions are shown. */
    method GeneratePrompt()
      modifies this`generatedPrompt, this`resultActionsShown, this`lastToast, this`toastVisible
      ensures AllBlank(form) ==>
        && generatedPrompt == old(generatedPrompt) && resultActionsShown == old(resultActionsShown)
        && lastToast == Some(Toast(FillOneFieldMessage, Warning))
      ensures !AllBlank(form) ==>
        && generatedPrompt == Compose(form) && generatedPrompt.value != ""
        && resultActionsShown
        && lastToast == Some(Toast(GeneratedMessage, Success))
      ensures toastVisible
    {
      var prompt := Compose(form);
      if prompt.None? {
        ShowToast(FillOneFieldMessage, Warning);
        return;
      }
      generatedPrompt := prompt;
      resultActionsShown := true;
      ShowToast(GeneratedMessage, Success);
    }

    /** `clearGeneratorForm`: empty inputs, no result, actions hidden. */
    method ClearGeneratorForm()
      modifies this`form, this`generatedPrompt, this`resultActionsShown, this`lastToast, this`toastVisible
      ensures form == Empty && generatedPrompt == None && !resultActionsShown
      ensures lastToast == Some(Toast(ClearedMessage, Info)) && toastVisible
    {
      form := Empty;
      generatedPrompt := None;
      resultActionsShown := false;
      ShowToast(ClearedMessage, Info);
    }

    /** `addFavorite`: appends and saves only a prompt not yet present. */
    method AddFavorite(prompt: string)
      requires Valid()
      modifies this`favorites, this`storedFavorites
      ensures Valid()
      ensures favorites == Added(old(favorites), prompt)
      ensures prompt in old(favorites) ==> storedFavorites == old(storedFavorites)
      ensures prompt !in old(favorites) ==> storedFavorites == Some(old(favorites) + [prompt])
      ensures Distinct(old(favorites)) ==> Distinct(favorites)
    {
      AddedSpec(favorites, prompt);
      if prompt !in favorites {
        favorites := favorites + [prompt];
        storedFavorites := Some(favorites);
      }
    }

    /** `removeFavorite`: splices out the first occurrence and saves; an
        absent prompt changes and saves nothing. */
    method RemoveFavorite(prompt: string)
      requires Valid()
      modifies this`favorites, this`storedFavorites
      ensures Valid()
      ensures favorites == Removed(old(favorites), prompt)
      ensures prompt !in old(favorites) ==> storedFavorites == old(storedFavorites)
      ensures prompt in old(favorites) ==> storedFavorites == Some(favorites)
      ensures Distinct(old(favorites)) ==> Distinct(favorites) && prompt !in favorites
    {
      RemovedSpec(favorites, prompt);
      if Distinct(favorites) {
        RemovedDistinct(favorites, prompt);
      }
      var index := IndexOf(favorites, prompt);
      if index > -1 {
        favorites := favorites[..index] + favorites[index + 1..];
        storedFavorites := Some(favorites);
      }
    }

    /** `favoriteGeneratedPrompt`: with no generated prompt only the warning
        toast appears; otherwise the prompt is removed when it is a favorite
        and added when it is not. */
    method FavoriteGeneratedPrompt()
      requires Valid()
      modifies this`favorites, this`storedFavorites, this`lastToast, this`toastVisible
      ensures Valid()
      ensures toastVisible
      ensures (generatedPrompt.None? || generatedPrompt.value == "") ==>
        && favorites == old(favorites) && storedFavorites == old(storedFavorites)
        && lastToast == Some(Toast(NothingToFavoriteMessage, Warning))
      ensures generatedPrompt.Some? && generatedPrompt.value != "" ==>
        && favorites == Toggled(old(favorites), generatedPrompt.value)
        && (Distinct(old(favorites)) ==>
              Distinct(favorites) && (generatedPrompt.value in favorites <==> generatedPrompt.value !in old(favorites)))
        && lastToast == Some(if generatedPrompt.value in old(favorites)
                             then Toast(FavoriteRemovedMessage, Info)
                             else Toast(FavoriteAddedMessage, Success))
    {
      if generatedPrompt.None? || generatedPrompt.value == "" {
        ShowToast(NothingToFavoriteMessage, Warning);
        return;
      }
      var prompt := generatedPrompt.value;
      if Distinct(favorites) {
        ToggledSpec(favorites, prompt);
      }
      if prompt in favorites {
        RemoveFavorite(prompt);
        ShowToast(FavoriteRemovedMessage, Info);
      } else {
        AddFavorite(prompt);
        ShowToast(FavoriteAddedMessage, Success);
      }
    }

    /** `toggleFavorite` on the favorite button of card `index`: its
        `data-prompt` (the card's content) is toggled in the favorites, and
        that one button follows; an empty prompt does nothing. */
    method ToggleFavorite(index: nat)
      requires Valid()
      requires index < |cards|
      modifies this`favorites, this`storedFavorites, this`cards, this`lastToast, this`toastVisible
      ensures Valid()
      ensures old(cards[index].content) == "" ==>
        && favorites == old(favorites) && storedFavorites == old(storedFavorites)
        && cards == old(cards) && lastToast == old(lastToast) && toastVisible == old(toastVisible)
      ensures old(cards[index].content) != "" ==>
        && favorites == Toggled(old(favorites), old(cards[index].content))
        && cards == old(cards)[index := old(cards[index]).(favorited := old(cards[index].content) !in old(favorites))]
        && toastVisible
        && lastToast == Some(if old(cards[index].content) in old(favorites)
                             then Toast(FavoriteRemovedMessage, Info)
                             else Toast(FavoriteAddedMessage, Success))
    {
      var prompt := cards[index].content;
      if prompt == "" {
        return;
      }
      if prompt in favorites {
        RemoveFavorite(prompt);
        cards := cards[index := cards[index].(favorited := false)];
        ShowToast(FavoriteRemovedMessage, Info);
      } else {
        AddFavorite(prompt);
        cards := cards[index := cards[index].(favorited := true)];
        ShowToast(FavoriteAddedMessage, Success);
      }
    }

    /** A click on a mobile navigation item: navigate, then close the menu. */
    method OnMobileNavClick(id: string)
      requires Valid()
      modifies this`sections, this`currentSection, this`navItems, this`mobileNavItems,
               this`cards, this`databasePopulated, this`lastToast, this`toastVisible,
               this`mobileMenuOpen, this`menuActive, this`overlayActive, this`scrollLocked
      ensures Valid()
      ensures NavigatedTo(id)
      ensures !mobileMenuOpen && !menuActive && !overlayActive && !scrollLocked
    {
      NavigateToSection(id);
      CloseMobileMenu();
    }

    /** A click on a hero button: `start` goes to the features, `examples`
        to the examples, any other action does nothing. */
    method OnActionClick(action: string)
      requires Valid()
      modifies this`sections, this`currentSection, this`navItems, this`mobileNavItems,
               this`cards, this`databasePopulated, this`lastToast, this`toastVisible
      ensures Valid()
      ensures action == "start" ==> NavigatedTo("features")
      ensures action == "examples" ==> NavigatedTo("examples")
      ensures action != "start" && action != "examples" ==> NotNavigated()
    {
      var target := ActionSection(action);
      if target.Some? {
        NavigateToSection(target.value);
      }
    }

    /** A click on the feature card at `index` among its siblings: the
        first three lead to features, database and generator; any other
        position does nothing. */
    method OnFeatureCardClick(index: int)
      requires Valid()
      modifies this`sections, this`currentSection, this`navItems, this`mobileNavItems,
               this`cards, this`databasePopulated, this`lastToast, this`toastVisible
      ensures Valid()
      ensures index == 0 ==> NavigatedTo("features")
      ensures index == 1 ==> NavigatedTo("database")
      ensures index == 2 ==> NavigatedTo("generator")
      ensures !(0 <= index < 3) ==> NotNavigated()
    {
      var target := FeatureCardSection(index);
      if target.Some? {
        NavigateToSection(target.value);
      }
    }

    /** The `keydown` listener: Escape closes an open menu and hides the
        toast; Ctrl or Cmd with 1 to 6 goes to the corresponding section;
        any other key changes nothing. */
    method OnKeyDown(key: string, ctrlOrMeta: bool)
      requires Valid()
      modifies this`sections, this`currentSection, this`navItems, this`mobileNavItems,
               this`cards, this`databasePopulated, this`lastToast, this`toastVisible,
               this`mobileMenuOpen, this`menuActive, this`overlayActive, this`scrollLocked
      ensures Valid()
      ensures key == "Escape" ==>
        && !mobileMenuOpen && !toastVisible
        && sections == old(sections) && currentSection == old(currentSection)
        && navItems == old(navItems) && mobileNavItems == old(mobileNavItems)
        && cards == old(cards) && databasePopulated == old(databasePopulated)
        && lastToast == old(lastToast)
      ensures key != "Escape" ==> mobileMenuOpen == old(mobileMenuOpen)
      ensures ShortcutSection(key, ctrlOrMeta).Some? ==> NavigatedTo(ShortcutSection(key, ctrlOrMeta).value)
      ensures key != "Escape" && ShortcutSection(key, ctrlOrMeta).None? ==> NotNavigated()
    {
      if key == "Escape" {
        if mobileMenuOpen {
          CloseMobileMenu();
        }
        HideToast();
      }
      var target := ShortcutSection(key, ctrlOrMeta);
      if target.Some? {
        NavigateToSection(target.value);
      }
    }
  }
}
