/** The portfolio page's pagination: the module-level state of
    `js/portfolio.js`, the reset that a filter change triggers, and the
    simulated infinite scroll that renders one page of cards per load.

    A load is split in two, as the source splits it with a timer:
    `BeginLoad` is the guard and the scheduling of the timer, `CompleteLoad`
    is the timer's body. `isLoading` holds exactly while a timer is pending.
    The staggered per-card timers inside the load are taken to run at once. */
module Page {
  import opened JsArray
  import opened Text
  import opened Projects

  datatype Option<T> = None | Some(value: T)

  /** `projectsPerPage`. */
  const ProjectsPerPage: nat := 9

  /** The figures of the "Mostrando <showing> de <total> projetos" text. */
  datatype ResultsCount = ResultsCount(showing: nat, total: nat)

  /** `updateResultsCount`'s "showing" figure: one page beyond `currentPage`,
      capped at the total. */
  function Showing(currentPage: nat, total: nat): (n: nat)
    ensures n <= total && n <= (currentPage + 1) * ProjectsPerPage
    ensures n == total || n == (currentPage + 1) * ProjectsPerPage
  {
    Min((currentPage + 1) * ProjectsPerPage, total)
  }

  /** `filteredProjects.slice(page * 9, page * 9 + 9)`: the cards one load renders. */
  function PageSlice(fp: seq<Project>, page: nat): (r: seq<Project>)
    ensures |r| <= ProjectsPerPage
    ensures r == fp[RenderedCount(fp, page)..RenderedCount(fp, page + 1)]
  {
    Slice(fp, page * ProjectsPerPage, page * ProjectsPerPage + ProjectsPerPage)
  }

  /** The number of cards on the grid once `pages` pages have been loaded. */
  function RenderedCount(fp: seq<Project>, pages: nat): nat
  {
    Min(pages * ProjectsPerPage, |fp|)
  }

  /** The cards on the grid once `pages` pages have been loaded: a prefix of the filtered list. */
  function Rendered(fp: seq<Project>, pages: nat): (r: seq<Project>)
    ensures |r| == RenderedCount(fp, pages)
    ensures r == fp[..|r|]
  {
    fp[..RenderedCount(fp, pages)]
  }

  /** Loading page `page` on top of the first `page` pages gives the first `page + 1` pages. */
  lemma RenderedGrows(fp: seq<Project>, page: nat)
    ensures Rendered(fp, page) + PageSlice(fp, page) == Rendered(fp, page + 1)
  {
    var a := RenderedCount(fp, page);
    var b := RenderedCount(fp, page + 1);
    assert PageSlice(fp, page) == fp[a..b];
    assert fp[..a] + fp[a..b] == fp[..b];
  }

  /** The page slice is empty exactly when the grid already shows the whole list. */
  lemma PageSliceEmptyIff(fp: seq<Project>, page: nat)
    ensures PageSlice(fp, page) == [] <==> RenderedCount(fp, page) == |fp|
  {
    SliceEmptyIff(fp, page * ProjectsPerPage, page * ProjectsPerPage + ProjectsPerPage);
  }

  /** The "showing" figure never exceeds the total, is never below the number of
      cards on the grid, and is ahead of it by up to one page whenever cards are
      still to come: it equals the grid size plus a page, capped at the total. */
  lemma ShowingOnePageAhead(fp: seq<Project>, page: nat)
    ensures Showing(page, |fp|) == Min(RenderedCount(fp, page) + ProjectsPerPage, |fp|)
    ensures RenderedCount(fp, page) <= Showing(page, |fp|) <= |fp|
    ensures RenderedCount(fp, page) < |fp| ==> RenderedCount(fp, page) < Showing(page, |fp|)
  {
  }

  /** All the state of the page the model tracks, as one value. */
  datatype PageState = PageState(
    currentPage: nat,
    filteredProjects: seq<Project>,
    isLoading: bool,
    hasMoreProjects: bool,
    activeFilters: Filters,
    grid: seq<Project>,
    loadingIndicatorActive: bool,
    endMessageShown: bool,
    noResultsShown: bool,
    resultsCount: Option<ResultsCount>)

  class PortfolioPage {
    /** `projectsData`, supplied by the page's data script and never changed. */
    const projectsData: seq<Project>

    var currentPage: nat
    var filteredProjects: seq<Project>
    var isLoading: bool
    var hasMoreProjects: bool
    var activeFilters: Filters

    /** The projects whose cards are in `portfolioGrid`, in order. */
    var grid: seq<Project>
    /** Whether `loadingIndicator` has its `active` class. */
    var loadingIndicatorActive: bool
    /** Whether `endMessage` and `noResults` are displayed. */
    var endMessageShown: bool
    var noResultsShown: bool
    /** The figures last written into `resultsCount`, or None before the first write. */
    var resultsCount: Option<ResultsCount>

    ghost function State(): PageState
      reads this
    {
      PageState(currentPage, filteredProjects, isLoading, hasMoreProjects, activeFilters,
                grid, loadingIndicatorActive, endMessageShown, noResultsShown, resultsCount)
    }

    /** The invariant that holds between events. */
    ghost predicate Valid()
      reads this
      ensures Valid() ==> |grid| <= |filteredProjects| && grid == filteredProjects[..|grid|]
      ensures Valid() ==> forall x :: x in grid ==> x in projectsData && Passes(x, activeFilters)
    {
      FilterProjectsSound(projectsData, activeFilters);
      && filteredProjects == FilterProjects(projectsData, activeFilters)
      && Paginated()
    }

    /** Everything in Valid except that the filtered list is up to date. */
    ghost predicate Paginated()
      reads this
    {
      // the grid is the first `currentPage` pages of the filtered list
      && grid == Rendered(filteredProjects, currentPage)
      // every page loaded so far added at least one card
      && (currentPage > 0 ==> (currentPage - 1) * ProjectsPerPage < |filteredProjects|)
      // pagination ends only once the list is exhausted ...
      && (!hasMoreProjects ==> currentPage * ProjectsPerPage >= |filteredProjects|)
      // ... and, past the first page, it goes on only while cards remain
      && (hasMoreProjects && currentPage > 0 ==> currentPage * ProjectsPerPage < |filteredProjects|)
      // a pending load was scheduled while pages remained, and shows the indicator
      && (isLoading ==> hasMoreProjects)
      && loadingIndicatorActive == isLoading
      && (endMessageShown ==> !hasMoreProjects && |filteredProjects| > ProjectsPerPage)
      && (noResultsShown ==> filteredProjects == [])
      && (resultsCount.Some? ==>
            resultsCount.value == ResultsCount(Showing(currentPage, |filteredProjects|), |filteredProjects|))
    }

    /** The initial state: every filter off, so the filtered list is the whole list. */
    constructor (projectsData: seq<Project>)
      ensures Valid()
      ensures this.projectsData == projectsData
      ensures State() == PageState(0, projectsData, false, true, NoFilters, [], false, false, false, None)
    {
      this.projectsData := projectsData;
      currentPage := 0;
      filteredProjects := projectsData;
      isLoading := false;
      hasMoreProjects := true;
      activeFilters := NoFilters;
      grid := [];
      loadingIndicatorActive := false;
      endMessageShown := false;
      noResultsShown := false;
      resultsCount := None;
      new;
      InactiveFiltersKeepAll(projectsData, NoFilters);
    }

    /** `updateResultsCount`. */
    method UpdateResultsCount()
      modifies this`resultsCount
      ensures resultsCount == Some(ResultsCount(Showing(currentPage, |filteredProjects|), |filteredProjects|))
    {
      var showing := Min((currentPage + 1) * ProjectsPerPage, |filteredProjects|);
      var total := |filteredProjects|;
      resultsCount := Some(ResultsCount(showing, total));
    }

    /** `loadProjects` up to the timer: a no-op while a load is pending or once
        pagination has ended; otherwise it marks a load pending. */
    method BeginLoad() returns (scheduled: bool)
      requires Valid()
      modifies this
      ensures Valid()
      ensures scheduled <==> old(!isLoading && hasMoreProjects)
      ensures State() == if scheduled then old(State()).(isLoading := true, loadingIndicatorActive := true)
                         else old(State())
    {
      if isLoading || !hasMoreProjects {
        return false;
      }
      isLoading := true;
      loadingIndicatorActive := true;
      scheduled := true;
    }

    /** The body of the load timer: render the next page and advance, or, when
        the page is empty, end the pagination. */
    method CompleteLoad()
      requires Valid() && isLoading
      modifies this
      ensures Valid()
      ensures var fp, page := old(filteredProjects), old(currentPage);
        var shown := PageSlice(fp, page);
        if shown == [] then
          State() == old(State()).(hasMoreProjects := false, isLoading := false, loadingIndicatorActive := false,
                                   endMessageShown := old(endMessageShown) || page > 0)
        else
          State() == old(State()).(
            grid := old(grid) + shown,
            currentPage := page + 1,
            isLoading := false,
            loadingIndicatorActive := false,
            hasMoreProjects := (page + 1) * ProjectsPerPage < |fp|,
            endMessageShown := old(endMessageShown) || ((page + 1) * ProjectsPerPage >= |fp| && |fp| > ProjectsPerPage),
            resultsCount := Some(ResultsCount(Showing(page + 1, |fp|), |fp|)))
      ensures !hasMoreProjects <==> currentPage * ProjectsPerPage >= |filteredProjects|
    {
      var start := currentPage * ProjectsPerPage;
      var end := start + ProjectsPerPage;
      var projectsToShow := Slice(filteredProjects, start, end);
      PageSliceEmptyIff(filteredProjects, currentPage);

      if |projectsToShow| == 0 {
        hasMoreProjects := false;
        loadingIndicatorActive := false;
        // shown when `currentPage > 0`, which EmptyPageOnlyFirst rules out
        endMessageShown := endMessageShown || currentPage > 0;
        isLoading := false;
        return;
      }

      RenderedGrows(filteredProjects, currentPage);
      AppendCards(projectsToShow);

      currentPage := currentPage + 1;
      isLoading := false;
      loadingIndicatorActive := false;
      UpdateResultsCount();

      if end >= |filteredProjects| {
        hasMoreProjects := false;
        if |filteredProjects| > ProjectsPerPage {
          endMessageShown := true;
        }
      }
    }

    /** `projectsToShow.forEach(...)`: one card per project appended to the grid, in order. */
    method AppendCards(projectsToShow: seq<Project>)
      modifies this`grid
      ensures grid == old(grid) + projectsToShow
    {
      var i := 0;
      while i < |projectsToShow|
        invariant 0 <= i <= |projectsToShow|
        invariant grid == old(grid) + projectsToShow[..i]
      {
        grid := grid + [projectsToShow[i]];
        i := i + 1;
        assert projectsToShow[..i] == projectsToShow[..i - 1] + [projectsToShow[i - 1]];
      }
      assert projectsToShow[..i] == projectsToShow;
    }

    /** The state `resetAndFilter` leaves: filters `f`, the first page reset, the
        list re-filtered, and a load pending when one was already pending or
        `scheduled` says a new one was started. */
    ghost predicate ResetTo(f: Filters, wasLoading: bool, scheduled: bool)
      reads this
    {
      var fp := FilterProjects(projectsData, f);
      && State() == PageState(0, fp, wasLoading || scheduled, true, f, [], wasLoading || scheduled,
                              false, fp == [], Some(ResultsCount(Showing(0, |fp|), |fp|)))
      && (scheduled <==> fp != [] && !wasLoading)
    }

    /** `resetAndFilter`, called right after a filter changed: back to the first
        page, an empty grid, the list filtered anew; then either the "no results"
        message or a load. A load still pending from before is not cancelled: it
        will render the first page of the new list. */
    method ResetAndFilter() returns (scheduled: bool)
      requires Paginated()
      modifies this
      ensures Valid()
      ensures ResetTo(old(activeFilters), old(isLoading), scheduled)
    {
      currentPage := 0;
      hasMoreProjects := true;
      grid := [];
      endMessageShown := false;
      noResultsShown := false;
      FilterProjectsNow();

      if |filteredProjects| == 0 {
        noResultsShown := true;
        scheduled := false;
      } else {
        scheduled := BeginLoad();
      }
    }

    /** `filterProjects`: re-filter the list and write the count. */
    method FilterProjectsNow()
      modifies this`filteredProjects, this`resultsCount
      ensures filteredProjects == FilterProjects(projectsData, activeFilters)
      ensures resultsCount == Some(ResultsCount(Showing(currentPage, |filteredProjects|), |filteredProjects|))
    {
      filteredProjects := FilterProjects(projectsData, activeFilters);
      UpdateResultsCount();
    }

    /** A click on a category button. */
    method SelectCategory(value: string) returns (scheduled: bool)
      requires Valid()
      modifies this
      ensures Valid()
      ensures ResetTo(old(activeFilters).(category := value), old(isLoading), scheduled)
    {
      activeFilters := activeFilters.(category := value);
      scheduled := ResetAndFilter();
    }

    /** A change of the technology select. */
    method SelectTechnology(value: string) returns (scheduled: bool)
      requires Valid()
      modifies this
      ensures Valid()
      ensures ResetTo(old(activeFilters).(technology := value), old(isLoading), scheduled)
    {
      activeFilters := activeFilters.(technology := value);
      scheduled := ResetAndFilter();
    }

    /** A change of the year select. */
    method SelectYear(value: string) returns (scheduled: bool)
      requires Valid()
      modifies this
      ensures Valid()
      ensures ResetTo(old(activeFilters).(year := value), old(isLoading), scheduled)
    {
      activeFilters := activeFilters.(year := value);
      scheduled := ResetAndFilter();
    }

    /** The debounced search input: the typed text, lower-cased, becomes the term. */
    method SearchInput(value: string) returns (scheduled: bool)
      requires Valid()
      modifies this
      ensures Valid()
      ensures ResetTo(old(activeFilters).(search := Lower(value)), old(isLoading), scheduled)
    {
      activeFilters := activeFilters.(search := Lower(value));
      scheduled := ResetAndFilter();
    }

    /** The clear-filters button: every criterion off, so the whole list comes back. */
    method ClearFilters() returns (scheduled: bool)
      requires Valid()
      modifies this
      ensures Valid()
      ensures ResetTo(NoFilters, old(isLoading), scheduled)
      ensures filteredProjects == projectsData
    {
      activeFilters := NoFilters;
      scheduled := ResetAndFilter();
      InactiveFiltersKeepAll(projectsData, NoFilters);
    }

    /** The reset-search button: the search term is cleared, the other criteria stay. */
    method ResetSearch() returns (scheduled: bool)
      requires Valid()
      modifies this
      ensures Valid()
      ensures ResetTo(old(activeFilters).(search := ""), old(isLoading), scheduled)
    {
      activeFilters := activeFilters.(search := "");
      scheduled := ResetAndFilter();
    }

    /** The scroll listener: `nearBottom` stands for the window-geometry test. */
    method Scroll(nearBottom: bool) returns (scheduled: bool)
      requires Valid()
      modifies this
      ensures Valid()
      ensures scheduled <==> nearBottom && old(!isLoading && hasMoreProjects)
      ensures State() == if scheduled then old(State()).(isLoading := true, loadingIndicatorActive := true)
                         else old(State())
    {
      if isLoading || !hasMoreProjects {
        return false;
      }
      if nearBottom {
        scheduled := BeginLoad();
      } else {
        scheduled := false;
      }
    }
  }

  /** The end-of-list branch of the load timer for a later page (a pending load
      finding an empty page past the first) cannot be reached: a load is only
      pending while pages remain, so past the first page the slice is non-empty. */
  lemma EmptyPageOnlyFirst(page: PortfolioPage)
    requires page.Valid() && page.isLoading
    ensures PageSlice(page.filteredProjects, page.currentPage) == [] ==> page.currentPage == 0
  {
    PageSliceEmptyIff(page.filteredProjects, page.currentPage);
  }

  /** The end message is displayed only when the filtered list is longer than one page. */
  lemma EndMessageOnlyForLongLists(page: PortfolioPage)
    requires page.Valid() && page.endMessageShown
    ensures |page.filteredProjects| > ProjectsPerPage && !page.hasMoreProjects
  {
  }

  /** No project position is rendered twice: the grid is a prefix of the
      filtered list, and it has no repeats when the project list has none. */
  lemma GridHasNoRepeats(page: PortfolioPage)
    requires page.Valid() && Distinct(page.projectsData)
    ensures page.grid == page.filteredProjects[..|page.grid|]
    ensures Distinct(page.grid)
  {
    FilterProjectsDistinct(page.projectsData, page.activeFilters);
  }

  /** Ten matching projects: the first load renders nine cards while the count
      already reads "Mostrando 10 de 10"; the second renders the tenth card,
      ends the pagination and shows the end message. */
  method TenProjectsScenario(projects: seq<Project>)
    requires |projects| == 10
  {
    var page := new PortfolioPage(projects);
    var scheduled := page.BeginLoad();
    assert scheduled;
    page.CompleteLoad();
    assert |page.grid| == 9;
    assert page.resultsCount == Some(ResultsCount(10, 10));
    assert page.hasMoreProjects;

    scheduled := page.Scroll(true);
    assert scheduled;
    page.CompleteLoad();
    assert page.grid == projects;
    assert !page.hasMoreProjects && page.endMessageShown;

    scheduled := page.Scroll(true);
    assert !scheduled;
  }
}
