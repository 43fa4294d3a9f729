# Portfolio project filter and pagination, in Dafny

This project models the project list of the portfolio page (`js/portfolio.js`).
It covers two parts:

- **Filter.** Four optional criteria pick projects out of `projectsData`: category, technology, year, and a case-insensitive free-text search.
- **Pagination.** A simulated infinite scroll renders the filtered list nine cards per load. Every filter change clears the grid and starts again from the first page.

The model also covers the two helpers a card needs: the category's display name and the tech-stack badges.

Modules, one concept each:

- `Text` (Text.dfy): the string built-ins the filter relies on (`toLowerCase` restricted to ASCII, `includes`, `join`) and `Number.prototype.toString` for non-negative integers below 10^21, with its inverse.
- `JsArray` (JsArray.dfy): `Array.prototype.filter` with a callback argument, and `Array.prototype.slice`.
- `Projects` (Projects.dfy): the project record, the filter state `activeFilters`, the filter callback `Passes` (its four guards in source order) and `FilterProjects`.
- `Cards` (Cards.dfy): `getCategoryName` and the badge rule of `createProjectCard`.
- `Page` (Page.dfy): the class `PortfolioPage`, which holds the module-level state (`currentPage`, `filteredProjects`, `isLoading`, `hasMoreProjects`, `activeFilters`, the grid's contents, the loading indicator, the end and no-results messages, and the results count). It has one method per event handler.

`loadProjects` is split in two, at its timer:

- `BeginLoad` is the guard plus `isLoading = true`. `isLoading` therefore holds exactly while a load timer is pending.
- `CompleteLoad` is the timer's body. The staggered per-card timers inside it are taken to fire at once.

The `DOMContentLoaded` handler's `loadProjects()` call is `BeginLoad` on a freshly constructed page.

Proved about the pagination: in every state of the model between events, the rendered grid is `filteredProjects[..min(currentPage*9, |filteredProjects|)]` (`PortfolioPage.Valid`). So the grid is a prefix of the filtered list, every card on it is a project that passes the active filters, and no position is rendered twice. A load appends exactly the next page. The source appends cards from per-card timers, which can break this order; "## Left out" says how.

What follows from the invariant:

- The branch that shows the end message on an empty slice with `currentPage > 0` (js/portfolio.js:205-207) cannot be reached. A load is only pending while pages remain, and past the first page a pending load always finds a non-empty slice (`EmptyPageOnlyFirst`).
- So the end message appears only for lists longer than one page (`EndMessageOnlyForLongLists`).

The "showing" figure of the results count (js/portfolio.js:184) is computed after `currentPage++`. After a load it is therefore one page ahead of the number of rendered cards: ten matching projects read "Mostrando 10 de 10" while nine cards are on the grid (`ShowingOnePageAhead`, `TenProjectsScenario`). The model follows the code.

The search runs over one text built from all the fields (js/portfolio.js:147-153), so a term can also match across entries and across the template's padding. For example, the tech stack `["react", "node"]` passes the term `"react node"`, although neither entry contains it. Only one direction is therefore proved: a term found in a single field or entry passes (`SearchFieldHit`). The converse does not hold of the source.

## Model

| member | source | states |
|---|---|---|
| `Text.Lower` | js/portfolio.js:153 | same length as the input; each character lower-cased (ASCII letters only) |
| `Text.LowerAppend` | js/portfolio.js:147-153 | lower-casing the template commutes with concatenating its parts |
| `Text.Contains` | js/portfolio.js:155 | `includes` is true iff the term occurs at some position of the text |
| `Text.ContainsTransitive` | js/portfolio.js:155 | a term found in a part of the text is found in the text |
| `Text.ContainsConcat` | js/portfolio.js:147-155 | what either half contains, the concatenation contains |
| `Text.Join` | js/portfolio.js:152 | `techStack.join(' ')` holds every entry and one separator between each two neighbours, and starts with the first entry |
| `Text.JoinContainsElement` | js/portfolio.js:152 | every tech-stack entry occurs in `techStack.join(' ')` |
| `Text.NatToString` | js/portfolio.js:140 | `year.toString()` is a non-empty string of digits |
| `Text.ParseNatToString` | js/portfolio.js:140 | the rendered year is canonical (no leading zero) and reads back as the year |
| `Text.NatToStringParse` | js/portfolio.js:140 | a canonical decimal string is the rendering of its own value |
| `Text.NatToStringIff` | js/portfolio.js:140 | a string renders year `n` iff it is canonical and denotes `n` |
| `JsArray.Filter` | js/portfolio.js:126 | the filtered list is no longer than the input |
| `JsArray.FilterSelects` | js/portfolio.js:126-161 | `filter` keeps exactly the positions whose element passes, in increasing order |
| `JsArray.FilterMembership` | js/portfolio.js:126-161 | an element is kept iff it is in the list and passes |
| `JsArray.FilterKeepsAll` | js/portfolio.js:126-161 | when every element passes, the list comes back unchanged |
| `JsArray.FilterKeepsDistinct` | js/portfolio.js:126-161 | filtering a list without repeats gives a list without repeats |
| `JsArray.Slice` | js/portfolio.js:200 | `slice(start, end)` clamps both bounds to the length; element `k` is input element `start + k` |
| `Projects.Passes` | js/portfolio.js:126-161 | the callback's four guards, taken in source order, accept a project iff each criterion is off ('all', or an empty search) or holds |
| `Projects.SearchableText` | js/portfolio.js:147-153 | the template literal with its line breaks and indentation; each of the four text fields and each tech-stack entry is a contiguous part of it |
| `Projects.FilterProjects` | js/portfolio.js:126-161 | `projectsData.filter` with the four-guard callback `Passes`; never longer than `projectsData` |
| `Projects.PassesIffAllActiveSatisfied` | js/portfolio.js:126-161 | the callback rejects a project iff some active criterion (category, technology, year, search) fails |
| `Projects.FilterProjectsSelects` | js/portfolio.js:126-161 | `filteredProjects` is the order-preserving selection of exactly the projects that pass |
| `Projects.FilterProjectsMembership` | js/portfolio.js:126-161 | a project is in `filteredProjects` iff it is in `projectsData` and passes |
| `Projects.InactiveFiltersKeepAll` | js/portfolio.js:128-145 | with category, technology and year at 'all' and an empty search, the filtered list equals `projectsData` |
| `Projects.FilterProjectsDistinct` | js/portfolio.js:126-161 | a project list without repeats filters to one without repeats |
| `Projects.YearCriterionIff` | js/portfolio.js:140 | the year criterion holds iff the selected value is a canonical decimal equal to the project's year |
| `Projects.LowerSearchableText` | js/portfolio.js:147-153 | the lower-cased search text is the template filled with the lower-cased fields |
| `Projects.SearchFieldHit` | js/portfolio.js:145-157 | a term found in the lower-cased title, client, short or full description, or in a tech-stack entry, passes the search (the converse is false, see below) |
| `Projects.LowerPreservesContains` | js/portfolio.js:153-155 | lower-casing text and term keeps a containment |
| `Projects.SearchIgnoresFieldCase` | js/portfolio.js:147-155 | projects whose fields agree up to letter case pass or fail every search together |
| `Projects.UpperCaseTermNeverMatches` | js/portfolio.js:153-155 | a term with an upper-case letter never matches, which is why the input is lower-cased at line 68 |
| `Cards.GetCategoryName` | js/portfolio.js:269-277 | a known key gives its display name, any other key itself; the name is empty iff the key is |
| `Cards.TechBadges` | js/portfolio.js:257-260 | at most four badges: the first three tech-stack entries, then one `+n` badge when there are more |
| `Cards.BadgesAccountForTechStack` | js/portfolio.js:257-260 | a stack of more than three entries ends in a `+n` badge whose `n` is the number of entries left unnamed; the named badges plus `n` add up to the stack's length |
| `Page.Showing` | js/portfolio.js:184 | the "showing" figure is at most the total and at most one page past `currentPage`, and equals one of them |
| `Page.PageSlice` | js/portfolio.js:198-200 | `slice(currentPage*9, currentPage*9 + 9)` holds at most nine projects: those between the first `currentPage` pages and the first `currentPage + 1` pages |
| `Page.Rendered` | js/portfolio.js:198-217 | the cards after `n` pages are the first `min(n*9, len)` filtered projects |
| `Page.RenderedGrows` | js/portfolio.js:198-217 | the first `n` pages plus page `n` are the first `n+1` pages |
| `Page.PageSliceEmptyIff` | js/portfolio.js:198-202 | a page slice is empty iff the grid already holds the whole filtered list |
| `Page.ShowingOnePageAhead` | js/portfolio.js:184-185 | showing = min(cards on the grid + 9, total); it never exceeds the total and is ahead of the grid while cards remain |
| `Page.PortfolioPage.Valid` | js/portfolio.js:167-231 | the invariant every event keeps: the grid is a prefix of the filtered list, and every card on it is a project of `projectsData` that passes the active filters |
| `Page.PortfolioPage.constructor` | js/portfolio.js:4-16 | initial state: page 0, all filters off, `filteredProjects` = `projectsData`, nothing loading, more to load |
| `Page.PortfolioPage.UpdateResultsCount` | js/portfolio.js:183-187 | the count becomes (showing for `currentPage`, number of filtered projects) |
| `Page.PortfolioPage.BeginLoad` | js/portfolio.js:190-195 | a no-op, state unchanged, while loading or when no pages remain; otherwise only `isLoading` and the indicator change |
| `Page.PortfolioPage.CompleteLoad` | js/portfolio.js:197-231 | an empty page sets `hasMoreProjects` false and leaves grid and page unchanged; otherwise exactly that page is appended, `currentPage` advances, loading clears, the count is updated; afterwards `hasMoreProjects` is false iff `currentPage*9 >= len` |
| `Page.PortfolioPage.AppendCards` | js/portfolio.js:212-217 | the grid becomes the old grid followed by the page's projects in order |
| `Page.PortfolioPage.ResetAndFilter` | js/portfolio.js:167-180 | page 0, more to load, empty grid, messages hidden, list re-filtered; no-results iff the list is empty; a load starts iff the list is non-empty and none is pending |
| `Page.PortfolioPage.FilterProjectsNow` | js/portfolio.js:125-164 | `filteredProjects` becomes the filter of `projectsData` and the count is rewritten |
| `Page.PortfolioPage.SelectCategory` | js/portfolio.js:43-48 | the category criterion becomes the clicked value, then the reset state |
| `Page.PortfolioPage.SelectTechnology` | js/portfolio.js:52-55 | the technology criterion becomes the selected value, then the reset state |
| `Page.PortfolioPage.SelectYear` | js/portfolio.js:58-61 | the year criterion becomes the selected value, then the reset state |
| `Page.PortfolioPage.SearchInput` | js/portfolio.js:65-71 | the search term becomes the lower-cased input, then the reset state |
| `Page.PortfolioPage.ClearFilters` | js/portfolio.js:74-89 | every criterion off and the reset state; the filtered list is all of `projectsData` |
| `Page.PortfolioPage.ResetSearch` | js/portfolio.js:103-107 | the search term is cleared, the other criteria stay, then the reset state |
| `Page.PortfolioPage.Scroll` | js/portfolio.js:112-121 | a load starts iff the bottom is near, nothing is loading and pages remain; otherwise nothing changes |
| `Page.EmptyPageOnlyFirst` | js/portfolio.js:202-207 | a pending load finds an empty slice only on page 0, so the end message of line 206 is never shown |
| `Page.EndMessageOnlyForLongLists` | js/portfolio.js:224-229 | the end message is shown only when the filtered list is longer than one page, and pagination has ended |
| `Page.GridHasNoRepeats` | js/portfolio.js:198-217 | the grid is a prefix of the filtered list; with no repeated projects in the data, no project appears twice |

## Left out

- DOM lookup, styling, `innerHTML` templating and the active-button classes are left out: they are presentation. The grid is the sequence of projects whose cards it holds, and the messages and the loading indicator are booleans.
- The modal (`openModal`, `closeModal`, the ESC key), anchor smooth-scrolling and the navbar shadow are left out. They are presentation with no state the filter or the pagination reads.
- The card's other fields (image, icon, duration, team, challenge, solution, results) are left out of `Project`, because nothing modelled reads them.
- Timing is left out: the 600 ms load delay, the 100 ms card stagger and the 300 ms search debounce. Loads are the `BeginLoad`/`CompleteLoad` pair, and `SearchInput` is the debounced callback firing.
- Page.PortfolioPage.CompleteLoad: appends the whole page at once. The source appends each card from its own timer, up to 800 ms after the load timer fires (js/portfolio.js:213-216). The model therefore does not capture two orderings the source allows:
  - Cards of an earlier page can be appended after a reset has already cleared the grid.
  - `isLoading` is already false when those card timers are pending (js/portfolio.js:220), and the next load's timer fires after only 600 ms (js/portfolio.js:231). A scroll within about 200 ms of a completed load can therefore bring the next page's first cards in before the previous page's last ones. The source's grid is then not a prefix of `filteredProjects`; `PortfolioPage.Valid` holds of the model only.
- The scroll threshold (window height, scroll offset, document height) is left out. It is the `nearBottom` parameter of `Scroll`.
- The initial text of the results-count element comes from the page markup, which is not part of this model. `resultsCount` is `None` until the first write.
- Text.Lower: lower-cases ASCII letters only, not the full Unicode `toLowerCase`.
- Projects.Project: `year` is a non-negative integer rendered in plain digits. `toString` of a negative or fractional year, or of one from 10^21 up (which JavaScript writes in exponent form, such as `1e+21`), is not modelled.
- Cards.GetCategoryName: inherited object properties are not modelled. In the source, a key such as `constructor` finds a property of `Object.prototype` rather than falling back to the key.
- js/script.js (fade-ins, skill bars, card animation, contact form POST) is not part of this model. It is browser animation and network I/O.
