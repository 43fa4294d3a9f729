/** The portfolio's project records, the filter state and the filter that
    `js/portfolio.js` applies to the project list. */
module Projects {
  import opened Text
  import opened JsArray

  /** The fields of a project record that the filter and the cards read. */
  datatype Project = Project(
    title: string,
    client: string,
    shortDescription: string,
    fullDescription: string,
    category: string,
    technologies: seq<string>,
    techStack: seq<string>,
    year: nat)

  /** The four filter criteria; "all" (or an empty search) switches one off. */
  datatype Filters = Filters(category: string, technology: string, year: string, search: string)

  const All: string := "all"

  /** The filter state the page starts with, and the one the clear button restores. */
  const NoFilters: Filters := Filters(All, All, All, "")

  /** The layout of the search template: a line break and eight spaces open
      each line, the first three lines end in a space, and a line break and
      six spaces close the text. */
  const Indent: string := "\n        "
  const Sep: string := " \n        "
  const Tail: string := "\n      "

  /** The template literal the search runs over: the five fields, each on its
      own line and indented, the tech stack joined by single spaces. Every field
      and every tech-stack entry is a contiguous part of it. */
  function SearchableText(p: Project): (r: string)
    ensures Contains(r, p.title) && Contains(r, p.client)
    ensures Contains(r, p.shortDescription) && Contains(r, p.fullDescription)
    ensures forall k :: 0 <= k < |p.techStack| ==> Contains(r, p.techStack[k])
  {
    TemplateHoldsFields(p.title, p.client, p.shortDescription, p.fullDescription, p.techStack);
    Indent + p.title + Sep + p.client + Sep + p.shortDescription
    + Sep + p.fullDescription + Indent + Join(p.techStack, " ") + Tail
  }

  /** Each field filled into the template is a contiguous part of the result. */
  lemma TemplateHoldsFields(a: string, b: string, c: string, d: string, ts: seq<string>)
    ensures var r := Indent + a + Sep + b + Sep + c + Sep + d + Indent + Join(ts, " ") + Tail;
      && Contains(r, a) && Contains(r, b) && Contains(r, c) && Contains(r, d)
      && forall k :: 0 <= k < |ts| ==> Contains(r, ts[k])
  {
    var j := Join(ts, " ");
    var s1 := Indent + a;    ContainsMiddle(Indent, a, "");  assert Indent + a + "" == s1;
    var s2 := s1 + Sep;      ContainsExtend(s1, Sep);
    var s3 := s2 + b;        ContainsExtend(s2, b);  ContainsMiddle(s2, b, "");  assert s2 + b + "" == s3;
    var s4 := s3 + Sep;      ContainsExtend(s3, Sep);
    var s5 := s4 + c;        ContainsExtend(s4, c);  ContainsMiddle(s4, c, "");  assert s4 + c + "" == s5;
    var s6 := s5 + Sep;      ContainsExtend(s5, Sep);
    var s7 := s6 + d;        ContainsExtend(s6, d);  ContainsMiddle(s6, d, "");  assert s6 + d + "" == s7;
    var s8 := s7 + Indent;   ContainsExtend(s7, Indent);
    var s9 := s8 + j;        ContainsExtend(s8, j);  ContainsMiddle(s8, j, "");  assert s8 + j + "" == s9;
    var r := s9 + Tail;      ContainsExtend(s9, Tail);
    forall k | 0 <= k < |ts|
      ensures Contains(r, ts[k])
    {
      JoinContainsElement(ts, " ", k);
      ContainsTransitive(r, j, ts[k]);
    }
  }

  /** `searchableText.toLowerCase().includes(term)`. */
  predicate SearchMatches(p: Project, term: string)
  {
    Contains(Lower(SearchableText(p)), term)
  }

  /** The callback given to `projectsData.filter`: four guards that each reject
      the project, in the order the source tests them. */
  predicate Passes(p: Project, f: Filters)
    ensures Passes(p, f) <==>
      && (f.category == All || p.category == f.category)
      && (f.technology == All || f.technology in p.technologies)
      && (f.year == All || NatToString(p.year) == f.year)
      && (f.search == "" || SearchMatches(p, f.search))
  {
    if f.category != All && p.category != f.category then false
    else if f.technology != All && f.technology !in p.technologies then false
    else if f.year != All && NatToString(p.year) != f.year then false
    else if f.search != "" && !SearchMatches(p, f.search) then false
    else true
  }

  /** The callback as a value, for a fixed filter state. */
  function Keeps(f: Filters): Project -> bool
  {
    p => Passes(p, f)
  }

  /** `filteredProjects = projectsData.filter(...)`. */
  function FilterProjects(ps: seq<Project>, f: Filters): (r: seq<Project>)
    ensures |r| <= |ps|
  {
    Filter(ps, Keeps(f))
  }

  // ---------------------------------------------------------------------
  // The predicate as a conjunction of independently optional criteria.

  datatype Criterion = Category(name: string) | Technology(tech: string) | Year(year: string) | Search(term: string)

  /** The criteria a filter state switches on: each field not at "all" (a non-empty search term). */
  predicate IsActive(f: Filters, c: Criterion)
  {
    match c
    case Category(name) => f.category != All && name == f.category
    case Technology(tech) => f.technology != All && tech == f.technology
    case Year(year) => f.year != All && year == f.year
    case Search(term) => f.search != "" && term == f.search
  }

  /** What it means for a project to meet one criterion. */
  predicate Satisfies(p: Project, c: Criterion)
  {
    match c
    case Category(name) => p.category == name
    case Technology(tech) => tech in p.technologies
    case Year(year) => NatToString(p.year) == year
    case Search(term) => SearchMatches(p, term)
  }

  /** A project is dropped exactly when some active criterion fails. */
  lemma PassesIffAllActiveSatisfied(p: Project, f: Filters)
    ensures Passes(p, f) <==> forall c :: IsActive(f, c) ==> Satisfies(p, c)
  {
    if f.category != All { assert IsActive(f, Category(f.category)); }
    if f.technology != All { assert IsActive(f, Technology(f.technology)); }
    if f.year != All { assert IsActive(f, Year(f.year)); }
    if f.search != "" { assert IsActive(f, Search(f.search)); }
  }

  // ---------------------------------------------------------------------
  // The filtered list is exactly the order-preserving selection of the passing projects.

  /** `filteredProjects` is `projectsData` with exactly the failing projects taken
      out: the kept ones appear at increasing positions, and a position is kept
      iff its project passes. */
  lemma FilterProjectsSelects(ps: seq<Project>, f: Filters)
    ensures exists idx :: SelectedBy(FilterProjects(ps, f), ps, idx, Keeps(f))
    ensures forall i :: 0 <= i < |ps| ==> (Keeps(f)(ps[i]) <==> Passes(ps[i], f))
  {
    FilterSelects(ps, Keeps(f));
    var idx :| SelectedBy(Filter(ps, Keeps(f)), ps, idx, Keeps(f));
    assert SelectedBy(FilterProjects(ps, f), ps, idx, Keeps(f));
  }

  /** A project is in the filtered list iff it is in the project list and passes. */
  lemma FilterProjectsMembership(ps: seq<Project>, f: Filters, x: Project)
    ensures x in FilterProjects(ps, f) <==> x in ps && Passes(x, f)
  {
    FilterMembership(ps, Keeps(f), x);
  }

  /** Every project in the filtered list comes from the project list and passes. */
  lemma FilterProjectsSound(ps: seq<Project>, f: Filters)
    ensures forall x :: x in FilterProjects(ps, f) ==> x in ps && Passes(x, f)
  {
    forall x | x in FilterProjects(ps, f)
      ensures x in ps && Passes(x, f)
    {
      FilterProjectsMembership(ps, f, x);
    }
  }

  /** With every criterion switched off, filtering gives back the whole list in order. */
  lemma InactiveFiltersKeepAll(ps: seq<Project>, f: Filters)
    requires f.category == All && f.technology == All && f.year == All && f.search == ""
    ensures FilterProjects(ps, f) == ps
  {
    FilterKeepsAll(ps, Keeps(f));
  }

  /** A project list without repeats filters to a list without repeats. */
  lemma FilterProjectsDistinct(ps: seq<Project>, f: Filters)
    requires Distinct(ps)
    ensures Distinct(FilterProjects(ps, f))
  {
    FilterKeepsDistinct(ps, Keeps(f));
  }

  // ---------------------------------------------------------------------
  // The year and search criteria.

  /** The year criterion selects the projects of exactly one year, and a value
      that is not a canonical decimal (such as "02023") matches no project. */
  lemma YearCriterionIff(p: Project, year: string)
    ensures Satisfies(p, Year(year)) <==> IsCanonicalDecimal(year) && ParseDecimal(year) == p.year
  {
    NatToStringIff(p.year, year);
  }

  /** The lower-cased search text is the search text of the lower-cased fields. */
  lemma LowerSearchableText(p: Project)
    ensures Lower(SearchableText(p)) ==
      Indent + Lower(p.title) + Sep + Lower(p.client) + Sep + Lower(p.shortDescription)
      + Sep + Lower(p.fullDescription) + Indent + Lower(Join(p.techStack, " ")) + Tail
  {
    LowerKeepsLayout();
    var s1 := Indent + p.title;                LowerAppend(Indent, p.title);
    var s2 := s1 + Sep;                        LowerAppend(s1, Sep);
    var s3 := s2 + p.client;                   LowerAppend(s2, p.client);
    var s4 := s3 + Sep;                        LowerAppend(s3, Sep);
    var s5 := s4 + p.shortDescription;         LowerAppend(s4, p.shortDescription);
    var s6 := s5 + Sep;                        LowerAppend(s5, Sep);
    var s7 := s6 + p.fullDescription;          LowerAppend(s6, p.fullDescription);
    var s8 := s7 + Indent;                     LowerAppend(s7, Indent);
    var s9 := s8 + Join(p.techStack, " ");     LowerAppend(s8, Join(p.techStack, " "));
    LowerAppend(s9, Tail);
  }

  /** The layout strings of the template hold no upper-case letter. */
  lemma LowerKeepsLayout()
    ensures Lower(Indent) == Indent && Lower(Sep) == Sep && Lower(Tail) == Tail
  {
    LowerNoUpper(Indent);
    LowerNoUpper(Sep);
    LowerNoUpper(Tail);
  }

  lemma LowerNoUpper(s: string)
    requires forall i :: 0 <= i < |s| ==> !('A' <= s[i] <= 'Z')
    ensures Lower(s) == s
  {
  }

  /** A search term found in one field, or in one tech-stack entry, once lower-cased
      makes the project pass the search criterion. */
  lemma SearchFieldHit(p: Project, term: string)
    requires Contains(Lower(p.title), term) || Contains(Lower(p.client), term)
          || Contains(Lower(p.shortDescription), term) || Contains(Lower(p.fullDescription), term)
          || exists k :: 0 <= k < |p.techStack| && Contains(Lower(p.techStack[k]), term)
    ensures Satisfies(p, Search(term))
  {
    var text := SearchableText(p);
    var hit: string :| (hit == p.title || hit == p.client || hit == p.shortDescription
                        || hit == p.fullDescription || hit in p.techStack)
                       && Contains(text, hit) && Contains(Lower(hit), term);
    LowerPreservesContains(text, hit);
    ContainsTransitive(Lower(text), Lower(hit), term);
  }

  /** Lower-casing both sides keeps a containment. */
  lemma LowerPreservesContains(text: string, term: string)
    requires Contains(text, term)
    ensures Contains(Lower(text), Lower(term))
  {
    var i: nat :| OccursAt(text, term, i);
    assert Lower(text)[i..i + |term|] == Lower(term);
    assert OccursAt(Lower(text), Lower(term), i);
  }

  /** The search ignores letter case in the project: two projects whose fields
      agree once lower-cased pass or fail the same search together. */
  lemma SearchIgnoresFieldCase(p: Project, q: Project, term: string)
    requires Lower(p.title) == Lower(q.title) && Lower(p.client) == Lower(q.client)
    requires Lower(p.shortDescription) == Lower(q.shortDescription)
    requires Lower(p.fullDescription) == Lower(q.fullDescription)
    requires Lower(Join(p.techStack, " ")) == Lower(Join(q.techStack, " "))
    ensures Satisfies(p, Search(term)) <==> Satisfies(q, Search(term))
  {
    LowerSearchableText(p);
    LowerSearchableText(q);
  }

  /** A term holding an upper-case letter never matches, because the text it is
      sought in is lower-cased; hence the input handler lower-cases the term first. */
  lemma UpperCaseTermNeverMatches(p: Project, term: string, k: nat)
    requires k < |term| && 'A' <= term[k] <= 'Z'
    ensures !Satisfies(p, Search(term))
  {
    var text := Lower(SearchableText(p));
    forall i: nat | i + |term| <= |text|
      ensures !OccursAt(text, term, i)
    {
      assert text[i..i + |term|][k] == text[i + k] != term[k];
    }
  }
}
