/**
 * The repository-list controller of js/script.js (`RepoSystem`): the loaded
 * repositories, the active language filters, the current page and sort key,
 * and what the page shows of them -- the list of cards, the language tags
 * with their `active` marks, and the pagination bar.
 */
module RepoController {
  import opened Wrappers
  import opened Text
  import opened Sorting
  import opened Repos
  import opened Paging

  const DefaultPageSize := 24
  const MobilePageSize := 12
  /** The `(max-width: 768px)` media query. */
  const MobileMaxWidth := 768
  const DefaultSortKey := "stars"

  // ---------------------------------------------------------------------------
  // Search
  // ---------------------------------------------------------------------------

  /** Some topic of `repo`, lower-cased, contains `term`. */
  predicate TopicMatches(term: string, repo: Repo)
  {
    exists i :: 0 <= i < |repo.topics| && Contains(ToLower(repo.topics[i]), term)
  }

  /** The search test on a lower-cased term: name, description or some topic. */
  predicate MatchesSearch(term: string, repo: Repo)
  {
    || Contains(ToLower(repo.name), term)
    || (repo.description.Some? && Contains(ToLower(repo.description.value), term))
    || TopicMatches(term, repo)
  }

  /** The repositories of `repos` the search keeps, in their order. */
  function SearchResults(repos: seq<Repo>, term: string): (r: seq<Repo>)
    ensures forall x :: multiset(r)[x] == if MatchesSearch(term, x) then multiset(repos)[x] else 0
    ensures forall i :: 0 <= i < |r| ==> MatchesSearch(term, r[i])
    ensures multiset(r) <= multiset(repos)
    ensures IsSubsequence(r, repos)
  {
    Filter((x: Repo) => MatchesSearch(term, x), repos)
  }

  /** An empty search keeps every repository, in order. */
  lemma EmptySearchKeepsAll(repos: seq<Repo>)
    ensures SearchResults(repos, "") == repos
  {
    forall i | 0 <= i < |repos| ensures MatchesSearch("", repos[i]) {
      ContainsEmpty(ToLower(repos[i].name));
    }
    FilterAll((x: Repo) => MatchesSearch("", x), repos);
  }

  /**
   * With no language active, `applyFilters` sorts `allRepos` itself, so a
   * later search lists its hits in that order.
   */
  lemma SearchAfterSortIsOrdered(repos: seq<Repo>, key: SortKey, term: string)
    ensures OrderedBy(key, SearchResults(SortRepos(key, repos), term))
  {
    var sorted := SortRepos(key, repos);
    SubsequenceKeepsRelation((a: Repo, b: Repo) => InOrder(key, a, b), SearchResults(sorted, term), sorted);
  }

  /** A repository is among the results exactly when it is loaded and matches the term. */
  lemma SearchResultsMembers(repos: seq<Repo>, term: string, x: Repo)
    ensures x in SearchResults(repos, term) <==> x in repos && MatchesSearch(term, x)
  {
    var r := SearchResults(repos, term);
    assert x in r <==> multiset(r)[x] > 0;
    assert x in repos <==> multiset(repos)[x] > 0;
  }

  // ---------------------------------------------------------------------------
  // Language filter and facets
  // ---------------------------------------------------------------------------

  /** `activeLanguages.has(repo.language)`: a missing language is never active. */
  predicate InLanguages(active: set<string>, repo: Repo)
  {
    repo.language.Some? && repo.language.value in active
  }

  function LanguageFilter(active: set<string>, repos: seq<Repo>): (r: seq<Repo>)
    ensures forall x :: multiset(r)[x] == if InLanguages(active, x) then multiset(repos)[x] else 0
    ensures forall i :: 0 <= i < |r| ==> r[i].language.Some? && r[i].language.value in active
    ensures multiset(r) <= multiset(repos)
    ensures IsSubsequence(r, repos)
  {
    Filter((x: Repo) => InLanguages(active, x), repos)
  }

  /** The language is present and not the empty string (`filter(Boolean)`). */
  predicate HasLanguage(repo: Repo, l: string)
  {
    repo.language == Some(l) && l != ""
  }

  /** `repos.map(repo => repo.language).filter(Boolean)`. */
  function TruthyLanguages(repos: seq<Repo>): (r: seq<string>)
    ensures forall l :: l in r <==> exists i :: 0 <= i < |repos| && HasLanguage(repos[i], l)
  {
    if repos == [] then []
    else
      var rest := TruthyLanguages(repos[1..]);
      assert forall l, i :: 0 <= i < |repos| - 1 && HasLanguage(repos[1..][i], l) ==> HasLanguage(repos[i + 1], l);
      var repo := repos[0];
      if repo.language.Some? && repo.language.value != "" then [repo.language.value] + rest else rest
  }

  lemma LexLessIsStrictOrder()
    ensures StrictOrder((a: string, b: string) => LexLess(a, b))
  {
    forall a: string ensures !LexLess(a, a) {
      LexLessIrreflexive(a);
    }
    forall a: string, b: string, c: string | LexLess(a, b) && LexLess(b, c) ensures LexLess(a, c) {
      LexLessTransitive(a, b, c);
    }
  }

  /**
   * The labels of the language tags after "All": `new Set(languages.sort())`,
   * the distinct present languages in increasing order.
   */
  function LanguageFacets(repos: seq<Repo>): (f: seq<string>)
    ensures forall l :: l in f <==> exists i :: 0 <= i < |repos| && HasLanguage(repos[i], l)
    ensures forall i, j :: 0 <= i < j < |f| ==> LexLess(f[i], f[j])
  {
    var lt := (a: string, b: string) => LexLess(a, b);
    var truthy := TruthyLanguages(repos);
    var sorted := StableSort(lt, truthy);
    assert forall l :: l in sorted <==> l in truthy by {
      forall l ensures l in sorted <==> l in truthy {
        assert l in sorted <==> l in multiset(sorted);
      }
    }
    LexLessIsStrictOrder();
    StableSortSorted(lt, truthy);
    DistinctSorted(lt, sorted);
    var f := Distinct(sorted);
    forall i, j | 0 <= i < j < |f| ensures LexLess(f[i], f[j]) {
      LexLessTotal(f[i], f[j]);
    }
    f
  }

  /** Facets depend only on which languages occur, so re-ordering the repositories keeps them. */
  lemma FacetsOfPermutation(a: seq<Repo>, b: seq<Repo>)
    requires multiset(a) == multiset(b)
    ensures forall l :: l in LanguageFacets(a) <==> l in LanguageFacets(b)
  {
    forall l ensures l in LanguageFacets(a) <==> l in LanguageFacets(b) {
      if l in LanguageFacets(a) {
        var i :| 0 <= i < |a| && HasLanguage(a[i], l);
        assert a[i] in multiset(b);
        var j :| 0 <= j < |b| && b[j] == a[i];
      }
      if l in LanguageFacets(b) {
        var j :| 0 <= j < |b| && HasLanguage(b[j], l);
        assert b[j] in multiset(a);
        var i :| 0 <= i < |a| && a[i] == b[j];
      }
    }
  }

  // ---------------------------------------------------------------------------
  // Tags
  // ---------------------------------------------------------------------------

  datatype Tag = AllTag | LanguageTag(language: string)

  /** The active languages after a click on `tag`. */
  function Toggle(active: set<string>, tag: Tag): (r: set<string>)
    ensures tag == AllTag ==> r == {}
    ensures tag.LanguageTag? ==> (tag.language in r <==> tag.language !in active)
    ensures tag.LanguageTag? ==> forall l :: l != tag.language ==> (l in r <==> l in active)
  {
    match tag
    case AllTag => {}
    case LanguageTag(l) => if l in active then active - {l} else active + {l}
  }

  /** Clicking the same language tag twice restores the filter. */
  lemma ToggleTwice(active: set<string>, l: string)
    ensures Toggle(Toggle(active, LanguageTag(l)), LanguageTag(l)) == active
  {
    var once := Toggle(active, LanguageTag(l));
    assert forall m :: m in Toggle(once, LanguageTag(l)) <==> m in active;
  }

  /** `applyFilters`: the list to show, and `allRepos` after it (sorted in place when no filter is active). */
  ghost predicate FiltersApplied(before: seq<Repo>, active: set<string>, sortKey: string,
                                 after: seq<Repo>, filtered: seq<Repo>)
  {
    if active == {} then
      after == SortRepos(ParseSortKey(sortKey), before) && filtered == after
    else
      after == before && filtered == SortRepos(ParseSortKey(sortKey), LanguageFilter(active, before))
  }

  // ---------------------------------------------------------------------------
  // Rendering
  // ---------------------------------------------------------------------------

  /** The pagination bar: page `page` of `total`, and whether Previous and Next are disabled. */
  datatype Pager = Pager(page: int, total: nat, previousDisabled: bool, nextDisabled: bool)

  /** `renderPagination`: no bar for at most one page. */
  function PagerFor(count: nat, perPage: nat, page: int): (p: Option<Pager>)
    requires perPage > 0
    ensures p.None? <==> count <= perPage
    ensures p.Some? ==> p.value.total == PageCount(count, perPage) >= 2
    ensures p.Some? ==> (p.value.previousDisabled <==> page == 1)
    ensures p.Some? ==> (p.value.nextDisabled <==> page == p.value.total)
  {
    var total := PageCount(count, perPage);
    if total <= 1 then None else Some(Pager(page, total, page == 1, page == total))
  }

  datatype Listing = NotRendered | Cards(repos: seq<Repo>) | NoMatches

  /** `render`: the cards of the current page, or the no-match message when it is empty. */
  function ListingFor(repos: seq<Repo>, page: nat, perPage: nat): (l: Listing)
    requires 1 <= page && perPage > 0
    ensures l == NoMatches <==> PageCount(|repos|, perPage) < page
    ensures l.Cards? ==> l.repos == PageOf(repos, page, perPage)
  {
    PageNonEmpty(repos, page, perPage);
    var shown := PageOf(repos, page, perPage);
    if shown == [] then NoMatches else Cards(shown)
  }

  /** What the page shows. */
  datatype Phase = Loading | NoRepositories | Ready

  class RepoSystem {
    var allRepos: seq<Repo>
    var activeLanguages: set<string>
    var reposPerPage: nat
    var currentPage: int
    var currentFilteredRepos: seq<Repo>
    var currentSortKey: string

    var phase: Phase
    /** Labels of the language tags, after the "All" tag. */
    var languageTags: seq<string>
    /** Language tags carrying the `active` class. */
    var activeTags: set<string>
    /** The "All" tag carries the `active` class. */
    var allTagActive: bool
    var listing: Listing
    var pager: Option<Pager>

    ghost predicate Valid()
      reads this
    {
      && reposPerPage > 0
      && 1 <= currentPage
      && (currentPage == 1 || currentPage <= PageCount(|currentFilteredRepos|, reposPerPage))
      && activeTags == activeLanguages
      && (forall l :: l in activeLanguages ==> l in languageTags)
      && (phase == Loading ==> |allRepos| == 0 && |currentFilteredRepos| == 0)
      && (phase != Ready ==> |languageTags| == 0 && |activeLanguages| == 0)
      && (phase == Ready ==>
            && allTagActive == (activeLanguages == {})
            && listing == ListingFor(currentFilteredRepos, currentPage, reposPerPage)
            && pager == PagerFor(|currentFilteredRepos|, reposPerPage, currentPage))
    }

    constructor ()
      ensures Valid() && phase == Loading
      ensures allRepos == [] && activeLanguages == {} && currentFilteredRepos == []
      ensures reposPerPage == DefaultPageSize && currentPage == 1 && currentSortKey == DefaultSortKey
      ensures listing == NotRendered && pager == None
    {
      allRepos := [];
      activeLanguages := {};
      reposPerPage := DefaultPageSize;
      currentPage := 1;
      currentFilteredRepos := [];
      currentSortKey := DefaultSortKey;
      phase := Loading;
      languageTags := [];
      activeTags := {};
      allTagActive := false;
      listing := NotRendered;
      pager := None;
    }

    /**
     * `init(repos)`; `None` is an absent list. `viewportWidth` decides the
     * media query of `calculateInitialReposPerPage`.
     */
    method Init(repos: Option<seq<Repo>>, viewportWidth: nat)
      requires Valid() && phase == Loading
      modifies this`phase, this`reposPerPage, this`allRepos, this`currentFilteredRepos
      modifies this`languageTags, this`allTagActive, this`listing, this`pager
      ensures Valid()
      ensures (repos.None? || repos.value == []) ==>
        && phase == NoRepositories
        && allRepos == old(allRepos) && currentFilteredRepos == old(currentFilteredRepos)
        && reposPerPage == old(reposPerPage)
        && languageTags == old(languageTags) && allTagActive == old(allTagActive)
        && listing == old(listing) && pager == old(pager)
      ensures repos.Some? && repos.value != [] ==>
        && phase == Ready
        && reposPerPage == (if viewportWidth <= MobileMaxWidth then MobilePageSize else DefaultPageSize)
        && allRepos == SortRepos(Stars, repos.value)
        && multiset(allRepos) == multiset(repos.value)
        && (forall i, j :: 0 <= i < j < |allRepos| ==> allRepos[i].stars >= allRepos[j].stars)
        && currentFilteredRepos == allRepos
        && languageTags == LanguageFacets(allRepos)
    {
      if repos.None? || repos.value == [] {
        phase := NoRepositories;
        return;
      }
      var perPage := if viewportWidth <= MobileMaxWidth then MobilePageSize else DefaultPageSize;
      var sorted := SortRepos(Stars, repos.value);
      Load(perPage, sorted, LanguageFacets(sorted));
    }

    /** The body of `init` for a non-empty list, with the page size, sorted list and facets worked out. */
    method Load(perPage: nat, sorted: seq<Repo>, facets: seq<string>)
      requires Valid() && phase == Loading && perPage > 0
      modifies this`phase, this`reposPerPage, this`allRepos, this`currentFilteredRepos
      modifies this`languageTags, this`allTagActive, this`listing, this`pager
      ensures Valid() && phase == Ready
      ensures reposPerPage == perPage && allRepos == sorted && currentFilteredRepos == sorted
      ensures languageTags == facets
    {
      reposPerPage := perPage;
      allRepos := sorted;
      currentFilteredRepos := allRepos;
      languageTags := facets;
      allTagActive := true;
      phase := Ready;
      Render();
    }

    /** `render` and `renderPagination`. */
    method Render()
      requires reposPerPage > 0 && 1 <= currentPage
      modifies this`listing, this`pager
      ensures listing == ListingFor(currentFilteredRepos, currentPage, reposPerPage)
      ensures pager == PagerFor(|currentFilteredRepos|, reposPerPage, currentPage)
    {
      var shown := PageOf(currentFilteredRepos, currentPage, reposPerPage);
      listing := if shown == [] then NoMatches else Cards(shown);
      var totalPages := PageCount(|currentFilteredRepos|, reposPerPage);
      if totalPages <= 1 {
        pager := None;
      } else {
        pager := Some(Pager(currentPage, totalPages, currentPage == 1, currentPage == totalPages));
      }
    }

    /** The common tail of the search handler and `applyFilters`: show `filtered` from its first page. */
    method Show(filtered: seq<Repo>)
      requires Valid()
      requires phase == Loading ==> |filtered| == 0
      modifies this`currentFilteredRepos, this`currentPage, this`listing, this`pager
      ensures Valid()
      ensures currentFilteredRepos == filtered && currentPage == 1
    {
      currentFilteredRepos := filtered;
      currentPage := 1;
      Render();
    }

    /** The search box's input handler, with the text typed so far. */
    method Search(value: string)
      requires Valid() && phase == Ready
      modifies this`currentFilteredRepos, this`currentPage, this`listing, this`pager
      ensures Valid()
      ensures currentFilteredRepos == SearchResults(allRepos, ToLower(value))
      ensures currentPage == 1
    {
      var term := ToLower(value);
      Show(SearchResults(allRepos, term));
    }

    /** `filtered.sort(...)` when `filtered` is `allRepos` itself. */
    method SortAllInPlace(key: SortKey)
      requires Valid()
      modifies this`allRepos
      ensures Valid()
      ensures allRepos == SortRepos(key, old(allRepos))
      ensures multiset(allRepos) == multiset(old(allRepos)) && OrderedBy(key, allRepos)
    {
      allRepos := SortRepos(key, allRepos);
    }

    /** `applyFilters`. */
    method ApplyFilters()
      requires Valid()
      modifies this`allRepos, this`currentFilteredRepos, this`currentPage, this`listing, this`pager
      ensures Valid()
      ensures FiltersApplied(old(allRepos), activeLanguages, currentSortKey, allRepos, currentFilteredRepos)
      ensures multiset(allRepos) == multiset(old(allRepos))
      ensures currentPage == 1
    {
      var key := ParseSortKey(currentSortKey);
      if activeLanguages == {} {
        SortAllInPlace(key);
        Show(allRepos);
      } else {
        var filtered := LanguageFilter(activeLanguages, allRepos);
        Show(SortRepos(key, filtered));
      }
    }

    /** `sort(sortKey)`, called by the sort selector. */
    method Sort(sortKey: string)
      requires Valid()
      modifies this`currentSortKey, this`allRepos, this`currentFilteredRepos, this`currentPage
      modifies this`listing, this`pager
      ensures Valid()
      ensures currentSortKey == sortKey
      ensures FiltersApplied(old(allRepos), activeLanguages, sortKey, allRepos, currentFilteredRepos)
      ensures multiset(allRepos) == multiset(old(allRepos))
      ensures currentPage == 1
    {
      currentSortKey := sortKey;
      ApplyFilters();
    }

    /** The tag marks and filter set after a click, before `applyFilters`. */
    method MarkTag(tag: Tag)
      requires Valid() && phase == Ready
      requires tag.LanguageTag? ==> tag.language in languageTags
      modifies this`activeLanguages, this`activeTags, this`allTagActive
      ensures Valid()
      ensures activeLanguages == Toggle(old(activeLanguages), tag)
    {
      match tag {
        case AllTag =>
          activeLanguages := {};
          activeTags := {};
          allTagActive := true;
        case LanguageTag(l) =>
          if l in activeTags {
            activeTags := activeTags - {l};
          } else {
            activeTags := activeTags + {l};
          }
          if l in activeTags {
            activeLanguages := activeLanguages + {l};
          } else {
            activeLanguages := activeLanguages - {l};
          }
          allTagActive := false;
      }
      if |activeLanguages| == 0 {
        allTagActive := true;
      }
    }

    /** A click on a filter tag; only tags that were drawn can be clicked. */
    method ClickTag(tag: Tag)
      requires Valid() && phase == Ready
      requires tag.LanguageTag? ==> tag.language in languageTags
      modifies this`activeLanguages, this`activeTags, this`allTagActive
      modifies this`allRepos, this`currentFilteredRepos, this`currentPage, this`listing, this`pager
      ensures Valid()
      ensures activeLanguages == Toggle(old(activeLanguages), tag)
      ensures allTagActive <==> activeLanguages == {}
      ensures FiltersApplied(old(allRepos), activeLanguages, currentSortKey, allRepos, currentFilteredRepos)
      ensures multiset(allRepos) == multiset(old(allRepos))
      ensures currentPage == 1
    {
      MarkTag(tag);
      ApplyFilters();
    }

    /** The Next button; a disabled or absent button does nothing. */
    method ClickNext()
      requires Valid() && phase == Ready
      modifies this`currentPage, this`listing, this`pager
      ensures Valid()
      ensures old(pager).Some? && !old(pager).value.nextDisabled ==> currentPage == old(currentPage) + 1
      ensures !(old(pager).Some? && !old(pager).value.nextDisabled) ==> currentPage == old(currentPage)
      ensures 1 <= currentPage <= Max1(PageCount(|currentFilteredRepos|, reposPerPage))
    {
      if pager.Some? && !pager.value.nextDisabled {
        currentPage := currentPage + 1;
        Render();
      }
    }

    /** The Previous button; a disabled or absent button does nothing. */
    method ClickPrevious()
      requires Valid() && phase == Ready
      modifies this`currentPage, this`listing, this`pager
      ensures Valid()
      ensures old(pager).Some? && !old(pager).value.previousDisabled ==> currentPage == old(currentPage) - 1
      ensures !(old(pager).Some? && !old(pager).value.previousDisabled) ==> currentPage == old(currentPage)
      ensures 1 <= currentPage <= Max1(PageCount(|currentFilteredRepos|, reposPerPage))
    {
      if pager.Some? && !pager.value.previousDisabled {
        currentPage := currentPage - 1;
        Render();
      }
    }
  }

  function Max1(n: nat): nat
  {
    if n < 1 then 1 else n
  }
}
