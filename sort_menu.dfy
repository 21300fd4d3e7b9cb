/**
 * The sort dropdown of js/sort.js: `sortRepositories`, the `SortSystem`
 * menu (its `currentSort` and the dropdown's `show` class) and the
 * `sortChanged` listener that redraws the gallery in the chosen order.
 */
module SortMenu {
  import opened Wrappers
  import opened Text
  import opened Sorting
  import opened Repos
  import opened RepoGallery

  /**
   * `sortRepositories(repos, sortType)`: a sorted copy; `'stars'`, `'forks'`
   * and `'updated'` descending, `'name'` ascending, anything else returns 0
   * from the comparator and leaves the order as it was.
   */
  function SortRepositories(repos: seq<LangRepo>, sortType: string): (r: seq<LangRepo>)
    ensures multiset(r) == multiset(repos)
    ensures sortType == "stars" ==> forall i, j :: 0 <= i < j < |r| ==> r[i].repo.stars >= r[j].repo.stars
    ensures sortType == "forks" ==> forall i, j :: 0 <= i < j < |r| ==> r[i].repo.forks >= r[j].repo.forks
    ensures sortType == "updated" ==> forall i, j :: 0 <= i < j < |r| ==> r[i].repo.updated >= r[j].repo.updated
    ensures sortType == "name" ==> forall i, j :: 0 <= i < j < |r| ==> !LexLess(r[j].repo.name, r[i].repo.name)
    ensures sortType !in {"stars", "forks", "updated", "name"} ==> r == repos
  {
    var key := ParseSortKey(sortType);
    var r := SortLangRepos(key, repos);
    assert forall i, j :: 0 <= i < j < |r| ==> InOrder(key, r[i].repo, r[j].repo);
    r
  }

  /** Choosing the order already shown changes nothing. */
  lemma SortRepositoriesIdempotent(repos: seq<LangRepo>, sortType: string)
    ensures SortRepositories(SortRepositories(repos, sortType), sortType) == SortRepositories(repos, sortType)
  {
    var key := ParseSortKey(sortType);
    var lt := (a: LangRepo, b: LangRepo) => Before(key, a.repo, b.repo);
    LangOrderIsStrict(key);
    StableSortIdempotent(lt, repos);
  }

  /**
   * The `sortChanged` listener: redraw `currentRepos` in the chosen order.
   * With `currentRepos` unset, `[...undefined]` throws and nothing changes.
   */
  method OnSortChanged(gallery: Gallery, sortType: string)
    modifies gallery`currentRepos, gallery`view
    ensures old(gallery.currentRepos).None? ==>
      gallery.currentRepos == old(gallery.currentRepos) && gallery.view == old(gallery.view)
    ensures old(gallery.currentRepos).Some? ==>
      && gallery.currentRepos == Some(SortRepositories(old(gallery.currentRepos).value, sortType))
      && gallery.view.CardList? && |gallery.view.cards| == |gallery.currentRepos.value|
      && forall i :: 0 <= i < |gallery.view.cards| ==>
           IsCardFor(gallery.view.cards[i], gallery.currentRepos.value[i], i)
  {
    if gallery.currentRepos.None? {
      return;
    }
    var sortedRepos := SortRepositories(gallery.currentRepos.value, sortType);
    gallery.DisplayRepos(sortedRepos);
  }

  const DefaultSort := "stars"

  class SortSystem {
    var currentSort: string
    /** The dropdown carries the `show` class. */
    var show: bool

    constructor ()
      ensures currentSort == DefaultSort && !show
    {
      currentSort := DefaultSort;
      show := false;
    }

    /** A click on the sort button (it does not reach the document's listener). */
    method ClickButton()
      modifies this`show
      ensures show == !old(show)
    {
      show := !show;
    }

    /** A click outside the sort container. */
    method ClickOutside()
      modifies this`show
      ensures !show
    {
      show := false;
    }

    /**
     * A click on an option whose `data-sort` is `dataSort`: the menu closes and
     * `sortChanged` is dispatched, which runs its listener at once.
     */
    method ClickOption(dataSort: string, gallery: Gallery)
      modifies this`currentSort, this`show, gallery`currentRepos, gallery`view
      ensures currentSort == dataSort && !show
      ensures old(gallery.currentRepos).None? ==>
        gallery.currentRepos == old(gallery.currentRepos) && gallery.view == old(gallery.view)
      ensures old(gallery.currentRepos).Some? ==>
        && gallery.currentRepos == Some(SortRepositories(old(gallery.currentRepos).value, dataSort))
        && gallery.view.CardList? && |gallery.view.cards| == |gallery.currentRepos.value|
        && forall i :: 0 <= i < |gallery.view.cards| ==>
             IsCardFor(gallery.view.cards[i], gallery.currentRepos.value[i], i)
    {
      currentSort := dataSort;
      show := false;
      OnSortChanged(gallery, currentSort);
    }
  }
}
