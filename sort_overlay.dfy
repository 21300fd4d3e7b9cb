/**
 * The sort dropdown of js/sortingGitRepo.js: the same `sortRepositories`, a
 * `SortSystem` whose dropdown (`show`) and page overlay (`active`) open and
 * close together, and a `sortChanged` listener that computes the sorted list
 * and drops it.
 */
module SortOverlay {
  import opened Wrappers
  import opened RepoGallery
  import SortMenu

  /** The `sortChanged` listener: the sorted copy is discarded, so the gallery stays as it was. */
  method OnSortChanged(gallery: Gallery, sortType: string)
    ensures unchanged(gallery)
  {
    if gallery.currentRepos.Some? {
      var sortedRepos := SortMenu.SortRepositories(gallery.currentRepos.value, sortType);
    }
  }

  class SortSystem {
    var currentSort: string
    /** The dropdown carries the `show` class. */
    var show: bool
    /** The overlay carries the `active` class. */
    var overlayActive: bool

    /** The dropdown is open exactly when the overlay is. */
    ghost predicate Valid()
      reads this
    {
      show == overlayActive
    }

    constructor ()
      ensures Valid() && currentSort == SortMenu.DefaultSort && !show && !overlayActive
    {
      currentSort := SortMenu.DefaultSort;
      show := false;
      overlayActive := false;
    }

    /** `toggleDropdown`, run by a click on the sort button. */
    method ToggleDropdown()
      requires Valid()
      modifies this`show, this`overlayActive
      ensures Valid()
      ensures show == !old(show)
    {
      show := !show;
      overlayActive := !overlayActive;
    }

    /** `closeDropdown`, run by a click on the overlay or outside the container. */
    method CloseDropdown()
      modifies this`show, this`overlayActive
      ensures Valid()
      ensures !show && !overlayActive
    {
      show := false;
      overlayActive := false;
    }

    /** A click on an option whose `data-sort` is `dataSort`. */
    method ClickOption(dataSort: string, gallery: Gallery)
      modifies this`currentSort, this`show, this`overlayActive
      ensures Valid()
      ensures currentSort == dataSort && !show
      ensures unchanged(gallery)
    {
      currentSort := dataSort;
      CloseDropdown();
      OnSortChanged(gallery, currentSort);
    }
  }
}
