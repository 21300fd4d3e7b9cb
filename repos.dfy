/**
 * A repository as the hosting API returns it, and the four orderings the page
 * offers (`Utils.sorting` in js/script.js, the `switch` of `sortRepositories`
 * in js/sort.js and js/sortingGitRepo.js).
 */
module Repos {
  import opened Wrappers
  import opened Text
  import opened Sorting

  /**
   * `stargazers_count`, `forks_count` and `updated_at` (as a millisecond
   * timestamp); `topics` is empty when the field is absent.
   */
  datatype Repo = Repo(
    name: string,
    description: Option<string>,
    topics: seq<string>,
    language: Option<string>,
    stars: nat,
    forks: nat,
    updated: int,
    fork: bool)

  /** `Unlisted` is any key with no comparator of its own. */
  datatype SortKey = Stars | Forks | Updated | Name | Unlisted

  function ParseSortKey(key: string): (k: SortKey)
    ensures key == "stars" ==> k == Stars
    ensures key == "forks" ==> k == Forks
    ensures key == "updated" ==> k == Updated
    ensures key == "name" ==> k == Name
    ensures k == Unlisted <==> key !in {"stars", "forks", "updated", "name"}
  {
    if key == "stars" then Stars
    else if key == "forks" then Forks
    else if key == "updated" then Updated
    else if key == "name" then Name
    else Unlisted
  }

  /** `a.name.localeCompare(b.name)`, on the plain order of characters. */
  function CompareNames(a: string, b: string): (c: int)
    ensures c < 0 <==> LexLess(a, b)
    ensures c == 0 <==> a == b
  {
    LexLessIrreflexive(a);
    if LexLess(a, b) then -1 else if a == b then 0 else 1
  }

  /**
   * The comparator's value: negative when `a` is to be shown before `b`, zero
   * when the key does not tell them apart.
   */
  function Compare(key: SortKey, a: Repo, b: Repo): (c: int)
    ensures key == Stars ==> (c < 0 <==> a.stars > b.stars) && (c == 0 <==> a.stars == b.stars)
    ensures key == Forks ==> (c < 0 <==> a.forks > b.forks) && (c == 0 <==> a.forks == b.forks)
    ensures key == Updated ==> (c < 0 <==> a.updated > b.updated) && (c == 0 <==> a.updated == b.updated)
    ensures key == Name ==> (c < 0 <==> LexLess(a.name, b.name)) && (c == 0 <==> a.name == b.name)
    ensures key == Unlisted ==> c == 0
  {
    match key
    case Stars => b.stars - a.stars
    case Forks => b.forks - a.forks
    case Updated => b.updated - a.updated
    case Name => CompareNames(a.name, b.name)
    case Unlisted => 0
  }

  predicate Before(key: SortKey, a: Repo, b: Repo)
  {
    Compare(key, a, b) < 0
  }

  lemma BeforeIsStrictOrder(key: SortKey)
    ensures StrictOrder((a: Repo, b: Repo) => Before(key, a, b))
  {
    forall a: Repo, b: Repo, c: Repo | Before(key, a, b) && Before(key, b, c)
      ensures Before(key, a, c)
    {
      if key == Name {
        LexLessTransitive(a.name, b.name, c.name);
      }
    }
  }

  /** Repositories the key cannot tell apart form classes: the order is a strict weak order. */
  lemma BeforeIsStrictWeakOrder(key: SortKey)
    ensures StrictWeakOrder((a: Repo, b: Repo) => Before(key, a, b))
  {
    BeforeIsStrictOrder(key);
    forall a: Repo, b: Repo, c: Repo | Before(key, a, c)
      ensures Before(key, a, b) || Before(key, b, c)
    {
      if key == Name && !LexLess(a.name, b.name) {
        if a.name == b.name {
        } else {
          LexLessTotal(a.name, b.name);
          LexLessTransitive(b.name, a.name, c.name);
        }
      }
    }
  }

  /** What each key promises about a repository shown before another. */
  predicate InOrder(key: SortKey, first: Repo, second: Repo)
  {
    match key
    case Stars => first.stars >= second.stars
    case Forks => first.forks >= second.forks
    case Updated => first.updated >= second.updated
    case Name => !LexLess(second.name, first.name)
    case Unlisted => true
  }

  predicate OrderedBy(key: SortKey, s: seq<Repo>)
  {
    forall i, j :: 0 <= i < j < |s| ==> InOrder(key, s[i], s[j])
  }

  lemma SortedByGivesOrderedBy(key: SortKey, s: seq<Repo>)
    requires SortedBy((a: Repo, b: Repo) => Before(key, a, b), s)
    ensures OrderedBy(key, s)
  {
    forall i, j | 0 <= i < j < |s| ensures InOrder(key, s[i], s[j]) {
      assert !Before(key, s[j], s[i]);
    }
  }

  /**
   * `[...repos].sort(comparator)` (or the in-place sort of an array holding
   * `repos`): a permutation, in the key's order, and a stable one, so an
   * unlisted key leaves the order alone.
   */
  function SortRepos(key: SortKey, repos: seq<Repo>): (r: seq<Repo>)
    ensures multiset(r) == multiset(repos)
    ensures |r| == |repos|
    ensures OrderedBy(key, r)
    ensures key == Unlisted ==> r == repos
  {
    var lt := (a: Repo, b: Repo) => Before(key, a, b);
    BeforeIsStrictOrder(key);
    StableSortSorted(lt, repos);
    SortedByGivesOrderedBy(key, StableSort(lt, repos));
    if key == Unlisted then NoPrecedenceKeepsOrder(lt, repos); StableSort(lt, repos)
    else StableSort(lt, repos)
  }

  /** Re-sorting by the key already in force changes nothing. */
  lemma SortReposIdempotent(key: SortKey, repos: seq<Repo>)
    ensures SortRepos(key, SortRepos(key, repos)) == SortRepos(key, repos)
  {
    var lt := (a: Repo, b: Repo) => Before(key, a, b);
    BeforeIsStrictOrder(key);
    StableSortIdempotent(lt, repos);
  }

  /**
   * The sort is stable: repositories that tie with `x` under the key (equal
   * stars, equal forks, equal timestamps or equal names) keep their order.
   */
  lemma SortReposKeepsTies(key: SortKey, x: Repo, repos: seq<Repo>)
    ensures var ties := TiesWith((a: Repo, b: Repo) => Before(key, a, b), x);
      Filter(ties, SortRepos(key, repos)) == Filter(ties, repos)
  {
    var lt := (a: Repo, b: Repo) => Before(key, a, b);
    BeforeIsStrictWeakOrder(key);
    StableSortKeepsTies(lt, x, repos);
  }
}
