/**
 * The older single-page gallery of js/githubAPI.js: the account's own
 * (non-fork) repositories with their languages, sorted by stars and shown as
 * cards, or an error page.
 */
module RepoGallery {
  import opened Wrappers
  import opened Text
  import opened Sorting
  import opened Repos
  import opened Paging
  import opened GitHubService

  /** A repository with `languages` set to the keys of its languages object. */
  datatype LangRepo = LangRepo(repo: Repo, languages: seq<string>)

  // ---------------------------------------------------------------------------
  // Pure steps of `fetchRepos`
  // ---------------------------------------------------------------------------

  /** `.filter(repo => !repo.fork)`. */
  function NonForks(repos: seq<Repo>): (r: seq<Repo>)
    ensures forall x :: multiset(r)[x] == if x.fork then 0 else multiset(repos)[x]
    ensures forall i :: 0 <= i < |r| ==> !r[i].fork
    ensures IsSubsequence(r, repos)
  {
    Filter((x: Repo) => !x.fork, repos)
  }

  /** The languages response yields its keys; a non-`ok` response is parsed all the same. */
  predicate LanguagesArrive(reply: Reply<seq<string>>)
  {
    reply.Answered? && reply.body.Parsed?
  }

  /**
   * `getReposWithLanguages`: each repository with the keys of its own
   * languages response; `None` when some request rejects (`Promise.all`
   * rejects with it).
   */
  function GetReposWithLanguages(repos: seq<Repo>, languagesOf: Repo -> Reply<seq<string>>)
    : (r: Option<seq<LangRepo>>)
    ensures r.Some? <==> forall i :: 0 <= i < |repos| ==> LanguagesArrive(languagesOf(repos[i]))
    ensures r.Some? ==> |r.value| == |repos|
    ensures r.Some? ==> forall i :: 0 <= i < |repos| ==>
              r.value[i] == LangRepo(repos[i], languagesOf(repos[i]).body.value)
  {
    if repos == [] then Some([])
    else
      var reply := languagesOf(repos[0]);
      var rest := GetReposWithLanguages(repos[1..], languagesOf);
      assert forall i :: 1 <= i < |repos| ==> repos[i] == repos[1..][i - 1];
      if !LanguagesArrive(reply) || rest.None? then None
      else Some([LangRepo(repos[0], reply.body.value)] + rest.value)
  }

  /** `[...repos].sort(comparator)` on repositories carrying languages, by the comparator of `key`. */
  function SortLangRepos(key: SortKey, repos: seq<LangRepo>): (r: seq<LangRepo>)
    ensures multiset(r) == multiset(repos)
    ensures forall i, j :: 0 <= i < j < |r| ==> InOrder(key, r[i].repo, r[j].repo)
    ensures key == Unlisted ==> r == repos
  {
    var lt := (a: LangRepo, b: LangRepo) => Before(key, a.repo, b.repo);
    LangOrderIsStrict(key);
    StableSortSorted(lt, repos);
    var sorted := StableSort(lt, repos);
    forall i, j | 0 <= i < j < |sorted| ensures InOrder(key, sorted[i].repo, sorted[j].repo) {
      assert !lt(sorted[j], sorted[i]);
    }
    if key == Unlisted then NoPrecedenceKeepsOrder(lt, repos); sorted else sorted
  }

  lemma LangOrderIsStrict(key: SortKey)
    ensures StrictOrder((a: LangRepo, b: LangRepo) => Before(key, a.repo, b.repo))
  {
    BeforeIsStrictOrder(key);
    var lt := (a: Repo, b: Repo) => Before(key, a, b);
    forall a: LangRepo, b: LangRepo, c: LangRepo | Before(key, a.repo, b.repo) && Before(key, b.repo, c.repo)
      ensures Before(key, a.repo, c.repo)
    {
      assert lt(a.repo, b.repo) && lt(b.repo, c.repo);
    }
  }

  /** `sortReposByStars`: a permutation with the star counts non-increasing. */
  function SortReposByStars(repos: seq<LangRepo>): (r: seq<LangRepo>)
    ensures multiset(r) == multiset(repos)
    ensures forall i, j :: 0 <= i < j < |r| ==> r[i].repo.stars >= r[j].repo.stars
  {
    SortLangRepos(Stars, repos)
  }

  // ---------------------------------------------------------------------------
  // Cards and icons
  // ---------------------------------------------------------------------------

  const DefaultIcon := "fas fa-code"

  /** `iconMap` of `getLanguageIcon`. */
  const IconMap: map<string, string> := map[
    "JavaScript" := "fab fa-js-square",
    "Python" := "fab fa-python",
    "Java" := "fab fa-java",
    "HTML" := "fab fa-html5",
    "CSS" := "fab fa-css3-alt",
    "PHP" := "fab fa-php",
    "Ruby" := "fab fa-ruby",
    "C++" := "fab fa-cuttlefish",
    "Swift" := "fab fa-swift",
    "Default" := DefaultIcon]

  /** The nine languages with an icon of their own. */
  const IconLanguages: set<string> := {"JavaScript", "Python", "Java", "HTML", "CSS", "PHP", "Ruby", "C++", "Swift"}

  /** `getLanguageIcon`: the mapped class, or the generic code icon. */
  function GetLanguageIcon(language: string): (c: string)
    ensures language in IconLanguages ==> c == IconMap[language]
    ensures c != DefaultIcon <==> language in IconLanguages
    ensures language in IconLanguages ==> StartsWith(c, "fab ")
  {
    if language in IconMap then IconMap[language] else DefaultIcon
  }

  datatype Icon = Icon(className: string, title: string)

  /** `addLanguageIcons`: one icon per language among the first five. */
  method AddLanguageIcons(languages: seq<string>) returns (icons: seq<Icon>)
    ensures |icons| == Min(5, |languages|)
    ensures forall i :: 0 <= i < |icons| ==> icons[i] == Icon(GetLanguageIcon(languages[i]), languages[i])
  {
    var firstFive := languages[..Min(5, |languages|)];
    icons := [];
    var k := 0;
    while k < |firstFive|
      invariant 0 <= k <= |firstFive|
      invariant |icons| == k
      invariant forall i :: 0 <= i < k ==> icons[i] == Icon(GetLanguageIcon(languages[i]), languages[i])
    {
      icons := icons + [Icon(GetLanguageIcon(firstFive[k]), firstFive[k])];
      k := k + 1;
    }
  }

  datatype Card = Card(name: string, description: string, icons: seq<Icon>,
                       stars: nat, forks: nat, animationDelayMs: nat)

  const NoDescription := "No description provided"

  /** The card `createRepoCard` draws for `repo` at position `index`. */
  ghost predicate IsCardFor(card: Card, repo: LangRepo, index: nat)
  {
    && card.name == repo.repo.name
    && card.description == (if repo.repo.description.Some? && repo.repo.description.value != ""
                            then repo.repo.description.value else NoDescription)
    && |card.icons| == Min(5, |repo.languages|)
    && (forall i :: 0 <= i < |card.icons| ==>
          card.icons[i] == Icon(GetLanguageIcon(repo.languages[i]), repo.languages[i]))
    && card.stars == repo.repo.stars && card.forks == repo.repo.forks
    && card.animationDelayMs == index * 50
  }

  method CreateRepoCard(repo: LangRepo, index: nat) returns (card: Card)
    ensures IsCardFor(card, repo, index)
  {
    var description := NoDescription;
    if repo.repo.description.Some? && repo.repo.description.value != "" {
      description := repo.repo.description.value;
    }
    var icons := AddLanguageIcons(repo.languages);
    card := Card(repo.repo.name, description, icons, repo.repo.stars, repo.repo.forks, index * 50);
  }

  // ---------------------------------------------------------------------------
  // The page
  // ---------------------------------------------------------------------------

  /** What `reposContainer` holds. */
  datatype View = Blank | CardList(cards: seq<Card>) | ErrorPage(heading: string, message: string)

  /** `showErrorPage`'s heading and text. */
  function ErrorPageFor(statusCode: int): (v: View)
    ensures v.ErrorPage?
    ensures statusCode == 404 <==> v.heading == "404"
    ensures statusCode == 404 ==> v.message == "Repositories not found"
    ensures statusCode != 404 ==> v.heading == "Error" && v.message == "Failed to load data"
  {
    if statusCode == 404 then ErrorPage("404", "Repositories not found")
    else ErrorPage("Error", "Failed to load data")
  }

  /** `error.status || 500`; the errors `fetch` and `json()` throw carry no status. */
  function CaughtStatus(status: Option<nat>): (s: nat)
    ensures s == 500 <==> status.None? || status.value == 0 || status.value == 500
    ensures status.Some? && status.value != 0 ==> s == status.value
  {
    if status.Some? && status.value != 0 then status.value else 500
  }

  class Gallery {
    /** `window.currentRepos`; `None` while it is unset. */
    var currentRepos: Option<seq<LangRepo>>
    var view: View
    var loaderHidden: bool

    constructor ()
      ensures currentRepos == None && view == Blank && !loaderHidden
    {
      currentRepos := None;
      view := Blank;
      loaderHidden := false;
    }

    /** `displayRepos`: the repositories become `currentRepos`, one card each, in order. */
    method DisplayRepos(repos: seq<LangRepo>)
      modifies this`currentRepos, this`view
      ensures currentRepos == Some(repos)
      ensures view.CardList? && |view.cards| == |repos|
      ensures forall i :: 0 <= i < |repos| ==> IsCardFor(view.cards[i], repos[i], i)
    {
      currentRepos := Some(repos);
      var fragment: seq<Card> := [];
      var index := 0;
      while index < |repos|
        invariant 0 <= index <= |repos|
        invariant currentRepos == Some(repos)
        invariant |fragment| == index
        invariant forall i :: 0 <= i < index ==> IsCardFor(fragment[i], repos[i], i)
      {
        var card := CreateRepoCard(repos[index], index);
        fragment := fragment + [card];
        index := index + 1;
      }
      view := CardList(fragment);
    }

    /** `showErrorPage`. */
    method ShowErrorPage(statusCode: int)
      modifies this`view, this`loaderHidden
      ensures view == ErrorPageFor(statusCode) && loaderHidden
    {
      view := ErrorPageFor(statusCode);
      loaderHidden := true;
    }

    /**
     * `fetchRepos`, with the list response given and `languagesOf(repo)` the
     * response to the request for `repo.languages_url`.
     */
    method FetchRepos(listReply: Reply<seq<Repo>>, languagesOf: Repo -> Reply<seq<string>>)
      modifies this
      ensures loaderHidden
      ensures listReply.Answered? && !listReply.ok ==>
        view == ErrorPageFor(listReply.status) && currentRepos == old(currentRepos)
      ensures listReply.Unreachable? || (listReply.ok && listReply.body.Malformed?) ==>
        view == ErrorPageFor(500) && currentRepos == old(currentRepos)
      ensures Delivers(listReply) ==>
        var withLanguages := GetReposWithLanguages(NonForks(listReply.body.value), languagesOf);
        && (withLanguages.None? ==> view == ErrorPageFor(500) && currentRepos == old(currentRepos))
        && (withLanguages.Some? ==>
              && currentRepos == Some(SortReposByStars(withLanguages.value))
              && view.CardList? && |view.cards| == |withLanguages.value|
              && forall i :: 0 <= i < |view.cards| ==> IsCardFor(view.cards[i], currentRepos.value[i], i))
    {
      if listReply.Unreachable? {
        ShowErrorPage(CaughtStatus(None));
      } else if !listReply.ok {
        ShowErrorPage(listReply.status);
      } else if listReply.body.Malformed? {
        ShowErrorPage(CaughtStatus(None));
      } else {
        var repos := NonForks(listReply.body.value);
        var withLanguages := GetReposWithLanguages(repos, languagesOf);
        if withLanguages.None? {
          ShowErrorPage(CaughtStatus(None));
        } else {
          var sortedRepos := SortReposByStars(withLanguages.value);
          currentRepos := Some(sortedRepos);
          DisplayRepos(sortedRepos);
        }
      }
      loaderHidden := true;
    }
  }
}
