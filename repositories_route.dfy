/**
 * `GET /api/repositories` (app/api/repositories/route.ts): every repository of the
 * signed-in user, public or private, with its languages and whether the user selected it.
 */
module RepositoriesRoute {
  import opened Wrappers
  import opened Http
  import opened GitHubApi
  import opened Models

  /** An element of `repos.listForAuthenticatedUser`; forks and private repositories included. */
  datatype ListedRepo = ListedRepo(
    ownerLogin: string,
    name: string,
    description: Option<string>,
    private: bool,
    htmlUrl: string,
    homepage: Option<string>,
    stargazersCount: int,
    forksCount: int)

  /** The answer of `repos.listLanguages`: an object from language to byte count, in key order. */
  type Languages = seq<(string, int)>

  /** `repos.listLanguages({ owner, repo })`, supplied by the caller. */
  type LanguageLookup = (string, string) -> Result<Languages, ApiError>

  /** One element of the answer's `repositories`. */
  datatype RepoEntry = RepoEntry(
    name: string,
    description: Option<string>,
    isPrivate: bool,
    url: string,
    homepage: Option<string>,
    stars: int,
    forks: int,
    languages: seq<string>,
    isSelected: bool)

  const FetchFailed := "Failed to fetch repositories"

  /** `Object.keys(languages)` */
  function Keys(langs: Languages): seq<string> {
    seq(|langs|, k requires 0 <= k < |langs| => langs[k].0)
  }

  /** `user.selectedRepositories?.map(repo => repo.name) || []` */
  function SelectedNames(user: User): seq<string> {
    if user.selectedRepositories.Some? then user.selectedRepositories.value else []
  }

  function EntryOf(r: ListedRepo, langs: Languages, selected: seq<string>): RepoEntry {
    RepoEntry(r.name, r.description, r.private, r.htmlUrl, r.homepage, r.stargazersCount,
              r.forksCount, Keys(langs), r.name in selected)
  }

  /** Every repository has its languages looked up; one failed lookup fails the whole answer. */
  predicate AllLookupsSucceed(repos: seq<ListedRepo>, lookup: LanguageLookup) {
    forall k :: 0 <= k < |repos| ==> lookup(repos[k].ownerLogin, repos[k].name).Ok?
  }

  /** The `Promise.all` over the listed repositories, modelled in order. */
  function Entries(repos: seq<ListedRepo>, selected: seq<string>, lookup: LanguageLookup): (r: Result<seq<RepoEntry>, ApiError>)
    ensures r.Ok? <==> AllLookupsSucceed(repos, lookup)
    ensures r.Ok? ==> |r.value| == |repos|
    ensures r.Ok? ==> forall k :: 0 <= k < |repos| ==>
      r.value[k] == EntryOf(repos[k], lookup(repos[k].ownerLogin, repos[k].name).value, selected)
  {
    if repos == [] then Ok([])
    else
      var head := lookup(repos[0].ownerLogin, repos[0].name);
      if head.Err? then Err(head.error)
      else
        var tail := Entries(repos[1..], selected, lookup);
        if tail.Err? then
          assert !AllLookupsSucceed(repos[1..], lookup);
          Err(tail.error)
        else
          assert forall k :: 1 <= k < |repos| ==> repos[k] == repos[1..][k - 1];
          Ok([EntryOf(repos[0], head.value, selected)] + tail.value)
  }

  /** The handler; `auth` is the authenticated user, `listing` the first page of up to 100 repositories. */
  function GetRepositories(auth: Option<User>, listing: Result<seq<ListedRepo>, ApiError>,
                           lookup: LanguageLookup): Response<seq<RepoEntry>>
  {
    if auth.None? then Error(401, "Not authenticated")
    else if listing.Err? then Error(500, FetchFailed)
    else
      var entries := Entries(listing.value, SelectedNames(auth.value), lookup);
      if entries.Err? then Error(500, FetchFailed) else Json(entries.value)
  }

  // ----- properties -----

  /** No authenticated user gives 401, whatever the GitHub answers would have been. */
  lemma UnauthenticatedIsRejected(listing: Result<seq<ListedRepo>, ApiError>, lookup: LanguageLookup)
    ensures GetRepositories(None, listing, lookup) == Error(401, "Not authenticated")
  {
  }

  /** A failed listing or a single failed language lookup gives 500; nothing else does. */
  lemma FailureIff(user: User, listing: Result<seq<ListedRepo>, ApiError>, lookup: LanguageLookup)
    ensures GetRepositories(Some(user), listing, lookup) == Error(500, FetchFailed)
      <==> listing.Err? || !AllLookupsSucceed(listing.value, lookup)
    ensures GetRepositories(Some(user), listing, lookup).Json?
      <==> listing.Ok? && AllLookupsSucceed(listing.value, lookup)
  {
  }

  /**
   * On success: exactly one entry per listed repository in listed order, with the
   * language keys of its lookup, selected exactly when its name was stored as selected.
   */
  lemma EntriesFollowListing(user: User, repos: seq<ListedRepo>, lookup: LanguageLookup)
    requires AllLookupsSucceed(repos, lookup)
    ensures var r := GetRepositories(Some(user), Ok(repos), lookup);
      && r.Json? && |r.body| == |repos|
      && forall k :: 0 <= k < |repos| ==>
           && r.body[k].name == repos[k].name
           && r.body[k].description == repos[k].description
           && r.body[k].isPrivate == repos[k].private
           && r.body[k].url == repos[k].htmlUrl
           && r.body[k].homepage == repos[k].homepage
           && r.body[k].stars == repos[k].stargazersCount
           && r.body[k].forks == repos[k].forksCount
           && r.body[k].languages == Keys(lookup(repos[k].ownerLogin, repos[k].name).value)
           && (r.body[k].isSelected <==> repos[k].name in SelectedNames(user))
  {
  }

  /** With no stored selection every entry is unselected. */
  lemma NoSelectionSelectsNothing(user: User, repos: seq<ListedRepo>, lookup: LanguageLookup)
    requires user.selectedRepositories.None?
    ensures var r := GetRepositories(Some(user), Ok(repos), lookup);
      r.Json? ==> forall k :: 0 <= k < |r.body| ==> !r.body[k].isSelected
  {
  }

  /** Private repositories and forks are listed too: nothing is filtered, unlike the profile listing. */
  lemma PrivateRepositoriesAreListed(user: User, lookup: LanguageLookup)
    requires lookup("o", "p").Ok?
    ensures var r := GetRepositories(Some(user), Ok([ListedRepo("o", "p", None, true, "u", None, 0, 0)]), lookup);
      r.Json? && |r.body| == 1 && r.body[0].isPrivate
  {
    var repos := [ListedRepo("o", "p", None, true, "u", None, 0, 0)];
    assert AllLookupsSucceed(repos, lookup);
  }
}
