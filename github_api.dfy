/**
 * The result transforms of `fetchUserRepositories` and `fetchUserProfile` (lib/github.ts).
 * The Octokit calls are inputs: the API's answer, or the error it threw.
 */
module GitHubApi {
  import opened Wrappers

  /** An error raised by the GitHub API client. */
  datatype ApiError = ApiError(status: int, message: string)

  /** The fields of a `repos.listForUser` item that the transform reads. */
  datatype ApiRepo = ApiRepo(
    name: string,
    description: Option<string>,
    htmlUrl: string,
    homepage: Option<string>,
    stargazersCount: Option<int>,
    language: Option<string>,
    topics: Option<seq<string>>,
    fork: bool,
    private: bool)

  /** `GitHubRepository` */
  datatype GitHubRepository = GitHubRepository(
    name: string,
    description: Option<string>,
    url: string,
    homepage: Option<string>,
    stars: int,
    language: Option<string>,
    topics: seq<string>,
    isPublic: bool,
    isFeatured: bool,
    order: int)

  /** The fields of a `users.getByUsername` answer that the transform reads. */
  datatype ApiProfile = ApiProfile(
    login: string,
    name: Option<string>,
    bio: Option<string>,
    avatarUrl: string,
    company: Option<string>,
    location: Option<string>,
    blog: Option<string>,
    twitterUsername: Option<string>)

  /** `GitHubProfile` */
  datatype GitHubProfile = GitHubProfile(
    name: string,
    bio: Option<string>,
    avatar: string,
    company: Option<string>,
    location: Option<string>,
    blog: Option<string>,
    twitter: Option<string>)

  const RepositoriesError := "Failed to fetch repositories from GitHub"
  const ProfileError := "Failed to fetch user profile from GitHub"

  /** The filter of the listing: neither a fork nor private. */
  predicate IsKept(r: ApiRepo) {
    !r.fork && !r.private
  }

  /** The object literal of the `map`, with its `??` and `||` defaults. */
  function ToGitHubRepository(r: ApiRepo): GitHubRepository {
    GitHubRepository(
      r.name, r.description, r.htmlUrl, r.homepage,
      match r.stargazersCount case Some(n) => n case None => 0,
      r.language,
      match r.topics case Some(t) => t case None => [],
      !r.private, false, 0)
  }

  /** `repos.filter(repo => !repo.fork && !repo.private).map(...)` */
  function PublicSources(repos: seq<ApiRepo>): (out: seq<GitHubRepository>)
    ensures |out| <= |repos|
    ensures forall k :: 0 <= k < |out| ==> out[k].isPublic && !out[k].isFeatured && out[k].order == 0
  {
    if repos == [] then []
    else if IsKept(repos[0]) then [ToGitHubRepository(repos[0])] + PublicSources(repos[1..])
    else PublicSources(repos[1..])
  }

  /** `fetchUserRepositories`: the transformed listing, or the one fixed error. */
  function FetchUserRepositories(listing: Result<seq<ApiRepo>, ApiError>): Result<seq<GitHubRepository>, string> {
    match listing
    case Ok(repos) => Ok(PublicSources(repos))
    case Err(_) => Err(RepositoriesError)
  }

  /** `fetchUserProfile`: `name || login`, the other fields copied, or the one fixed error. */
  function FetchUserProfile(answer: Result<ApiProfile, ApiError>): Result<GitHubProfile, string> {
    match answer
    case Ok(p) => Ok(ProfileOf(p))
    case Err(_) => Err(ProfileError)
  }

  /** The profile object literal: `name || login`, everything else copied. */
  function ProfileOf(p: ApiProfile): GitHubProfile {
    GitHubProfile(
      if Truthy(p.name) then p.name.value else p.login,
      p.bio, p.avatarUrl, p.company, p.location, p.blog, p.twitterUsername)
  }

  // ----- properties -----

  /** The transform distributes over concatenation, so the output keeps the input's order. */
  lemma {:induction false} PublicSourcesAppend(a: seq<ApiRepo>, b: seq<ApiRepo>)
    ensures PublicSources(a + b) == PublicSources(a) + PublicSources(b)
  {
    if a != [] {
      assert (a + b)[1..] == a[1..] + b;
      PublicSourcesAppend(a[1..], b);
    } else {
      assert a + b == b;
    }
  }

  /** A repository is in the output exactly when some kept input repository maps to it. */
  lemma {:induction false} PublicSourcesMembership(repos: seq<ApiRepo>, g: GitHubRepository)
    ensures g in PublicSources(repos) <==> exists r :: r in repos && IsKept(r) && ToGitHubRepository(r) == g
  {
    if repos != [] {
      PublicSourcesMembership(repos[1..], g);
      assert forall r :: r in repos <==> r == repos[0] || r in repos[1..];
    }
  }

  /**
   * The output is as long as the input exactly when nothing was filtered out, and then
   * it is the input mapped element by element.
   */
  lemma {:induction false} PublicSourcesAllKept(repos: seq<ApiRepo>)
    ensures |PublicSources(repos)| == |repos| <==> forall k :: 0 <= k < |repos| ==> IsKept(repos[k])
    ensures (forall k :: 0 <= k < |repos| ==> IsKept(repos[k])) ==>
      forall k :: 0 <= k < |repos| ==> PublicSources(repos)[k] == ToGitHubRepository(repos[k])
  {
    if repos != [] {
      var tail := repos[1..];
      PublicSourcesAllKept(tail);
      assert forall k :: 1 <= k < |repos| ==> repos[k] == tail[k - 1];
      if forall k :: 0 <= k < |repos| ==> IsKept(repos[k]) {
        assert forall k :: 0 <= k < |tail| ==> IsKept(tail[k]) by {
          forall k | 0 <= k < |tail| ensures IsKept(tail[k]) { assert tail[k] == repos[k + 1]; }
        }
      }
      if |PublicSources(repos)| == |repos| {
        assert IsKept(repos[0]);
      }
    }
  }

  /** Any API failure surfaces as the one fixed message; success never drops a kept repository. */
  lemma FetchOutcomes(listing: Result<seq<ApiRepo>, ApiError>, answer: Result<ApiProfile, ApiError>)
    ensures FetchUserRepositories(listing).Err? <==> listing.Err?
    ensures listing.Err? ==> FetchUserRepositories(listing) == Err(RepositoriesError)
    ensures FetchUserProfile(answer).Err? <==> answer.Err?
    ensures answer.Err? ==> FetchUserProfile(answer) == Err(ProfileError)
  {
  }

  /** With a non-empty login the profile name is never empty. */
  lemma ProfileNameNonEmpty(p: ApiProfile)
    requires p.login != []
    ensures ProfileOf(p).name != []
  {
  }
}
