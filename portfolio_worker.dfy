/**
 * The portfolio-generation worker (workers/portfolioWorker.ts): it looks the user up,
 * fetches profile and repositories, copies three profile fields onto the user and
 * upserts every repository by (userId, name).
 */
module PortfolioWorker {
  import opened Wrappers
  import opened GitHubApi
  import opened Models

  const UserMissingError := "User not found or GitHub access token missing"

  /** The user and the access token the job needs, if both are present. */
  predicate HasUserAndToken(users: map<string, User>, username: string) {
    username in users && Truthy(users[username].githubAccessToken)
  }

  /** `user.name = userData.name; user.bio = userData.bio; user.avatar = userData.avatar` */
  function WithProfile(u: User, p: GitHubProfile): User {
    u.(name := Some(p.name), bio := p.bio, avatar := Some(p.avatar))
  }

  /** The upserts of the repository loop, one per fetched repository, in order. */
  function RepoPatches(repos: seq<GitHubRepository>): seq<Patch> {
    seq(|repos|, i requires 0 <= i < |repos| => FromGitHub(repos[i]))
  }

  /** What one run of the job does: its outcome, and the users and repository table after it. */
  datatype JobState = JobState(outcome: Result<(), string>, users: map<string, User>, repos: Table)

  /**
   * The job body. Both fetches are awaited together, so a failure of either throws before
   * anything is written; when both fail, the profile's error is the one reported.
   */
  function RunJob(users: map<string, User>, repos: Table, username: string,
                  profileAnswer: Result<ApiProfile, ApiError>,
                  listing: Result<seq<ApiRepo>, ApiError>): JobState
  {
    if !HasUserAndToken(users, username) then JobState(Err(UserMissingError), users, repos)
    else
      match (FetchUserProfile(profileAnswer), FetchUserRepositories(listing))
      case (Err(e), _) => JobState(Err(e), users, repos)
      case (Ok(_), Err(e)) => JobState(Err(e), users, repos)
      case (Ok(profile), Ok(fetched)) =>
        var u := users[username];
        JobState(Ok(()), users[username := WithProfile(u, profile)],
                 UpsertAll(repos, u.id, RepoPatches(fetched)))
  }

  /** The worker's handler, run against the database; an error is rethrown to the queue as `Err`. */
  method RunPortfolioJob(db: Database, username: string,
                         profileAnswer: Result<ApiProfile, ApiError>,
                         listing: Result<seq<ApiRepo>, ApiError>)
    returns (outcome: Result<(), string>)
    requires db.Valid()
    modifies db
    ensures db.Valid()
    ensures var s := RunJob(old(db.users), old(db.Repos()), username, profileAnswer, listing);
      outcome == s.outcome && db.users == s.users && db.Repos() == s.repos
  {
    if username !in db.users || !Truthy(db.users[username].githubAccessToken) {
      return Err(UserMissingError);
    }
    var user := db.users[username];
    var userData := FetchUserProfile(profileAnswer);
    var repositories := FetchUserRepositories(listing);
    if userData.Err? {
      return Err(userData.error);
    }
    if repositories.Err? {
      return Err(repositories.error);
    }
    db.SaveUser(WithProfile(user, userData.value));
    db.UpsertRepositories(user.id, RepoPatches(repositories.value));
    outcome := Ok(());
  }

  // ----- properties -----

  /** A missing user, a missing token or a failed fetch writes nothing and reports the error. */
  lemma FailureWritesNothing(users: map<string, User>, repos: Table, username: string,
                             profileAnswer: Result<ApiProfile, ApiError>, listing: Result<seq<ApiRepo>, ApiError>)
    ensures var s := RunJob(users, repos, username, profileAnswer, listing);
      s.outcome.Err? <==> !HasUserAndToken(users, username) || profileAnswer.Err? || listing.Err?
    ensures var s := RunJob(users, repos, username, profileAnswer, listing);
      s.outcome.Err? ==> s.users == users && s.repos == repos
    ensures !HasUserAndToken(users, username) ==>
      RunJob(users, repos, username, profileAnswer, listing).outcome == Err(UserMissingError)
  {
  }

  /**
   * On success the user gets name, bio and avatar from the profile and nothing else
   * changes about users; every repository's key is present afterwards, records of other
   * users and records of this user whose name was not fetched are untouched, and the
   * table stays free of duplicates.
   */
  lemma SuccessEffect(users: map<string, User>, repos: Table, username: string,
                      profileAnswer: Result<ApiProfile, ApiError>, listing: Result<seq<ApiRepo>, ApiError>)
    requires TableInvariant(repos)
    requires HasUserAndToken(users, username) && profileAnswer.Ok? && listing.Ok?
    ensures var s := RunJob(users, repos, username, profileAnswer, listing);
      var p := ProfileOf(profileAnswer.value);
      var u := users[username];
      var ps := RepoPatches(PublicSources(listing.value));
      && s.outcome == Ok(())
      && s.users.Keys == users.Keys
      && s.users[username] == u.(name := Some(p.name), bio := p.bio, avatar := Some(p.avatar))
      && (forall n :: n in users && n != username ==> s.users[n] == users[n])
      && TableInvariant(s.repos)
      && |repos.records| <= |s.repos.records|
      && (forall i :: 0 <= i < |repos.records| && (repos.records[i].userId != u.id || !NamedIn(repos.records[i].name, ps))
            ==> s.repos.records[i] == repos.records[i])
      && (forall g :: g in PublicSources(listing.value) ==> FindKey(s.repos.records, u.id, g.name).Some?)
  {
    var u := users[username];
    var fetched := PublicSources(listing.value);
    var ps := RepoPatches(fetched);
    UpsertAllValid(repos, u.id, ps);
    UpsertAllFrame(repos, u.id, ps);
    var s := RunJob(users, repos, username, profileAnswer, listing);
    forall g | g in fetched ensures FindKey(s.repos.records, u.id, g.name).Some? {
      var i :| 0 <= i < |fetched| && fetched[i] == g;
      UpsertAllKeyPresent(repos, u.id, ps, i);
    }
  }

  /**
   * Running the job again with the same answers, when the fetched repositories have
   * distinct names, leaves users and repository table exactly as the first run did.
   */
  lemma RerunIsIdempotent(users: map<string, User>, repos: Table, username: string,
                          profileAnswer: Result<ApiProfile, ApiError>, listing: Result<seq<ApiRepo>, ApiError>)
    requires listing.Ok? ==> DistinctNames(RepoPatches(PublicSources(listing.value)))
    ensures var s1 := RunJob(users, repos, username, profileAnswer, listing);
      var s2 := RunJob(s1.users, s1.repos, username, profileAnswer, listing);
      s2 == s1
  {
    var s1 := RunJob(users, repos, username, profileAnswer, listing);
    if s1.outcome.Ok? {
      var u := users[username];
      var ps := RepoPatches(PublicSources(listing.value));
      UpsertAllIdempotent(repos, u.id, ps);
      assert s1.users[username].id == u.id;
      assert s1.users[username := WithProfile(s1.users[username], ProfileOf(profileAnswer.value))] == s1.users;
    }
  }
}
