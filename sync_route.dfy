/**
 * `POST /api/sync/repositories` (app/api/sync/repositories/route.ts): fetch the details of
 * every listed repository, then upsert one record per repository by (userId, name).
 */
module SyncRoute {
  import opened Wrappers
  import opened Http
  import opened GitHubApi
  import opened Models

  /** An element of the request's `repositories`: what the handler reads of it. */
  datatype RequestRepo = RequestRepo(ownerLogin: string, name: string)

  /** The answer of `fetchRepositoryDetails(owner, repo, token)`. */
  datatype RepoDetails = RepoDetails(
    name: string,
    description: Option<string>,
    url: string,
    homepage: Option<string>,
    languages: seq<string>,
    stars: int,
    forks: int)

  /** `fetchRepositoryDetails`, supplied by the caller: owner, repository name, access token. */
  type DetailsFetcher = (string, string, Option<string>) -> Result<RepoDetails, ApiError>

  const NotFound := "User not found"
  const SyncFailed := "Failed to sync repositories"

  /** The record literal built from one repository's details. */
  function ToRecord(userId: nat, d: RepoDetails): SyncRecord {
    SyncRecord(userId, d.name, d.description, d.url, d.homepage, d.languages, d.stars, d.forks)
  }

  /** The first `Promise.all`: every detail fetch, all-or-nothing. */
  function CollectRecords(repos: seq<RequestRepo>, userId: nat, token: Option<string>, fetch: DetailsFetcher)
    : (r: Result<seq<SyncRecord>, ApiError>)
    ensures r.Ok? <==> forall i :: 0 <= i < |repos| ==> fetch(repos[i].ownerLogin, repos[i].name, token).Ok?
    ensures r.Ok? ==> |r.value| == |repos|
    ensures r.Ok? ==> forall i :: 0 <= i < |repos| ==>
      r.value[i] == ToRecord(userId, fetch(repos[i].ownerLogin, repos[i].name, token).value)
  {
    if repos == [] then Ok([])
    else
      match fetch(repos[0].ownerLogin, repos[0].name, token)
      case Err(e) => Err(e)
      case Ok(d) =>
        match CollectRecords(repos[1..], userId, token, fetch)
        case Err(e) => Err(e)
        case Ok(rest) => Ok([ToRecord(userId, d)] + rest)
  }

  /** The upserts of the second `Promise.all`, one per record, in order. */
  function SyncPatches(records: seq<SyncRecord>): seq<Patch> {
    seq(|records|, i requires 0 <= i < |records| => FromSync(records[i]))
  }

  /** The response and the repository table after one request. */
  datatype SyncState = SyncState(response: Response<()>, repos: Table)

  function Sync(users: map<string, User>, repos: Table, username: string,
                requested: seq<RequestRepo>, fetch: DetailsFetcher): SyncState
  {
    if username !in users then SyncState(Error(404, NotFound), repos)
    else
      var u := users[username];
      match CollectRecords(requested, u.id, u.githubAccessToken, fetch)
      case Err(_) => SyncState(Error(500, SyncFailed), repos)
      case Ok(records) => SyncState(Json(()), UpsertAll(repos, u.id, SyncPatches(records)))
  }

  /** The handler: all fetches first, then the upserts, run in order. */
  method PostSync(db: Database, username: string, requested: seq<RequestRepo>, fetch: DetailsFetcher)
    returns (response: Response<()>)
    requires db.Valid()
    modifies db
    ensures db.Valid() && db.users == old(db.users)
    ensures var s := Sync(old(db.users), old(db.Repos()), username, requested, fetch);
      response == s.response && db.Repos() == s.repos
  {
    if username !in db.users {
      return Error(404, NotFound);
    }
    var user := db.users[username];
    var repoDetails := CollectRecords(requested, user.id, user.githubAccessToken, fetch);
    if repoDetails.Err? {
      return Error(500, SyncFailed);
    }
    db.UpsertRepositories(user.id, SyncPatches(repoDetails.value));
    response := Json(());
  }

  // ----- properties -----

  /** An unknown user is 404 and a failed detail fetch is 500, both with no write. */
  lemma FailuresWriteNothing(users: map<string, User>, repos: Table, username: string,
                             requested: seq<RequestRepo>, fetch: DetailsFetcher)
    ensures username !in users ==> Sync(users, repos, username, requested, fetch) == SyncState(Error(404, NotFound), repos)
    ensures (username in users &&
               exists i :: 0 <= i < |requested| &&
                 fetch(requested[i].ownerLogin, requested[i].name, users[username].githubAccessToken).Err?) ==>
      Sync(users, repos, username, requested, fetch) == SyncState(Error(500, SyncFailed), repos)
  {
  }

  /**
   * On success every requested repository's key (the user's id and the fetched name)
   * holds a record; records of other users, and records of this user whose name was not
   * fetched, are untouched; new records carry the user's id and a name that was absent before.
   */
  lemma SuccessEffect(users: map<string, User>, repos: Table, username: string,
                      requested: seq<RequestRepo>, fetch: DetailsFetcher)
    requires TableInvariant(repos) && username in users
    requires forall i :: 0 <= i < |requested| ==>
      fetch(requested[i].ownerLogin, requested[i].name, users[username].githubAccessToken).Ok?
    ensures var u := users[username];
      var s := Sync(users, repos, username, requested, fetch);
      var ps := SyncPatches(CollectRecords(requested, u.id, u.githubAccessToken, fetch).value);
      && s.response == Json(())
      && TableInvariant(s.repos)
      && |repos.records| <= |s.repos.records|
      && (forall i :: 0 <= i < |requested| ==>
            FindKey(s.repos.records, u.id,
                    fetch(requested[i].ownerLogin, requested[i].name, u.githubAccessToken).value.name).Some?)
      && (forall i :: 0 <= i < |repos.records| && (repos.records[i].userId != u.id || !NamedIn(repos.records[i].name, ps))
            ==> s.repos.records[i] == repos.records[i])
      && (forall i :: |repos.records| <= i < |s.repos.records| ==>
            s.repos.records[i].userId == u.id && FindKey(repos.records, u.id, s.repos.records[i].name).None?)
  {
    var u := users[username];
    var records := CollectRecords(requested, u.id, u.githubAccessToken, fetch).value;
    var ps := SyncPatches(records);
    UpsertAllValid(repos, u.id, ps);
    UpsertAllFrame(repos, u.id, ps);
    forall i | 0 <= i < |requested|
      ensures FindKey(UpsertAll(repos, u.id, ps).records, u.id,
                      fetch(requested[i].ownerLogin, requested[i].name, u.githubAccessToken).value.name).Some?
    {
      UpsertAllKeyPresent(repos, u.id, ps, i);
    }
  }

  /** A stored record carries exactly the fetched details of its repository and the user's id. */
  lemma {:induction false} StoredRecordFields(users: map<string, User>, repos: Table, username: string,
                           requested: seq<RequestRepo>, fetch: DetailsFetcher, i: nat)
    requires username in users && i < |requested|
    requires forall j :: 0 <= j < |requested| ==>
      fetch(requested[j].ownerLogin, requested[j].name, users[username].githubAccessToken).Ok?
    requires var ps := SyncPatches(CollectRecords(requested, users[username].id,
                                                  users[username].githubAccessToken, fetch).value);
      DistinctNames(ps)
    ensures var u := users[username];
      var d := fetch(requested[i].ownerLogin, requested[i].name, u.githubAccessToken).value;
      var s := Sync(users, repos, username, requested, fetch);
      var k := FindKey(s.repos.records, u.id, d.name);
      && k.Some?
      && var r := s.repos.records[k.value];
      && r.userId == u.id && r.name == d.name && r.description == d.description && r.url == d.url
      && r.homepage == d.homepage && r.languages == d.languages && r.stars == d.stars && r.forks == Some(d.forks)
  {
    var u := users[username];
    var records := CollectRecords(requested, u.id, u.githubAccessToken, fetch).value;
    var ps := SyncPatches(records);
    UpsertAllPatched(repos, u.id, ps);
    assert Patched(UpsertAll(repos, u.id, ps), u.id, ps[i]);
  }

  /** Syncing the same distinct-named repositories again changes nothing. */
  lemma ResyncIsIdempotent(users: map<string, User>, repos: Table, username: string,
                           requested: seq<RequestRepo>, fetch: DetailsFetcher)
    requires username in users
    requires var r := CollectRecords(requested, users[username].id, users[username].githubAccessToken, fetch);
      r.Ok? ==> DistinctNames(SyncPatches(r.value))
    ensures var s1 := Sync(users, repos, username, requested, fetch);
      Sync(users, s1.repos, username, requested, fetch) == s1
  {
    var u := users[username];
    var r := CollectRecords(requested, u.id, u.githubAccessToken, fetch);
    if r.Ok? {
      UpsertAllIdempotent(repos, u.id, SyncPatches(r.value));
    }
  }
}
