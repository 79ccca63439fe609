/**
 * `POST /api/verify` (app/api/verify/route.ts): mark a user verified when the first gist
 * described `Git2Site Verification` holds the token as its first file's content.
 */
module VerifyRoute {
  import opened Wrappers
  import opened Http
  import opened GitHubApi
  import opened Models

  /** An element of `gists.list`. */
  datatype Gist = Gist(id: string, description: Option<string>)

  /** One entry of a gist's `files`, in the order `Object.values` yields them. */
  datatype GistFile = GistFile(content: Option<string>)

  /** The answer of `gists.get`: `files` may be null. */
  datatype GistContent = GistContent(files: Option<seq<GistFile>>)

  /** `gists.get({ gist_id })`, supplied by the caller. */
  type GistFetcher = string -> Result<GistContent, ApiError>

  const VerificationDescription := "Git2Site Verification"

  /** The route's answer: success, or an error status with its message. */
  datatype Outcome = Verified | Rejected(status: int, message: string)

  /** `gists.find(gist => gist.description === 'Git2Site Verification')` */
  function FindVerificationGist(gists: seq<Gist>): (g: Option<Gist>)
    ensures g.Some? ==> g.value in gists && g.value.description == Some(VerificationDescription)
    ensures g.Some? ==>
      exists k :: 0 <= k < |gists| && gists[k] == g.value &&
        forall i :: 0 <= i < k ==> gists[i].description != Some(VerificationDescription)
    ensures g.None? <==> forall i :: 0 <= i < |gists| ==> gists[i].description != Some(VerificationDescription)
  {
    if gists == [] then None
    else if gists[0].description == Some(VerificationDescription) then Some(gists[0])
    else
      var r := FindVerificationGist(gists[1..]);
      if r.Some? then
        ghost var k :| 0 <= k < |gists[1..]| && gists[1..][k] == r.value &&
          forall i :: 0 <= i < k ==> gists[1..][i].description != Some(VerificationDescription);
        assert gists[k + 1] == r.value;
        r
      else r
  }

  /** `Object.values(files)[0]?.content === verificationToken` */
  predicate FirstFileMatches(content: GistContent, token: string) {
    content.files.Some? && |content.files.value| > 0
    && content.files.value[0].content == Some(token)
  }

  /** The decision chain of the handler, before any write. */
  function Decide(users: map<string, User>, username: Option<string>, token: Option<string>,
                  gists: Result<seq<Gist>, ApiError>, fetchGist: GistFetcher): Outcome
  {
    if !Truthy(username) || !Truthy(token) then
      Rejected(400, "Username and verification token are required")
    else if username.value !in users then Rejected(404, "User not found")
    else if users[username.value].isVerified then Rejected(400, "User is already verified")
    else
      match gists
      case Err(_) => Rejected(500, "Verification process failed")
      case Ok(list) =>
        match FindVerificationGist(list)
        case None => Rejected(400, "Verification failed")
        case Some(g) =>
          match fetchGist(g.id)
          case Err(_) => Rejected(500, "Verification process failed")
          case Ok(content) =>
            if FirstFileMatches(content, token.value) then Verified
            else Rejected(400, "Verification failed")
  }

  /** The users after the request: the one write is `user.isVerified = true`. */
  function Transition(users: map<string, User>, username: Option<string>, outcome: Outcome): map<string, User>
    requires outcome.Verified? ==> username.Some? && username.value in users
  {
    if outcome.Verified? then users[username.value := users[username.value].(isVerified := true)]
    else users
  }

  /** The handler against the database. */
  method PostVerify(db: Database, username: Option<string>, token: Option<string>,
                    gists: Result<seq<Gist>, ApiError>, fetchGist: GistFetcher)
    returns (outcome: Outcome)
    requires db.Valid()
    modifies db
    ensures db.Valid() && db.Repos() == old(db.Repos())
    ensures outcome == Decide(old(db.users), username, token, gists, fetchGist)
    ensures outcome.Verified? ==> username.Some? && username.value in old(db.users)
    ensures db.users == Transition(old(db.users), username, outcome)
  {
    outcome := Decide(db.users, username, token, gists, fetchGist);
    if outcome.Verified? {
      var user := db.users[username.value];
      db.SaveUser(user.(isVerified := true));
    }
  }

  // ----- properties -----

  /**
   * A user is verified exactly when the request names an unverified user and the first
   * gist with the verification description has the token as its first file's content.
   */
  lemma VerifiedIff(users: map<string, User>, username: Option<string>, token: Option<string>,
                    gists: Result<seq<Gist>, ApiError>, fetchGist: GistFetcher)
    ensures Decide(users, username, token, gists, fetchGist).Verified? <==>
      && Truthy(username) && Truthy(token)
      && username.value in users && !users[username.value].isVerified
      && gists.Ok?
      && FindVerificationGist(gists.value).Some?
      && fetchGist(FindVerificationGist(gists.value).value.id).Ok?
      && FirstFileMatches(fetchGist(FindVerificationGist(gists.value).value.id).value, token.value)
  {
  }

  /** The guards: 400 for a missing field, 404 for an unknown user, 400 for a verified one; 500 for a failed gist call. */
  lemma GuardOutcomes(users: map<string, User>, username: Option<string>, token: Option<string>,
                      gists: Result<seq<Gist>, ApiError>, fetchGist: GistFetcher)
    ensures !Truthy(username) || !Truthy(token) ==>
      Decide(users, username, token, gists, fetchGist).Rejected? &&
      Decide(users, username, token, gists, fetchGist).status == 400
    ensures Truthy(username) && Truthy(token) && username.value !in users ==>
      Decide(users, username, token, gists, fetchGist) == Rejected(404, "User not found")
    ensures Truthy(username) && Truthy(token) && username.value in users && users[username.value].isVerified ==>
      Decide(users, username, token, gists, fetchGist) == Rejected(400, "User is already verified")
    ensures (Truthy(username) && Truthy(token) && username.value in users &&
             !users[username.value].isVerified && gists.Err?) ==>
      Decide(users, username, token, gists, fetchGist) == Rejected(500, "Verification process failed")
  {
  }

  /** Only a later gist matching does not help: the first described gist decides. */
  lemma FirstGistDecides(token: string)
    requires token != ""
    ensures var gists := [Gist("1", Some(VerificationDescription)), Gist("2", Some(VerificationDescription))];
      var fetch: GistFetcher := (id: string) =>
        if id == "1" then Ok(GistContent(Some([GistFile(Some(token + "x"))])))
        else Ok(GistContent(Some([GistFile(Some(token))])));
      var users := map["u" := User(0, "u", None, None, None, None, false, None)];
      Decide(users, Some("u"), Some(token), Ok(gists), fetch) == Rejected(400, "Verification failed")
  {
    var gists := [Gist("1", Some(VerificationDescription)), Gist("2", Some(VerificationDescription))];
    assert FindVerificationGist(gists) == Some(gists[0]);
    assert token + "x" != token by { assert |token + "x"| != |token|; }
  }

  /**
   * The transition only ever sets `isVerified` of the named user to true: no user is
   * un-verified, no other user and no other field changes.
   */
  lemma TransitionIsMonotone(users: map<string, User>, username: Option<string>, token: Option<string>,
                             gists: Result<seq<Gist>, ApiError>, fetchGist: GistFetcher)
    ensures var o := Decide(users, username, token, gists, fetchGist);
      var after := Transition(users, username, o);
      && after.Keys == users.Keys
      && (forall n :: n in users ==> (users[n].isVerified ==> after[n].isVerified))
      && (forall n :: n in users ==> after[n] == users[n] || (o.Verified? && username == Some(n) && !users[n].isVerified && after[n] == users[n].(isVerified := true)))
      && (o.Rejected? ==> after == users)
  {
  }
}
