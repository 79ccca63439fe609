/**
 * `GET /api/user/projects` (app/api/user/projects/route.ts): the signed-in user's
 * stored repositories as project cards.
 */
module ProjectsRoute {
  import opened Wrappers
  import opened Http
  import opened Models
  import GitHubApi

  /** `Project` (types/project.ts) */
  datatype Project = Project(
    id: string,
    name: string,
    description: Option<string>,
    languages: seq<string>,
    githubUrl: string,
    websiteUrl: Option<string>,
    thumbnailUrl: string)

  /** The `session` cookie: absent, not JSON, or a session naming a username. */
  datatype SessionCookie = NoCookie | Unparsable | Session(username: string)

  const ThumbnailPrefix := "/api/thumbnail/generate?repo="

  function DigitChar(d: nat): (c: char)
    requires d < 10
    ensures '0' <= c <= '9'
  {
    "0123456789"[d]
  }

  /** `_id.toString()`: document ids are modelled as numbers written in decimal. */
  function IdString(n: nat): (s: string)
    ensures s != [] && forall i :: 0 <= i < |s| ==> '0' <= s[i] <= '9'
  {
    if n < 10 then [DigitChar(n)] else IdString(n / 10) + [DigitChar(n % 10)]
  }

  /** The mapping of one record to a project. */
  function ProjectOf(r: StoredRepo): Project {
    Project(
      IdString(r.id),
      r.name,
      r.description,
      if Truthy(r.language) then [r.language.value] else [],
      r.url,
      r.homepage,
      if Truthy(r.thumbnailUrl) then r.thumbnailUrl.value else ThumbnailPrefix + IdString(r.id))
  }

  /** `Repository.find({ userId })`: the user's records, in table order. */
  function RecordsOf(rs: seq<StoredRepo>, userId: nat): (out: seq<StoredRepo>)
    ensures |out| <= |rs|
    ensures forall k :: 0 <= k < |out| ==> out[k] in rs && out[k].userId == userId
  {
    if rs == [] then []
    else if rs[0].userId == userId then [rs[0]] + RecordsOf(rs[1..], userId)
    else RecordsOf(rs[1..], userId)
  }

  /** `repositories.map(...)` */
  function ProjectsOf(rs: seq<StoredRepo>): seq<Project> {
    seq(|rs|, k requires 0 <= k < |rs| => ProjectOf(rs[k]))
  }

  /** The handler; a cookie that is not JSON throws and lands in the catch-all 500. */
  function GetProjects(cookie: SessionCookie, users: map<string, User>, repos: Table): Response<seq<Project>> {
    match cookie
    case NoCookie => Error(401, "Unauthorized")
    case Unparsable => Error(500, "Internal server error")
    case Session(username) =>
      if username !in users then Error(404, "User not found")
      else Json(ProjectsOf(RecordsOf(repos.records, users[username].id)))
  }

  // ----- properties -----

  /** The thumbnail is the stored one when truthy, else the generator URL with the record's id. */
  lemma ThumbnailFallback(r: StoredRepo)
    ensures Truthy(r.thumbnailUrl) ==> ProjectOf(r).thumbnailUrl == r.thumbnailUrl.value
    ensures !Truthy(r.thumbnailUrl) ==>
      ProjectOf(r).thumbnailUrl == ThumbnailPrefix + ProjectOf(r).id
      && |ProjectOf(r).thumbnailUrl| > |ThumbnailPrefix|
    ensures ProjectOf(r).thumbnailUrl != []
  {
  }

  /** `languages` is the one stored language when set, and empty otherwise. */
  lemma LanguagesOfProject(r: StoredRepo)
    ensures |ProjectOf(r).languages| <= 1
    ensures ProjectOf(r).languages == [] <==> !Truthy(r.language)
    ensures ProjectOf(r).languages != [] ==> r.language == Some(ProjectOf(r).languages[0])
  {
  }

  /**
   * What Mongoose's strict mode keeps of a record on save: the Repository schema declares
   * `languages` but no `language`, so the worker's `language` is dropped.
   */
  function StrictModeRecord(r: StoredRepo): StoredRepo {
    r.(language := None)
  }

  /**
   * As written: a record saved under strict mode has no `language`, so its project lists
   * no language, even when the worker created it from a repository that has one.
   */
  lemma AsWrittenProjectsListNoLanguage(r: StoredRepo, id: nat, userId: nat, g: GitHubApi.GitHubRepository)
    ensures ProjectOf(StrictModeRecord(r)).languages == []
    ensures ProjectOf(StrictModeRecord(Create(id, userId, FromGitHub(g)))).languages == []
  {
  }

  /** As intended: a record the worker creates keeps its language, and its project lists it. */
  lemma CreatedRecordListsItsLanguage(id: nat, userId: nat, g: GitHubApi.GitHubRepository)
    ensures Truthy(g.language) ==> ProjectOf(Create(id, userId, FromGitHub(g))).languages == [g.language.value]
    ensures !Truthy(g.language) ==> ProjectOf(Create(id, userId, FromGitHub(g))).languages == []
  {
  }

  /** Decimal ids are distinct for distinct records, so project ids are too. */
  lemma {:induction false} IdStringInjective(a: nat, b: nat)
    requires IdString(a) == IdString(b)
    ensures a == b
  {
    var sa := IdString(a);
    var sb := IdString(b);
    if a < 10 && b < 10 {
      assert DigitChar(a) == sa[0] == DigitChar(b);
    } else if a >= 10 && b >= 10 {
      assert sa == IdString(a / 10) + [DigitChar(a % 10)];
      assert sb == IdString(b / 10) + [DigitChar(b % 10)];
      assert IdString(a / 10) == sa[..|sa| - 1] == sb[..|sb| - 1] == IdString(b / 10);
      assert DigitChar(a % 10) == sa[|sa| - 1] == DigitChar(b % 10);
      IdStringInjective(a / 10, b / 10);
    }
  }

  /**
   * 401 without a cookie, 500 for a cookie that is not JSON, 404 for an unknown user;
   * otherwise one project per record of that user, in table order, each the mapping
   * `ProjectOf` whose languages and thumbnail the lemmas above give.
   */
  lemma ProjectsOutcome(cookie: SessionCookie, users: map<string, User>, repos: Table)
    ensures cookie.NoCookie? ==> GetProjects(cookie, users, repos) == Error(401, "Unauthorized")
    ensures cookie.Unparsable? ==> GetProjects(cookie, users, repos) == Error(500, "Internal server error")
    ensures cookie.Session? && cookie.username !in users ==> GetProjects(cookie, users, repos) == Error(404, "User not found")
    ensures cookie.Session? && cookie.username in users ==>
      var rs := RecordsOf(repos.records, users[cookie.username].id);
      var r := GetProjects(cookie, users, repos);
      && r.Json? && |r.body| == |rs|
      && forall k :: 0 <= k < |rs| ==>
           r.body[k] == ProjectOf(rs[k])
           && r.body[k].id == IdString(rs[k].id) && r.body[k].name == rs[k].name
           && r.body[k].description == rs[k].description
           && r.body[k].githubUrl == rs[k].url && r.body[k].websiteUrl == rs[k].homepage
  {
  }

  /** The user's records are exactly the table's records with that user id, order kept. */
  lemma {:induction false} RecordsOfAppend(a: seq<StoredRepo>, b: seq<StoredRepo>, userId: nat)
    ensures RecordsOf(a + b, userId) == RecordsOf(a, userId) + RecordsOf(b, userId)
  {
    if a == [] {
      assert a + b == b;
    } else {
      assert (a + b)[1..] == a[1..] + b;
      RecordsOfAppend(a[1..], b, userId);
    }
  }

  lemma {:induction false} RecordsOfMembership(rs: seq<StoredRepo>, userId: nat, r: StoredRepo)
    ensures r in RecordsOf(rs, userId) <==> r in rs && r.userId == userId
  {
    if rs != [] {
      RecordsOfMembership(rs[1..], userId, r);
    }
  }
}
