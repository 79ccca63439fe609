/**
 * The stored records (lib/models/user.ts, lib/models/repository.ts) and the
 * repository table that the worker and the sync route upsert into, keyed by
 * (userId, name).
 */
module Models {
  import opened Wrappers
  import GitHubApi

  /** A user document: the fields the core reads or writes. `selectedRepositories` keeps only the names. */
  datatype User = User(
    id: nat,
    username: string,
    name: Option<string>,
    bio: Option<string>,
    avatar: Option<string>,
    githubAccessToken: Option<string>,
    isVerified: bool,
    selectedRepositories: Option<seq<string>>)

  /** A repository document. */
  datatype StoredRepo = StoredRepo(
    id: nat,
    userId: nat,
    name: string,
    description: Option<string>,
    url: string,
    homepage: Option<string>,
    thumbnailUrl: Option<string>,
    languages: seq<string>,
    language: Option<string>,
    stars: int,
    forks: Option<int>)

  /** The record the sync route builds from fetched repository details. */
  datatype SyncRecord = SyncRecord(
    userId: nat,
    name: string,
    description: Option<string>,
    url: string,
    homepage: Option<string>,
    languages: seq<string>,
    stars: int,
    forks: int)

  /** The data an upsert writes: a worker's `GitHubRepository` or a sync route's record. */
  datatype Patch = FromGitHub(repo: GitHubApi.GitHubRepository) | FromSync(record: SyncRecord)

  function PatchName(p: Patch): string {
    match p
    case FromGitHub(g) => g.name
    case FromSync(s) => s.name
  }

  /**
   * Updating an existing record: the worker's `Object.assign(existingRepo, repo)` or the
   * sync route's field update. Fields the patch does not carry are kept.
   */
  function Apply(r: StoredRepo, p: Patch): StoredRepo {
    match p
    case FromGitHub(g) =>
      r.(name := g.name, description := g.description, url := g.url, homepage := g.homepage,
         stars := g.stars, language := g.language)
    case FromSync(s) =>
      r.(name := s.name, description := s.description, url := s.url, homepage := s.homepage,
         languages := s.languages, stars := s.stars, forks := Some(s.forks))
  }

  /** Inserting a new record: `Repository.create({...repo, userId})` or the upsert's insert. */
  function Create(id: nat, userId: nat, p: Patch): StoredRepo {
    match p
    case FromGitHub(g) =>
      StoredRepo(id, userId, g.name, g.description, g.url, g.homepage, None, [], g.language, g.stars, None)
    case FromSync(s) =>
      StoredRepo(id, userId, s.name, s.description, s.url, s.homepage, None, s.languages, None, s.stars, Some(s.forks))
  }

  /**
   * An update keeps what the incoming data does not carry: the record's id, its owner and
   * its thumbnail, and `forks` for the worker's data or `language` for the sync route's.
   * The name becomes the patch's name, which is the key the update was found by.
   */
  lemma ApplyKeepsUncarried(r: StoredRepo, p: Patch)
    ensures Apply(r, p).id == r.id && Apply(r, p).userId == r.userId
    ensures Apply(r, p).thumbnailUrl == r.thumbnailUrl
    ensures Apply(r, p).name == PatchName(p)
    ensures p.FromGitHub? ==> Apply(r, p).forks == r.forks && Apply(r, p).languages == r.languages
    ensures p.FromSync? ==> Apply(r, p).language == r.language
  {
  }

  /** The repository collection, in insertion order, with the next document id. */
  datatype Table = Table(records: seq<StoredRepo>, nextId: nat)

  predicate HasKey(r: StoredRepo, userId: nat, name: string) {
    r.userId == userId && r.name == name
  }

  /** No two records share a (userId, name) key, and ids are distinct and below `nextId`. */
  predicate TableInvariant(t: Table) {
    && (forall i, j :: 0 <= i < j < |t.records| ==>
          t.records[i].userId != t.records[j].userId || t.records[i].name != t.records[j].name)
    && (forall i, j :: 0 <= i < j < |t.records| ==> t.records[i].id != t.records[j].id)
    && (forall i :: 0 <= i < |t.records| ==> t.records[i].id < t.nextId)
  }

  /** `Repository.findOne({ userId, name })`: the position of the first record with that key. */
  function FindKey(rs: seq<StoredRepo>, userId: nat, name: string): (k: Option<nat>)
    ensures k.Some? ==> k.value < |rs| && HasKey(rs[k.value], userId, name)
    ensures k.Some? ==> forall i :: 0 <= i < k.value ==> !HasKey(rs[i], userId, name)
    ensures k.None? ==> forall i :: 0 <= i < |rs| ==> !HasKey(rs[i], userId, name)
  {
    if rs == [] then None
    else if HasKey(rs[0], userId, name) then Some(0)
    else match FindKey(rs[1..], userId, name)
      case Some(k) => Some(k + 1)
      case None => None
  }

  /** Insert-or-update keyed by (userId, the patch's name). */
  function Upsert(t: Table, userId: nat, p: Patch): Table {
    match FindKey(t.records, userId, PatchName(p))
    case Some(k) => Table(t.records[k := Apply(t.records[k], p)], t.nextId)
    case None => Table(t.records + [Create(t.nextId, userId, p)], t.nextId + 1)
  }

  /** The patches upserted one after another, in order. */
  function UpsertAll(t: Table, userId: nat, ps: seq<Patch>): Table
    decreases |ps|
  {
    if ps == [] then t else Upsert(UpsertAll(t, userId, ps[..|ps| - 1]), userId, ps[|ps| - 1])
  }

  predicate DistinctNames(ps: seq<Patch>) {
    forall i, j :: 0 <= i < j < |ps| ==> PatchName(ps[i]) != PatchName(ps[j])
  }

  // ----- one upsert -----

  /**
   * After an upsert the key is held by the updated record, or by a new record appended
   * with the next id; every other record keeps its place and its contents.
   */
  lemma UpsertEffect(t: Table, userId: nat, p: Patch)
    ensures var t' := Upsert(t, userId, p);
      var k := FindKey(t.records, userId, PatchName(p));
      && (k.Some? ==> |t'.records| == |t.records| && t'.nextId == t.nextId
                      && t'.records[k.value] == Apply(t.records[k.value], p))
      && (k.None? ==> |t'.records| == |t.records| + 1 && t'.nextId == t.nextId + 1
                      && t'.records[|t.records|] == Create(t.nextId, userId, p))
      && (forall i :: 0 <= i < |t.records| && !HasKey(t.records[i], userId, PatchName(p)) ==>
            t'.records[i] == t.records[i])
  {
  }

  /** An upsert keeps the table free of duplicate keys and ids. */
  lemma UpsertValid(t: Table, userId: nat, p: Patch)
    requires TableInvariant(t)
    ensures TableInvariant(Upsert(t, userId, p))
  {
    var t' := Upsert(t, userId, p);
    match FindKey(t.records, userId, PatchName(p))
    case Some(k) =>
      assert forall i :: 0 <= i < |t.records| ==>
        t'.records[i].id == t.records[i].id && t'.records[i].userId == t.records[i].userId
        && t'.records[i].name == t.records[i].name;
    case None =>
      assert forall i :: 0 <= i < |t.records| ==> t'.records[i] == t.records[i];
  }

  /** Upserting the same patch twice is the same as once. */
  lemma UpsertIdempotent(t: Table, userId: nat, p: Patch)
    ensures Upsert(Upsert(t, userId, p), userId, p) == Upsert(t, userId, p)
  {
    UpsertPatched(t, userId, p);
    PatchedIsFixed(Upsert(t, userId, p), userId, p);
  }

  // ----- idempotence of a whole run -----

  /** The record holding p's key already carries p's data. */
  predicate Patched(t: Table, userId: nat, p: Patch) {
    var k := FindKey(t.records, userId, PatchName(p));
    k.Some? && Apply(t.records[k.value], p) == t.records[k.value]
  }

  lemma PatchedIsFixed(t: Table, userId: nat, p: Patch)
    requires Patched(t, userId, p)
    ensures Upsert(t, userId, p) == t
  {
    var k := FindKey(t.records, userId, PatchName(p)).value;
    assert t.records[k := t.records[k]] == t.records;
  }

  lemma UpsertPatched(t: Table, userId: nat, p: Patch)
    ensures Patched(Upsert(t, userId, p), userId, p)
  {
    var t' := Upsert(t, userId, p);
    match FindKey(t.records, userId, PatchName(p))
    case Some(k) =>
      FindKeyAfterSameKeyUpdate(t.records, k, Apply(t.records[k], p), userId, PatchName(p));
    case None =>
      FindKeyAfterAppend(t.records, Create(t.nextId, userId, p), userId, PatchName(p));
  }

  /** Replacing a record by one with the same key does not move any key. */
  lemma {:induction false} FindKeyAfterSameKeyUpdate(rs: seq<StoredRepo>, j: nat, x: StoredRepo, userId: nat, name: string)
    requires j < |rs| && x.userId == rs[j].userId && x.name == rs[j].name
    ensures FindKey(rs[j := x], userId, name) == FindKey(rs, userId, name)
  {
    if rs != [] && j > 0 {
      assert rs[j := x][1..] == rs[1..][j - 1 := x];
      FindKeyAfterSameKeyUpdate(rs[1..], j - 1, x, userId, name);
    } else if rs != [] {
      assert rs[j := x][1..] == rs[1..];
    }
  }

  /** Appending a record finds an earlier key where it was, and a new key at the end. */
  lemma {:induction false} FindKeyAfterAppend(rs: seq<StoredRepo>, x: StoredRepo, userId: nat, name: string)
    ensures FindKey(rs, userId, name).Some? ==> FindKey(rs + [x], userId, name) == FindKey(rs, userId, name)
    ensures FindKey(rs, userId, name).None? && HasKey(x, userId, name) ==> FindKey(rs + [x], userId, name) == Some(|rs|)
    ensures FindKey(rs, userId, name).None? && !HasKey(x, userId, name) ==> FindKey(rs + [x], userId, name).None?
  {
    if rs != [] {
      assert (rs + [x])[1..] == rs[1..] + [x];
      FindKeyAfterAppend(rs[1..], x, userId, name);
    }
  }

  /** An upsert under another name leaves p's record where and as it was. */
  lemma UpsertOtherKeepsPatched(t: Table, userId: nat, p: Patch, q: Patch)
    requires PatchName(q) != PatchName(p) && Patched(t, userId, p)
    ensures Patched(Upsert(t, userId, q), userId, p)
  {
    var k := FindKey(t.records, userId, PatchName(p)).value;
    match FindKey(t.records, userId, PatchName(q))
    case Some(j) =>
      FindKeyAfterSameKeyUpdate(t.records, j, Apply(t.records[j], q), userId, PatchName(p));
    case None =>
      FindKeyAfterAppend(t.records, Create(t.nextId, userId, q), userId, PatchName(p));
  }

  lemma {:induction false} UpsertAllPatched(t: Table, userId: nat, ps: seq<Patch>)
    requires DistinctNames(ps)
    ensures forall i :: 0 <= i < |ps| ==> Patched(UpsertAll(t, userId, ps), userId, ps[i])
    decreases |ps|
  {
    if ps != [] {
      var init := ps[..|ps| - 1];
      var last := ps[|ps| - 1];
      UpsertAllPatched(t, userId, init);
      var mid := UpsertAll(t, userId, init);
      UpsertPatched(mid, userId, last);
      forall i | 0 <= i < |ps| - 1 ensures Patched(UpsertAll(t, userId, ps), userId, ps[i]) {
        assert ps[i] == init[i];
        UpsertOtherKeepsPatched(mid, userId, ps[i], last);
      }
    }
  }

  lemma {:induction false} UpsertAllFixed(t: Table, userId: nat, ps: seq<Patch>)
    requires forall i :: 0 <= i < |ps| ==> Patched(t, userId, ps[i])
    ensures UpsertAll(t, userId, ps) == t
    decreases |ps|
  {
    if ps != [] {
      var init := ps[..|ps| - 1];
      assert forall i :: 0 <= i < |init| ==> init[i] == ps[i];
      UpsertAllFixed(t, userId, init);
      PatchedIsFixed(t, userId, ps[|ps| - 1]);
    }
  }

  /** Re-running the same distinct-named patches changes nothing: no new record, no changed record. */
  lemma UpsertAllIdempotent(t: Table, userId: nat, ps: seq<Patch>)
    requires DistinctNames(ps)
    ensures UpsertAll(UpsertAll(t, userId, ps), userId, ps) == UpsertAll(t, userId, ps)
  {
    UpsertAllPatched(t, userId, ps);
    UpsertAllFixed(UpsertAll(t, userId, ps), userId, ps);
  }

  // ----- a whole run: validity, untouched keys, growth -----

  lemma {:induction false} UpsertAllValid(t: Table, userId: nat, ps: seq<Patch>)
    requires TableInvariant(t)
    ensures TableInvariant(UpsertAll(t, userId, ps))
    decreases |ps|
  {
    if ps != [] {
      UpsertAllValid(t, userId, ps[..|ps| - 1]);
      UpsertValid(UpsertAll(t, userId, ps[..|ps| - 1]), userId, ps[|ps| - 1]);
    }
  }

  predicate NamedIn(name: string, ps: seq<Patch>) {
    exists i :: 0 <= i < |ps| && PatchName(ps[i]) == name
  }

  /** Every name of the first patches is a name of all of them. */
  lemma NamedInPrefix(ps: seq<Patch>, n: string)
    requires ps != [] && NamedIn(n, ps[..|ps| - 1])
    ensures NamedIn(n, ps)
  {
    var i :| 0 <= i < |ps| - 1 && PatchName(ps[..|ps| - 1][i]) == n;
    assert ps[i] == ps[..|ps| - 1][i];
  }

  /**
   * A run keeps every old record in its place, with its key and id; one whose key no
   * patch names is unchanged. The table grows by at most one record per patch.
   */
  lemma {:induction false} UpsertAllOldRecords(t: Table, userId: nat, ps: seq<Patch>)
    ensures var t' := UpsertAll(t, userId, ps);
      && |t.records| <= |t'.records| <= |t.records| + |ps|
      && (forall i :: 0 <= i < |t.records| ==>
            t'.records[i].userId == t.records[i].userId && t'.records[i].name == t.records[i].name
            && t'.records[i].id == t.records[i].id)
      && (forall i :: 0 <= i < |t.records| && (t.records[i].userId != userId || !NamedIn(t.records[i].name, ps)) ==>
            t'.records[i] == t.records[i])
    decreases |ps|
  {
    if ps != [] {
      var init := ps[..|ps| - 1];
      var last := ps[|ps| - 1];
      UpsertAllOldRecords(t, userId, init);
      var mid := UpsertAll(t, userId, init);
      var t' := Upsert(mid, userId, last);
      UpsertEffect(mid, userId, last);
      forall i | 0 <= i < |t.records| && (t.records[i].userId != userId || !NamedIn(t.records[i].name, ps))
        ensures t'.records[i] == t.records[i]
      {
        if t.records[i].userId == userId {
          if NamedIn(t.records[i].name, init) {
            NamedInPrefix(ps, t.records[i].name);
          }
          assert t.records[i].name != PatchName(ps[|ps| - 1]);
        }
      }
    }
  }

  /** Records beyond the old end are new: they belong to the user, carry a patched name, and that key was absent before. */
  lemma {:induction false} UpsertAllNewRecords(t: Table, userId: nat, ps: seq<Patch>)
    ensures var t' := UpsertAll(t, userId, ps);
      forall i :: |t.records| <= i < |t'.records| ==>
        t'.records[i].userId == userId && NamedIn(t'.records[i].name, ps)
        && FindKey(t.records, userId, t'.records[i].name).None?
    decreases |ps|
  {
    if ps != [] {
      var init := ps[..|ps| - 1];
      var last := ps[|ps| - 1];
      UpsertAllNewRecords(t, userId, init);
      UpsertAllOldRecords(t, userId, init);
      var mid := UpsertAll(t, userId, init);
      var t' := Upsert(mid, userId, last);
      UpsertEffect(mid, userId, last);
      var n := PatchName(last);
      assert NamedIn(n, ps) by { assert PatchName(ps[|ps| - 1]) == n; }
      forall x | NamedIn(x, init) ensures NamedIn(x, ps) {
        NamedInPrefix(ps, x);
      }
      assert FindKey(t.records, userId, n).Some? ==> FindKey(mid.records, userId, n).Some? by {
        if FindKey(t.records, userId, n).Some? {
          var k := FindKey(t.records, userId, n).value;
          assert HasKey(mid.records[k], userId, n);
        }
      }
    }
  }

  /**
   * A run keeps every old record in its place; one whose key no patch names is unchanged.
   * Records beyond the old end are new, belong to the user, carry a patched name, and
   * that key was absent before.
   */
  lemma UpsertAllFrame(t: Table, userId: nat, ps: seq<Patch>)
    ensures var t' := UpsertAll(t, userId, ps);
      && |t.records| <= |t'.records| <= |t.records| + |ps|
      && (forall i :: 0 <= i < |t.records| ==>
            t'.records[i].userId == t.records[i].userId && t'.records[i].name == t.records[i].name
            && t'.records[i].id == t.records[i].id)
      && (forall i :: 0 <= i < |t.records| && (t.records[i].userId != userId || !NamedIn(t.records[i].name, ps)) ==>
            t'.records[i] == t.records[i])
      && (forall i :: |t.records| <= i < |t'.records| ==>
            t'.records[i].userId == userId && NamedIn(t'.records[i].name, ps)
            && FindKey(t.records, userId, t'.records[i].name).None?)
  {
    UpsertAllOldRecords(t, userId, ps);
    UpsertAllNewRecords(t, userId, ps);
  }

  /** Every patched key is present after the run. */
  lemma {:induction false} UpsertAllKeyPresent(t: Table, userId: nat, ps: seq<Patch>, i: nat)
    requires i < |ps|
    ensures FindKey(UpsertAll(t, userId, ps).records, userId, PatchName(ps[i])).Some?
    decreases |ps|
  {
    var init := ps[..|ps| - 1];
    var last := ps[|ps| - 1];
    var mid := UpsertAll(t, userId, init);
    UpsertPatched(mid, userId, last);
    if i < |ps| - 1 {
      assert init[i] == ps[i];
      UpsertAllKeyPresent(t, userId, init, i);
      var k := FindKey(mid.records, userId, PatchName(ps[i])).value;
      UpsertEffect(mid, userId, last);
      assert HasKey(Upsert(mid, userId, last).records[k], userId, PatchName(ps[i]));
    }
  }

  /**
   * The database: user documents by username and the repository table. The routes and
   * the worker change it only through these methods.
   */
  class Database {
    var users: map<string, User>
    var repositories: seq<StoredRepo>
    var nextRepoId: nat

    ghost predicate Valid()
      reads this
    {
      && TableInvariant(Table(repositories, nextRepoId))
      && (forall n :: n in users ==> users[n].username == n)
    }

    function Repos(): Table
      reads this
    {
      Table(repositories, nextRepoId)
    }

    constructor (initialUsers: map<string, User>)
      requires forall n :: n in initialUsers ==> initialUsers[n].username == n
      ensures Valid()
      ensures users == initialUsers && repositories == [] && nextRepoId == 0
    {
      users := initialUsers;
      repositories := [];
      nextRepoId := 0;
    }

    /** `user.save()` */
    method SaveUser(u: User)
      requires Valid() && u.username in users
      modifies this
      ensures Valid()
      ensures users == old(users)[u.username := u]
      ensures Repos() == old(Repos())
    {
      users := users[u.username := u];
    }

    /** One upsert of the repository table. */
    method UpsertRepository(userId: nat, p: Patch)
      requires Valid()
      modifies this
      ensures Valid()
      ensures Repos() == Upsert(old(Repos()), userId, p)
      ensures users == old(users)
    {
      UpsertValid(Repos(), userId, p);
      var k := FindKey(repositories, userId, PatchName(p));
      match k
      case Some(i) =>
        repositories := repositories[i := Apply(repositories[i], p)];
      case None =>
        repositories := repositories + [Create(nextRepoId, userId, p)];
        nextRepoId := nextRepoId + 1;
    }

    /** The patches upserted one by one; the fan-out of `Promise.all` is run in order. */
    method UpsertRepositories(userId: nat, ps: seq<Patch>)
      requires Valid()
      modifies this
      ensures Valid()
      ensures Repos() == UpsertAll(old(Repos()), userId, ps)
      ensures users == old(users)
    {
      for i := 0 to |ps|
        invariant Valid()
        invariant Repos() == UpsertAll(old(Repos()), userId, ps[..i])
        invariant users == old(users)
      {
        assert ps[..i + 1][..i] == ps[..i];
        UpsertRepository(userId, ps[i]);
      }
      assert ps[..|ps|] == ps;
    }
  }
}
