# git2site core, modelled in Dafny

git2site turns a GitHub account into a portfolio site. This is the Next.js application:
a form takes a GitHub URL or username, a background worker copies the profile and the
public repositories into MongoDB, route handlers serve and sync the stored repositories,
and a dashboard lets the owner select, feature and reorder projects. This project models
the parts of it that make decisions and proves what they promise.

- **Username extraction** (`GithubForm`, `QuickGenerate`, helpers in `Text` and `Urls`).
  There are two parsers. The form's parser normalises its input and accepts a
  GitHub-shaped username directly. Otherwise it parses a URL whose host contains
  `github.com`, and as a last resort it validates the text before the first slash.
  The quick parser wants the host to be exactly `github.com` and does no validation.
  - `MatchUnits` is a character-level matcher that follows the regex
    `^[a-zA-Z0-9](?:[a-zA-Z0-9]|-(?=[a-zA-Z0-9])){0,38}$`. It is proved equivalent to a
    declarative shape: 1 to 39 letters, digits and hyphens, starting with a letter or
    digit, with no trailing hyphen and no double hyphen.
  - Two example lemmas show where the parsers give different answers.
- **GitHub client transforms** (`GitHubApi`). They cover the fork and private filter,
  the defaulted fields, the profile name fallback, and the fixed error messages.
- **Repository table** (`Models`). The stored collection is a value `Table`. Its
  insert-or-update is keyed by (userId, name). The `Database` class holds users and
  repositories, and its methods are proved against `Upsert` and `UpsertAll`. The table
  invariant (no duplicate key, distinct ids), idempotence and the fact that other keys
  are untouched are proved about those functions.
- **Worker and routes.** `PortfolioWorker`, `SyncRoute`, `VerifyRoute`,
  `RepositoriesRoute`, `ProjectsRoute`, `PortfolioStatus` and `OgImage` each come as a
  pure decision function. Where the source writes to the database, a method runs
  against `Database` and is tied to that function.
- **Client state.** `Sidebar.SidebarState` is the sidebar's repository list with its
  loading and error state. `PortfolioStore.PortfolioStoreState` is the zustand store.
  `SpliceMove` reorders the repositories in place in a fresh array, as the two `splice`
  calls do, and is proved equal to the `Reorder` specification.

Network calls, the database driver, the WHATWG URL parser and page parsing are
parameters of the model. Examples: `UrlParser`, `DetailsFetcher`, `GistFetcher`,
`LanguageLookup`, `PageFetcher`, and the `Result` values standing for GitHub answers.

## Model

| member | source | states |
|---|---|---|
| Text.TrimStart | components/github-form.tsx:94 | the result is a suffix of the input; every removed character is ECMAScript white space; the result does not start with white space |
| Text.TrimEnd | components/quick-generate.tsx:78 | the result is a prefix of the input; every removed character is white space; the result does not end with white space |
| Text.StripTrailing | components/github-form.tsx:79 | `replace(/\/+$/, '')` removes exactly the trailing run of the character: the result is a prefix, everything removed is that character, and the result does not end with it |
| Text.BeforeFirst | components/github-form.tsx:79 | `split(c)[0]` is the longest prefix without `c`; when it is shorter than the input, `c` follows it |
| Text.RemoveFirst | components/github-form.tsx:94 | `replace('@', '')` leaves a string without `@` unchanged; otherwise it removes the `@` at the first index holding one and keeps everything before and after it |
| Text.Split | components/github-form.tsx:90 | `split` yields at least one piece, no piece contains the separator, and joining the pieces with the separator gives the input back |
| Text.SplitJoin | components/github-form.tsx:90 | the other half of the round trip: splitting a join of separator-free pieces gives those pieces back |
| Text.NonEmpty | components/github-form.tsx:90 | `filter(Boolean)` keeps exactly the non-empty pieces: a string is in the result iff it is a non-empty piece of the input |
| Text.NonEmptyAppend | components/github-form.tsx:90 | the filter distributes over concatenation, so the kept pieces stay in input order |
| Text.DropLeading | components/github-form.tsx:90 | the result is a suffix of the input, everything removed is the character, and the result does not start with it |
| Urls.FirstPathSegmentIsAfterSlashes | components/github-form.tsx:90-91 | `pathname.split('/').filter(Boolean)[0] \|\| null` is the text between the leading slashes and the next slash, or null when that text is empty |
| Urls.FirstPathSegmentShape | components/quick-generate.tsx:74-75 | a segment that is found is non-empty and holds no slash |
| Urls.NoSlashSegment | components/github-form.tsx:90-91 | a path without a slash is its own first segment, or null when empty |
| Urls.LeadingSlashSegment | components/github-form.tsx:90-91 | a leading slash only adds an empty piece, which the filter drops |
| Urls.InnerSlashSegment | components/github-form.tsx:90-91 | a non-empty piece before the first slash is the first segment |
| GithubForm.MatchUnitsIff | components/github-form.tsx:82 | the recursive matcher of the repeated group accepts exactly the strings of at most 38 characters that have the units shape |
| GithubForm.UsernamePatternIff | components/github-form.tsx:82 | the username regex accepts exactly the strings of length 1..39 that start with an ASCII letter or digit, hold only letters, digits and `-`, and have no trailing `-` and no `--` |
| GithubForm.StrayCharIsNoUsername | components/github-form.tsx:82 | a string holding a character other than an ASCII letter, a digit or `-` never matches the username pattern |
| GithubForm.UnitsShapeCons | components/github-form.tsx:82 | the units shape splits into its first unit (a letter or digit, or a hyphen before one) and the rest |
| GithubForm.NormalizeShape | components/github-form.tsx:79 | the normalised input holds no `?`, is a prefix of the input, and equals the input when that has no `?` and no trailing slash |
| GithubForm.NormalizeKeepsSlashBeforeQuery | components/github-form.tsx:79 | trailing slashes are stripped before the query is cut off, so `ab/?x` normalises to `ab/` |
| GithubForm.EmptyInputIsNull | components/github-form.tsx:76 | the empty input gives null and aborts the submission |
| GithubForm.DirectUsernameIsReturned | components/github-form.tsx:82-84 | a normalised input with the username shape is returned unchanged, whatever the URL parser would say |
| GithubForm.ForeignHostIsNull | components/github-form.tsx:87-88 | a parsed URL whose host name does not contain `github.com` gives null |
| GithubForm.GithubUrlGivesFirstSegment | components/github-form.tsx:88-91 | a URL whose host contains `github.com` gives its first non-empty path segment, or null |
| GithubForm.UrlSegmentIsNotValidated | components/github-form.tsx:90-91 | a segment taken from a URL is not checked against the pattern: `a_b` is returned |
| GithubForm.FallbackIsValidated | components/github-form.tsx:92-98 | when URL parsing fails, the candidate from the normalised input is returned exactly when it has the username shape, and null otherwise |
| GithubForm.FallbackCandidateShape | components/github-form.tsx:94 | the candidate holds no slash; it is the trimmed text before the first `/` when that has no `@`, and otherwise that text with its first `@` cut out and everything around it kept |
| GithubForm.FallbackRemovesInnerAt | components/github-form.tsx:94 | the removed `@` need not lead: `a@b` becomes `ab` |
| GithubForm.ResultShape | components/github-form.tsx:74-100 | a returned username is never empty and never holds a `/`; when the URL parser fails on the normalised input, it has the username shape |
| GithubForm.SubmitIffUsername | components/github-form.tsx:20-28 | a request is sent exactly when a username was extracted, and it carries that username; otherwise the submission aborts with "Invalid GitHub URL or username" |
| GithubForm.ExtractGithubUsername | components/github-form.tsx:74-100 | no contract of its own; specified by ResultShape, DirectUsernameIsReturned, ForeignHostIsNull, GithubUrlGivesFirstSegment and FallbackIsValidated |
| GithubForm.HandleSubmit | components/github-form.tsx:20-28 | no contract of its own; specified by SubmitIffUsername and EmptyInputIsNull |
| QuickGenerate.ParsedUrlNeedsExactHost | components/quick-generate.tsx:71-75 | a parsed URL is accepted only when its host is exactly `github.com`, and then its first segment is the result |
| QuickGenerate.FallbackIsUnvalidated | components/quick-generate.tsx:76-78 | when URL parsing fails, the result is the trimmed input with one leading `@` removed, without validation |
| QuickGenerate.FallbackKeepsSlash | components/quick-generate.tsx:78 | the fallback can return text with a slash: `a/b` is returned as it is |
| QuickGenerate.SubmitIffNonEmpty | components/quick-generate.tsx:20-29 | a request is sent exactly when the extracted username is a non-empty string, and it carries that username |
| QuickGenerate.BlankInputAborts | components/quick-generate.tsx:20-23 | input that is only white space gives the empty username and aborts with "Invalid GitHub URL" |
| QuickGenerate.ParsersDisagreeOnHost | components/quick-generate.tsx:72 | for `https://gist.github.com/a`, which a URL parser reads as host `gist.github.com` and path `/a`, the form's parser returns `a` and the quick parser returns null |
| QuickGenerate.ParsersDisagreeOnFallback | components/quick-generate.tsx:76-78 | for text that is not a URL, such as `a_b`, the form's parser returns null and the quick parser returns it |
| QuickGenerate.FormTakesGistUrl | components/github-form.tsx:87-91 | the form's parser takes the segment `a` of `https://gist.github.com/a` |
| QuickGenerate.QuickRefusesGistUrl | components/quick-generate.tsx:71-72 | the quick parser refuses `https://gist.github.com/a` |
| QuickGenerate.ExtractGitHubUsername | components/quick-generate.tsx:69-80 | no contract of its own; specified by ParsedUrlNeedsExactHost, FallbackIsUnvalidated and FallbackKeepsSlash |
| QuickGenerate.HandleSubmit | components/quick-generate.tsx:18-30 | no contract of its own; specified by SubmitIffNonEmpty and BlankInputAborts |
| GitHubApi.ToGitHubRepository | lib/github.ts:58-69 | no contract of its own; specified by PublicSources, PublicSourcesMembership and PublicSourcesAllKept |
| GitHubApi.PublicSources | lib/github.ts:56-69 | the output is no longer than the input, and every output repository is public and unfeatured with order 0 |
| GitHubApi.PublicSourcesAppend | lib/github.ts:56-69 | the filter-and-map distributes over concatenation, so input order is kept |
| GitHubApi.PublicSourcesMembership | lib/github.ts:57 | a repository is in the output exactly when it is the mapping of an input repository that is neither a fork nor private |
| GitHubApi.PublicSourcesAllKept | lib/github.ts:57 | the output has the input's length exactly when no repository is a fork or private, and then it is the element-wise mapping |
| GitHubApi.ProfileOf | lib/github.ts:83-91 | no contract of its own; specified by ProfileNameNonEmpty and PortfolioWorker.SuccessEffect |
| GitHubApi.FetchOutcomes | lib/github.ts:70-95 | each transform fails exactly when its API call fails, and then with its own fixed message |
| GitHubApi.ProfileNameNonEmpty | lib/github.ts:84 | with a non-empty login the profile name is never empty |
| GitHubApi.FetchUserRepositories | lib/github.ts:56-73 | no contract of its own; specified by FetchOutcomes and the PublicSources lemmas |
| GitHubApi.FetchUserProfile | lib/github.ts:83-95 | no contract of its own; specified by FetchOutcomes and ProfileNameNonEmpty |
| Models.FindKey | workers/portfolioWorker.ts:35 | the lookup by (userId, name) finds the first record with that key, and reports none only when no record has it |
| Models.Apply | workers/portfolioWorker.ts:36-38 | no contract of its own; specified by ApplyKeepsUncarried, UpsertEffect, UpsertPatched and PatchedIsFixed |
| Models.ApplyKeepsUncarried | workers/portfolioWorker.ts:36-38 | an update keeps the record's id, owner and thumbnail; it keeps `forks` and `languages` for the worker's data and `language` for the sync route's data; the name becomes the patch's name |
| Models.Create | workers/portfolioWorker.ts:39-41 | no contract of its own; specified by UpsertEffect, UpsertPatched and UpsertAllNewRecords |
| Models.Upsert | workers/portfolioWorker.ts:35-41 | no contract of its own; specified by UpsertEffect, UpsertValid, UpsertIdempotent and UpsertPatched |
| Models.UpsertAll | workers/portfolioWorker.ts:34-43 | no contract of its own; specified by UpsertAllFrame, UpsertAllValid, UpsertAllIdempotent and UpsertAllPatched |
| Models.UpsertEffect | workers/portfolioWorker.ts:34-42 | an upsert updates the record that holds the key in place, or else appends a new record with the next id; every other record keeps its place and its contents |
| Models.UpsertValid | app/api/sync/repositories/route.ts:41-45 | an upsert keeps the table free of duplicate keys and duplicate ids |
| Models.UpsertIdempotent | app/api/sync/repositories/route.ts:41-45 | upserting the same data twice is the same as upserting it once |
| Models.PatchedIsFixed | workers/portfolioWorker.ts:36-38 | an upsert onto a record that already carries the data changes nothing |
| Models.UpsertPatched | workers/portfolioWorker.ts:36-40 | after an upsert the key's record carries the upserted data |
| Models.FindKeyAfterSameKeyUpdate | workers/portfolioWorker.ts:37 | updating a record without changing its key moves no key |
| Models.FindKeyAfterAppend | workers/portfolioWorker.ts:40 | appending a record leaves earlier keys where they were and finds a new key at the end |
| Models.UpsertOtherKeepsPatched | workers/portfolioWorker.ts:35 | an upsert under another name leaves the record of this key as it was |
| Models.UpsertAllPatched | workers/portfolioWorker.ts:34-43 | after a run of distinct-named upserts, every key's record carries its data |
| Models.UpsertAllFixed | workers/portfolioWorker.ts:34-43 | a run whose data every record already carries changes nothing |
| Models.UpsertAllIdempotent | workers/portfolioWorker.ts:34-43 | re-running the same distinct-named upserts adds no record and changes none |
| Models.UpsertAllValid | app/api/sync/repositories/route.ts:39-47 | a run of upserts keeps the table free of duplicate keys and duplicate ids |
| Models.UpsertAllFrame | app/api/sync/repositories/route.ts:41-45 | old records keep their place, key and id; a record whose key no upsert names is unchanged; the table grows only by new records of the user whose names were absent |
| Models.UpsertAllOldRecords | app/api/sync/repositories/route.ts:41-45 | a run keeps every old record in place with its key and id, leaves those of unnamed keys unchanged, and adds at most one record per upsert |
| Models.UpsertAllNewRecords | workers/portfolioWorker.ts:39-41 | every record a run appends belongs to the user, carries an upserted name, and its key was absent before |
| Models.UpsertAllKeyPresent | workers/portfolioWorker.ts:34-42 | every upserted key is present after the run |
| Models.Database.constructor | lib/models/repository.ts:3-20 | a fresh database holds the given users and an empty repository collection |
| Models.Database.SaveUser | workers/portfolioWorker.ts:31 | saving a user replaces only that user and leaves the repositories alone |
| Models.Database.UpsertRepository | workers/portfolioWorker.ts:35-41 | one in-place update or insert of the collection, equal to `Upsert` of the old table |
| Models.Database.UpsertRepositories | workers/portfolioWorker.ts:34-43 | the loop of upserts, equal to `UpsertAll` of the old table, with the table invariant kept |
| PortfolioWorker.RepoPatches | workers/portfolioWorker.ts:34 | no contract of its own; specified by SuccessEffect and RerunIsIdempotent |
| PortfolioWorker.WithProfile | workers/portfolioWorker.ts:28-30 | no contract of its own; specified by SuccessEffect |
| PortfolioWorker.RunJob | workers/portfolioWorker.ts:14-49 | no contract of its own; specified by RunPortfolioJob, FailureWritesNothing, SuccessEffect and RerunIsIdempotent |
| PortfolioWorker.RunPortfolioJob | workers/portfolioWorker.ts:14-49 | the job against the database has the outcome, user state and table of `RunJob` |
| PortfolioWorker.FailureWritesNothing | workers/portfolioWorker.ts:17-48 | the job fails exactly when the user or token is missing or a fetch fails; then nothing is written and the error is reported |
| PortfolioWorker.SuccessEffect | workers/portfolioWorker.ts:28-43 | on success the user gets name, bio and avatar from the profile and nothing else changes about users; every fetched repository's key is present; records of other users, and records of this user whose name was not fetched, are untouched; no duplicates appear |
| PortfolioWorker.RerunIsIdempotent | workers/portfolioWorker.ts:34-42 | a second run with the same answers and distinct names leaves users and table as the first run did |
| SyncRoute.CollectRecords | app/api/sync/repositories/route.ts:18-36 | all detail fetches or nothing: the records exist exactly when every fetch succeeds, with one record per repository built from its details and the user's id |
| SyncRoute.SyncPatches | app/api/sync/repositories/route.ts:39-47 | no contract of its own; specified by SuccessEffect and StoredRecordFields |
| SyncRoute.ToRecord | app/api/sync/repositories/route.ts:25-34 | no contract of its own; specified by CollectRecords and StoredRecordFields |
| SyncRoute.Sync | app/api/sync/repositories/route.ts:7-57 | no contract of its own; specified by PostSync, FailuresWriteNothing, SuccessEffect and ResyncIsIdempotent |
| SyncRoute.PostSync | app/api/sync/repositories/route.ts:7-57 | the handler against the database gives the response and table of `Sync` and leaves users unchanged |
| SyncRoute.FailuresWriteNothing | app/api/sync/repositories/route.ts:12-56 | an unknown user gives 404 and a failed fetch gives 500, both with no write |
| SyncRoute.SuccessEffect | app/api/sync/repositories/route.ts:39-49 | on success every fetched name has a record of the user; records of other users, and records of this user whose name was not fetched, are untouched; new records belong to the user and their names were absent before |
| SyncRoute.StoredRecordFields | app/api/sync/repositories/route.ts:25-34 | a stored record carries the user's id and the fetched name, description, url, homepage, languages, stars and forks |
| SyncRoute.ResyncIsIdempotent | app/api/sync/repositories/route.ts:41-45 | syncing the same distinct-named repositories again changes nothing |
| VerifyRoute.FindVerificationGist | app/api/verify/route.ts:30-32 | the found gist is the first one whose description is exactly `Git2Site Verification`, and none is found only when no gist has it |
| VerifyRoute.Decide | app/api/verify/route.ts:8-51 | no contract of its own; specified by VerifiedIff, GuardOutcomes and FirstGistDecides |
| VerifyRoute.Transition | app/api/verify/route.ts:40-41 | no contract of its own; specified by TransitionIsMonotone and PostVerify |
| VerifyRoute.PostVerify | app/api/verify/route.ts:6-51 | the handler's outcome is `Decide`; the users afterwards are its `Transition`; the repositories are unchanged |
| VerifyRoute.VerifiedIff | app/api/verify/route.ts:10-42 | a user is verified exactly when both fields are given, the user exists and is unverified, and the first matching gist's first file content equals the token |
| VerifyRoute.GuardOutcomes | app/api/verify/route.ts:10-51 | a missing field gives 400, an unknown user 404, a verified user 400 and a failed gist listing 500 |
| VerifyRoute.FirstGistDecides | app/api/verify/route.ts:30-39 | only the first described gist is read: a later gist holding the token does not verify |
| VerifyRoute.TransitionIsMonotone | app/api/verify/route.ts:40 | only the named user's `isVerified` can change, and only from false to true; a rejection changes nothing |
| ProjectsRoute.IdString | app/api/user/projects/route.ts:28 | a record id is written as a non-empty string of decimal digits |
| ProjectsRoute.IdStringInjective | app/api/user/projects/route.ts:28 | distinct record ids give distinct project ids |
| ProjectsRoute.RecordsOf | app/api/user/projects/route.ts:25 | the query returns only records of the user, each taken from the collection |
| ProjectsRoute.RecordsOfAppend | app/api/user/projects/route.ts:25 | the query distributes over concatenation, so the collection's order is kept |
| ProjectsRoute.RecordsOfMembership | app/api/user/projects/route.ts:25 | a record is returned exactly when it is in the collection and belongs to the user |
| ProjectsRoute.ProjectsOf | app/api/user/projects/route.ts:27-35 | no contract of its own; specified by ProjectsOutcome |
| ProjectsRoute.ProjectOf | app/api/user/projects/route.ts:27-35 | no contract of its own; specified by ProjectsOutcome, ThumbnailFallback and LanguagesOfProject |
| ProjectsRoute.GetProjects | app/api/user/projects/route.ts:7-41 | no contract of its own; specified by ProjectsOutcome |
| ProjectsRoute.ProjectsOutcome | app/api/user/projects/route.ts:12-41 | no cookie gives 401, a cookie that is not JSON 500 and an unknown user 404; otherwise there is one project per record of the user, in order, each `ProjectOf` its record (languages and thumbnail as LanguagesOfProject and ThumbnailFallback give them), with `id` the record id, `githubUrl` the url and `websiteUrl` the homepage |
| ProjectsRoute.ThumbnailFallback | app/api/user/projects/route.ts:34 | the thumbnail is the stored one when truthy, and otherwise `/api/thumbnail/generate?repo=` followed by the project id; it is never empty |
| ProjectsRoute.LanguagesOfProject | app/api/user/projects/route.ts:31 | `languages` is the one stored language when it is set, and empty otherwise |
| ProjectsRoute.AsWrittenProjectsListNoLanguage | app/api/user/projects/route.ts:31 | as the source stands, a record saved under strict mode has no `language`, so its project's `languages` is empty, even for a record created from a repository with a language |
| ProjectsRoute.CreatedRecordListsItsLanguage | app/api/user/projects/route.ts:31 | with `language` kept, a record the worker creates lists exactly its language, or none when the repository has none |
| RepositoriesRoute.Keys | app/api/repositories/route.ts:43 | no contract of its own; specified by EntriesFollowListing |
| RepositoriesRoute.SelectedNames | app/api/repositories/route.ts:24 | no contract of its own; specified by EntriesFollowListing and NoSelectionSelectsNothing |
| RepositoriesRoute.EntryOf | app/api/repositories/route.ts:35-45 | no contract of its own; specified by EntriesFollowListing |
| RepositoriesRoute.GetRepositories | app/api/repositories/route.ts:7-60 | no contract of its own; specified by UnauthenticatedIsRejected, FailureIff and EntriesFollowListing |
| RepositoriesRoute.Entries | app/api/repositories/route.ts:28-46 | entries exist exactly when every language lookup succeeds, with one entry per listed repository in order |
| RepositoriesRoute.UnauthenticatedIsRejected | app/api/repositories/route.ts:9-12 | without a user the answer is 401, whatever GitHub would answer |
| RepositoriesRoute.FailureIff | app/api/repositories/route.ts:17-59 | the answer is 500 exactly when the listing or one language lookup fails, and a success otherwise |
| RepositoriesRoute.EntriesFollowListing | app/api/repositories/route.ts:28-46 | one entry per listed repository, in listed order, with name, description, privacy, url, homepage, stars and forks copied, `languages` the keys of its lookup, and `isSelected` exactly when its name is among the selected names |
| RepositoriesRoute.NoSelectionSelectsNothing | app/api/repositories/route.ts:24-44 | with no stored selection every entry is unselected |
| RepositoriesRoute.PrivateRepositoriesAreListed | app/api/repositories/route.ts:17-21 | private repositories are not filtered out |
| Sidebar.Toggle | components/dashboard/sidebar.tsx:99-107 | toggling keeps the list's length |
| Sidebar.ToggleEffect | components/dashboard/sidebar.tsx:99-107 | `isSelected` flips on every entry with the name and on no other; no other field and no other entry changes |
| Sidebar.ToggleTwice | components/dashboard/sidebar.tsx:101-105 | toggling the same name twice restores the list |
| Sidebar.TogglesCommute | components/dashboard/sidebar.tsx:99-107 | toggles of two names give the same list in either order |
| Sidebar.ToggleAbsentName | components/dashboard/sidebar.tsx:99-107 | toggling a name that is not listed changes nothing |
| Sidebar.Selected | components/dashboard/sidebar.tsx:112 | the saved list holds only selected entries from the list |
| Sidebar.SelectedAppend | components/dashboard/sidebar.tsx:112 | the filter distributes over concatenation, so list order is kept |
| Sidebar.SelectedMembership | components/dashboard/sidebar.tsx:112-125 | an entry is saved exactly when it is in the list and selected |
| Sidebar.SelectedLength | components/dashboard/sidebar.tsx:112 | the number of saved entries is the number of selected entries |
| Sidebar.FetchError | components/dashboard/sidebar.tsx:82-93 | an error message is stored exactly when loading fails: "Failed to fetch repositories" for a non-ok answer, the thrown error's message, or "Failed to load repositories" for a thrown value that is no `Error` |
| Sidebar.SidebarState.constructor | components/dashboard/sidebar.tsx:69-71 | the list starts empty, loading, with no error |
| Sidebar.SidebarState.FetchRepositories | components/dashboard/sidebar.tsx:77-97 | a listed answer replaces the list; a failure keeps the list and records its message; an earlier error is not cleared; loading ends either way |
| Sidebar.SidebarState.ToggleRepository | components/dashboard/sidebar.tsx:99-107 | the list becomes `Toggle` of the old list; loading and error are unchanged |
| Sidebar.SidebarState.HandleSaveAll | components/dashboard/sidebar.tsx:109-140 | the request carries exactly the selected entries; a failed save records "Failed to save preferences"; the list is unchanged |
| PortfolioStore.ToggleFeatured | lib/store/usePortfolioStore.ts:52-59 | toggling a featured flag keeps the list's length |
| PortfolioStore.ToggleFeaturedEffect | lib/store/usePortfolioStore.ts:52-59 | `isFeatured` flips exactly on the entries whose id matches; other entries and other fields do not change |
| PortfolioStore.ToggleFeaturedTwice | lib/store/usePortfolioStore.ts:54-58 | toggling the same id twice is the identity |
| PortfolioStore.Reorder | lib/store/usePortfolioStore.ts:60-66 | moving an element keeps the list's length |
| PortfolioStore.SpliceMove | lib/store/usePortfolioStore.ts:62-64 | copying the list and splicing it in place twice yields exactly `Reorder` of the list |
| PortfolioStore.ShiftLeft | lib/store/usePortfolioStore.ts:63 | removing the element at the start index moves each later element one place left |
| PortfolioStore.ShiftRight | lib/store/usePortfolioStore.ts:64 | making room at the end index moves each element from there on one place right |
| PortfolioStore.ReorderFromRest | lib/store/usePortfolioStore.ts:63-64 | a position of the result is read from the list without the moved element: before the target, at the target, or one place later |
| PortfolioStore.ReorderAt | lib/store/usePortfolioStore.ts:63-64 | position by position: the moved element sits at the target; positions between the two indices shift by one toward the source index; positions outside keep their element |
| PortfolioStore.ReorderMovesOnlyTheRange | lib/store/usePortfolioStore.ts:62-64 | the element from the start index lands at the end index; positions outside the two indices are unchanged |
| PortfolioStore.ReorderSameIndex | lib/store/usePortfolioStore.ts:62-64 | moving an element onto its own index leaves the list unchanged |
| PortfolioStore.ReorderIsPermutation | lib/store/usePortfolioStore.ts:60-66 | the result is a permutation of the list |
| PortfolioStore.ReorderInverse | lib/store/usePortfolioStore.ts:60-66 | moving the element back restores the list |
| PortfolioStore.MergeOverwritesSuppliedKeys | lib/store/usePortfolioStore.ts:48-51 | a supplied setting overwrites its key, an omitted one keeps the current value, and an empty update changes nothing |
| PortfolioStore.MergeIdempotent | lib/store/usePortfolioStore.ts:48-51 | applying the same settings update twice is applying it once |
| PortfolioStore.MergeComposes | lib/store/usePortfolioStore.ts:48-51 | two updates in a row equal one update in which the later keys win |
| PortfolioStore.Merge | lib/store/usePortfolioStore.ts:48-51 | no contract of its own; specified by MergeOverwritesSuppliedKeys, MergeIdempotent and MergeComposes |
| PortfolioStore.Pick | lib/store/usePortfolioStore.ts:50 | no contract of its own; specified by MergeOverwritesSuppliedKeys |
| PortfolioStore.PortfolioStoreState.constructor | lib/store/usePortfolioStore.ts:37-44 | the store starts with no repositories, theme `minimal`, the grid layout and every setting on |
| PortfolioStore.PortfolioStoreState.SetRepositories | lib/store/usePortfolioStore.ts:45 | replaces only the repositories |
| PortfolioStore.PortfolioStoreState.SetTheme | lib/store/usePortfolioStore.ts:46 | replaces only the selected theme |
| PortfolioStore.PortfolioStoreState.SetLayout | lib/store/usePortfolioStore.ts:47 | replaces only the layout |
| PortfolioStore.PortfolioStoreState.UpdateSettings | lib/store/usePortfolioStore.ts:48-51 | settings become the merge of the old settings with the update; nothing else changes |
| PortfolioStore.PortfolioStoreState.ToggleFeatureProject | lib/store/usePortfolioStore.ts:52-59 | the repositories become `ToggleFeatured` of the old list; nothing else changes |
| PortfolioStore.PortfolioStoreState.ReorderRepositories | lib/store/usePortfolioStore.ts:60-66 | with in-range indices the repositories become `Reorder` of the old list, a permutation of it; nothing else changes |
| PortfolioStatus.CompletedCount | app/api/portfolio/status/route.ts:24 | the count of sections with status exactly `completed` is at most the number of sections; it is 0 exactly when none is completed and full exactly when all are |
| PortfolioStatus.Progress | app/api/portfolio/status/route.ts:25 | the percentage is undefined (NaN) exactly when there are no sections |
| PortfolioStatus.FindPortfolio | app/api/portfolio/status/route.ts:17 | the portfolio found belongs to the user, and none is found only when the user has none |
| PortfolioStatus.ProgressIsRoundedPercentage | app/api/portfolio/status/route.ts:25 | the percentage is 100·completed/total rounded half up: `v - 1/2 <= 100c/t < v + 1/2` |
| PortfolioStatus.ProgressBounds | app/api/portfolio/status/route.ts:23-25 | the percentage lies in 0..100 |
| PortfolioStatus.ProgressMonotone | app/api/portfolio/status/route.ts:25 | more completed sections never give a lower percentage |
| PortfolioStatus.ProgressZeroIff | app/api/portfolio/status/route.ts:25 | with up to 200 sections the percentage is 0 exactly when no section is completed |
| PortfolioStatus.ProgressFullIff | app/api/portfolio/status/route.ts:25 | with fewer than 200 sections the percentage is 100 exactly when all sections are completed |
| PortfolioStatus.ProgressEquivalencesNeedFewSections | app/api/portfolio/status/route.ts:25 | beyond those bounds rounding reaches the endpoints early: 1 of 201 gives 0 and 199 of 200 gives 100 |
| PortfolioStatus.FourSectionSteps | app/api/portfolio/status/route.ts:23-25 | with the four sections of a portfolio the values are 0, 25, 50, 75 and 100 |
| PortfolioStatus.CompleteCounts | app/api/portfolio/status/route.ts:24 | marking one section completed raises the count by one, unless it already was completed |
| PortfolioStatus.CompletingNeverLowersProgress | app/api/portfolio/status/route.ts:23-25 | completing one more section never lowers the percentage |
| PortfolioStatus.StatusOutcomes | app/api/portfolio/status/route.ts:10-32 | no user gives 401 and no portfolio 404; otherwise the answer is the user's first portfolio with its status and sections, and the percentage is `Progress` of its completed count over its section count: in 0..100, absent only when there are no sections |
| PortfolioStatus.GetStatus | app/api/portfolio/status/route.ts:9-32 | no contract of its own; specified by StatusOutcomes |
| OgImage.ChooseImage | app/api/og-image/route.ts:21-31 | the chosen image is one of the three candidates |
| OgImage.OgImageFirst | app/api/og-image/route.ts:21 | a truthy `og:image` is chosen over everything else |
| OgImage.TwitterImageSecond | app/api/og-image/route.ts:24-26 | otherwise a truthy `twitter:image` is chosen |
| OgImage.FirstImgLast | app/api/og-image/route.ts:29-31 | otherwise the first `<img>` source is taken as it is |
| OgImage.EmptyOgImageFallsThrough | app/api/og-image/route.ts:24-29 | an empty attribute counts as absent and falls through to the next candidate |
| OgImage.ChosenIsTruthyIff | app/api/og-image/route.ts:21-31 | a usable image is reported exactly when some candidate is usable |
| OgImage.OgImageOutcomes | app/api/og-image/route.ts:12-37 | a falsy `url` gives 400 and a failed fetch or parse gives 500; otherwise the answer is a success whose `imageUrl` is `ChooseImage` of the page, absent exactly when no candidate is truthy and there is no `<img>` source |
| OgImage.GetOgImage | app/api/og-image/route.ts:7-37 | no contract of its own; specified by OgImageOutcomes |

## Left out

- The WHATWG URL parser is a parameter (`Urls.UrlParser`) that gives a host name and a path, or failure. The regex engine is replaced by a character-level matcher.
- Network calls are inputs of the model: Octokit, `fetch`, cheerio page parsing, and the `@octokit/plugin-throttling` retries. A GitHub answer is a `Result` value or a caller-supplied function.
- Database plumbing is not modelled: the connection cache in lib/db.ts, and query or save failures. The catch-all 500 answers that such failures reach are therefore not modelled either, e.g. "Failed to fetch portfolio status".
- Request bodies are modelled as already parsed: `VerifyRoute.Decide` and `SyncRoute.Sync` receive the fields. A body that is not JSON, or is JSON `null`, makes app/api/verify/route.ts:8 throw into the "Internal server error" 500 at lines 52-55. A sync body without `repositories` makes the `map` at app/api/sync/repositories/route.ts:19 throw into the 500 at lines 50-55. Neither path is modelled.
- The Repository schema (lib/models/repository.ts:3-20) declares no `language` field, and Mongoose's strict mode would drop it. The model instead keeps the `language` a record was created with, because app/api/user/projects/route.ts:31 reads it; see "## Findings". The fields `topics`, `isPublic`, `isFeatured` and `order` are dropped, since no reader of stored records uses them.
- `Promise.all` fan-out runs in order in the model, at workers/portfolioWorker.ts:22-25, workers/portfolioWorker.ts:34-43, app/api/sync/repositories/route.ts:18-47 and app/api/repositories/route.ts:28. When both worker fetches fail, `PortfolioWorker.RunJob` reports the profile error; the source rethrows whichever rejection comes first, and the same holds for the first failing lookup of the other sites. Idempotence lemmas require distinct repository names. Concurrent upserts racing on the same key are not modelled.
- Only the first page of results is modelled: up to 100 repositories, and the gists that `gists.list` returns first. The source requests no further page.
- `lib/github.ts` exports neither `octokit` (imported by app/api/verify/route.ts:4) nor `fetchRepositoryDetails` (imported by app/api/sync/repositories/route.ts:5). Both are modelled as caller-supplied functions, `VerifyRoute.GistFetcher` and `SyncRoute.DetailsFetcher`.
- Authentication (lib/auth.ts, the OAuth routes, JWT, cookies) is an input: the authenticated user, or a session cookie that is absent, unparsable or names a username.
- PortfolioStatus.Progress: the float division and `Math.round` are modelled in exact integer arithmetic. Float rounding error near a half is not modelled. With no sections the NaN result is `None`.
- PortfolioStore.Reorder and PortfolioStore.PortfolioStoreState.ReorderRepositories: indices must be in range. An out-of-range `splice` inserts `undefined`, which is not modelled.
- Sidebar.SidebarState.FetchRepositories: the answer's repositories keep only the sidebar's four fields. A body that is not JSON, or has no `repositories`, is not modelled.
- A stored portfolio always has its `sections` list here. A portfolio without `sections`, or with a null section, makes `Object.keys` or `.status` at app/api/portfolio/status/route.ts:23-24 throw into the 500 at lines 33-36; that path is not modelled.
- `PortfolioStore.PartialSettings` models a key as either absent or a boolean. `Partial<...>` also admits a key whose value is `undefined`, which the spread at lib/store/usePortfolioStore.ts:50 copies over the setting; that case is not modelled.
- Record ids are natural numbers shown in decimal, rather than MongoDB ObjectIds.
- The dashboard's stored selection keeps only the repository names (`User.selectedRepositories`), the only part that app/api/repositories/route.ts:24 reads.
- Out of scope:
  - headless-browser and image code: thumbnail generation, preview rendering, `sharp`;
  - the portfolio generation orchestrator, whose functions in lib/portfolioGenerator.ts:1-11 are empty;
  - UI rendering, theming and the zustand `persist` storage;
  - the React `loading` flags of the two forms.

## Findings

| source | as written | input that shows it | evidently intended | confidence | as-written member | corrected member |
|---|---|---|---|---|---|---|
| app/api/user/projects/route.ts:31 | `languages` is built from `repo.language`, a field the Repository schema (lib/models/repository.ts:3-20) does not declare, so Mongoose's strict mode never stores it and every project's `languages` is `[]` | a repository with language `Go` written by the worker (workers/portfolioWorker.ts:40) gives a project with `languages: []` | a project lists the language of its repository | not executed; depends on Mongoose's default strict mode | ProjectsRoute.AsWrittenProjectsListNoLanguage | ProjectsRoute.CreatedRecordListsItsLanguage |
