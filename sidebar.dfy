/**
 * The repository list of the dashboard sidebar (components/dashboard/sidebar.tsx): fetched
 * once, toggled entry by entry, and saved as the list of selected repositories.
 */
module Sidebar {
  import opened Wrappers

  /** The sidebar's `Repository` record. */
  datatype SidebarRepo = SidebarRepo(name: string, description: string, isPrivate: bool, isSelected: bool)

  /**
   * How `fetch('/api/repositories')` ended: it threw (with the message of an `Error`,
   * or None for any other thrown value), answered with a non-ok status, or gave a list.
   */
  datatype ListingAnswer = Thrown(message: Option<string>) | NotOk | Listed(repositories: seq<SidebarRepo>)

  /** `toggleRepository`: flip `isSelected` on every entry with that name. */
  function Toggle(repos: seq<SidebarRepo>, name: string): (r: seq<SidebarRepo>)
    ensures |r| == |repos|
  {
    seq(|repos|, k requires 0 <= k < |repos| =>
      if repos[k].name == name then repos[k].(isSelected := !repos[k].isSelected) else repos[k])
  }

  /** `repositories.filter(repo => repo.isSelected)` */
  function Selected(repos: seq<SidebarRepo>): (r: seq<SidebarRepo>)
    ensures |r| <= |repos|
    ensures forall x :: x in r ==> x in repos && x.isSelected
  {
    if repos == [] then []
    else if repos[0].isSelected then [repos[0]] + Selected(repos[1..])
    else Selected(repos[1..])
  }

  /** The message `fetchRepositories` stores when loading fails. */
  function FetchError(answer: ListingAnswer): (m: Option<string>)
    ensures m.None? <==> answer.Listed?
    ensures answer.NotOk? ==> m == Some("Failed to fetch repositories")
    ensures answer.Thrown? && answer.message.Some? ==> m == answer.message
    ensures answer.Thrown? && answer.message.None? ==> m == Some("Failed to load repositories")
  {
    match answer
    case Listed(_) => None
    case NotOk => Some("Failed to fetch repositories")
    case Thrown(Some(msg)) => Some(msg)
    case Thrown(None) => Some("Failed to load repositories")
  }

  // ----- properties of the list updates -----

  /** The toggled entries are exactly those with the name; each changes only `isSelected`. */
  lemma ToggleEffect(repos: seq<SidebarRepo>, name: string)
    ensures forall k :: 0 <= k < |repos| ==>
      if repos[k].name == name then
        Toggle(repos, name)[k] == repos[k].(isSelected := !repos[k].isSelected)
        && Toggle(repos, name)[k].isSelected != repos[k].isSelected
      else Toggle(repos, name)[k] == repos[k]
    ensures forall k :: 0 <= k < |repos| ==>
      && Toggle(repos, name)[k].name == repos[k].name
      && Toggle(repos, name)[k].description == repos[k].description
      && Toggle(repos, name)[k].isPrivate == repos[k].isPrivate
  {
  }

  /** Toggling the same name twice restores the list. */
  lemma ToggleTwice(repos: seq<SidebarRepo>, name: string)
    ensures Toggle(Toggle(repos, name), name) == repos
  {
    var t := Toggle(Toggle(repos, name), name);
    assert forall k :: 0 <= k < |repos| ==> t[k] == repos[k];
  }

  /** Toggles of different names commute, so the order of clicks does not matter. */
  lemma TogglesCommute(repos: seq<SidebarRepo>, a: string, b: string)
    ensures Toggle(Toggle(repos, a), b) == Toggle(Toggle(repos, b), a)
  {
    var l := Toggle(Toggle(repos, a), b);
    var r := Toggle(Toggle(repos, b), a);
    assert forall k :: 0 <= k < |repos| ==> l[k] == r[k];
  }

  /** The saved list keeps the selected entries in list order: selection distributes over `+`. */
  lemma {:induction false} SelectedAppend(a: seq<SidebarRepo>, b: seq<SidebarRepo>)
    ensures Selected(a + b) == Selected(a) + Selected(b)
  {
    if a == [] {
      assert a + b == b;
    } else {
      assert (a + b)[1..] == a[1..] + b;
      SelectedAppend(a[1..], b);
    }
  }

  /** An entry is saved exactly when it is in the list and selected. */
  lemma {:induction false} SelectedMembership(repos: seq<SidebarRepo>, x: SidebarRepo)
    ensures x in Selected(repos) <==> x in repos && x.isSelected
  {
    if repos != [] {
      SelectedMembership(repos[1..], x);
      assert x in repos <==> x == repos[0] || x in repos[1..];
    }
  }

  /** The number of saved entries is the number of selected entries. */
  function SelectedCount(repos: seq<SidebarRepo>): nat {
    if repos == [] then 0 else (if repos[0].isSelected then 1 else 0) + SelectedCount(repos[1..])
  }

  lemma {:induction false} SelectedLength(repos: seq<SidebarRepo>)
    ensures |Selected(repos)| == SelectedCount(repos)
  {
    if repos != [] {
      SelectedLength(repos[1..]);
    }
  }

  /** Toggling a name absent from the list changes nothing, so nothing new is saved. */
  lemma ToggleAbsentName(repos: seq<SidebarRepo>, name: string)
    requires forall k :: 0 <= k < |repos| ==> repos[k].name != name
    ensures Toggle(repos, name) == repos
    ensures Selected(Toggle(repos, name)) == Selected(repos)
  {
    assert forall k :: 0 <= k < |repos| ==> Toggle(repos, name)[k] == repos[k];
  }

  // ----- the component state -----

  /** The component's `repositories`, `isLoading` and `error` state. */
  class SidebarState {
    var repositories: seq<SidebarRepo>
    var isLoading: bool
    var error: Option<string>

    /** The initial state of the `useState` hooks. */
    constructor ()
      ensures repositories == [] && isLoading && error.None?
    {
      repositories := [];
      isLoading := true;
      error := None;
    }

    /**
     * `fetchRepositories`: a listed answer replaces the list; a failure keeps the list and
     * records its message; a previous error is not cleared; loading ends either way.
     */
    method FetchRepositories(answer: ListingAnswer)
      modifies this
      ensures !isLoading
      ensures answer.Listed? ==> repositories == answer.repositories && error == old(error)
      ensures !answer.Listed? ==> repositories == old(repositories) && error == FetchError(answer)
    {
      isLoading := true;
      match answer {
        case Listed(rs) =>
          repositories := rs;
        case _ =>
          error := FetchError(answer);
      }
      isLoading := false;
    }

    /** `toggleRepository(repoName)` */
    method ToggleRepository(repoName: string)
      modifies this
      ensures repositories == Toggle(old(repositories), repoName)
      ensures isLoading == old(isLoading) && error == old(error)
    {
      repositories := Toggle(repositories, repoName);
    }

    /**
     * `handleSaveAll`: the request carries the selected entries; a failed save stores
     * its message and leaves the list alone.
     */
    method HandleSaveAll(saveOk: bool) returns (selectedRepositories: seq<SidebarRepo>)
      modifies this
      ensures selectedRepositories == Selected(repositories)
      ensures repositories == old(repositories) && isLoading == old(isLoading)
      ensures error == (if saveOk then old(error) else Some("Failed to save preferences"))
    {
      selectedRepositories := Selected(repositories);
      if !saveOk {
        error := Some("Failed to save preferences");
      }
    }
  }
}
