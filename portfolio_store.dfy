/**
 * The client-side portfolio store (lib/store/usePortfolioStore.ts): the repository list
 * with its featured flags and order, the chosen theme and layout, and display settings.
 */
module PortfolioStore {
  import opened Wrappers

  /** The store's `Repository` record. */
  datatype StoreRepo = StoreRepo(
    id: string,
    name: string,
    description: Option<string>,
    url: string,
    homepage: Option<string>,
    language: Option<string>,
    stars: int,
    topics: seq<string>,
    isFeatured: bool,
    order: int)

  datatype Layout = Grid | List

  datatype Settings = Settings(showReadme: bool, showTechStack: bool, showLivePreview: bool)

  /** A `Partial<settings>`: the keys the caller supplies. */
  datatype PartialSettings = PartialSettings(
    showReadme: Option<bool>,
    showTechStack: Option<bool>,
    showLivePreview: Option<bool>)

  const DefaultTheme := "minimal"
  const DefaultSettings := Settings(true, true, true)

  function Pick(update: Option<bool>, current: bool): bool {
    if update.Some? then update.value else current
  }

  /** `{ ...state.settings, ...settings }` */
  function Merge(s: Settings, p: PartialSettings): Settings {
    Settings(Pick(p.showReadme, s.showReadme), Pick(p.showTechStack, s.showTechStack),
             Pick(p.showLivePreview, s.showLivePreview))
  }

  /** `toggleFeatureProject`: flip `isFeatured` on every entry with that id. */
  function ToggleFeatured(repos: seq<StoreRepo>, repoId: string): (r: seq<StoreRepo>)
    ensures |r| == |repos|
  {
    seq(|repos|, k requires 0 <= k < |repos| =>
      if repos[k].id == repoId then repos[k].(isFeatured := !repos[k].isFeatured) else repos[k])
  }

  /**
   * What `reorderRepositories` computes for in-range indices: remove the element at
   * `i`, then insert it so that it sits at index `j`.
   */
  function Reorder<T>(s: seq<T>, i: nat, j: nat): (r: seq<T>)
    requires i < |s| && j < |s|
    ensures |r| == |s|
  {
    var rest := s[..i] + s[i + 1..];
    rest[..j] + [s[i]] + rest[j..]
  }

  /** `splice(i, 1)` on an array seen up to its last slot: the part after `i` moves left by one. */
  method ShiftLeft<T>(a: array<T>, i: nat)
    requires i < a.Length
    modifies a
    ensures forall m :: 0 <= m < i ==> a[m] == old(a[m])
    ensures forall m :: i <= m < a.Length - 1 ==> a[m] == old(a[m + 1])
    ensures a[a.Length - 1] == old(a[a.Length - 1])
  {
    var k := i;
    while k < a.Length - 1
      invariant i <= k <= a.Length - 1
      invariant forall m :: 0 <= m < i ==> a[m] == old(a[m])
      invariant forall m :: i <= m < k ==> a[m] == old(a[m + 1])
      invariant forall m :: k <= m < a.Length ==> a[m] == old(a[m])
    {
      a[k] := a[k + 1];
      k := k + 1;
    }
  }

  /** Making room with `splice(j, 0, x)`: the part from `j` up to the last slot moves right by one. */
  method ShiftRight<T>(a: array<T>, j: nat)
    requires j < a.Length
    modifies a
    ensures forall m :: 0 <= m <= j ==> a[m] == old(a[m])
    ensures forall m :: j < m < a.Length ==> a[m] == old(a[m - 1])
  {
    var k := a.Length - 1;
    while k > j
      invariant j <= k <= a.Length - 1
      invariant forall m :: 0 <= m <= k ==> a[m] == old(a[m])
      invariant forall m :: k < m < a.Length ==> a[m] == old(a[m - 1])
    {
      a[k] := a[k - 1];
      k := k - 1;
    }
  }

  /**
   * `Array.from` followed by the two `splice` calls, on a fresh array: shift the tail
   * after `i` left by one, shift the part from `j` right by one, write the element at `j`.
   */
  method SpliceMove<T>(s: seq<T>, i: nat, j: nat) returns (r: seq<T>)
    requires i < |s| && j < |s|
    ensures r == Reorder(s, i, j)
  {
    var n := |s|;
    var a := new T[n](k requires 0 <= k < n => s[k]);
    var removed := a[i];
    ghost var rest := s[..i] + s[i + 1..];
    ShiftLeft(a, i);
    assert forall m :: 0 <= m < n - 1 ==> a[m] == rest[m];
    ShiftRight(a, j);
    a[j] := removed;
    r := a[..];
    forall m | 0 <= m < n
      ensures r[m] == Reorder(s, i, j)[m]
    {
      ReorderFromRest(s, i, j, m);
    }
  }

  /** A position of the reordered list, read off the list with the element removed. */
  lemma ReorderFromRest<T>(s: seq<T>, i: nat, j: nat, m: nat)
    requires i < |s| && j < |s| && m < |s|
    ensures var rest := s[..i] + s[i + 1..];
      Reorder(s, i, j)[m] == if m < j then rest[m] else if m == j then s[i] else rest[m - 1]
  {
  }

  // ----- properties of the list updates -----

  /** Each position of the reordered list, case by case. */
  lemma ReorderAt<T>(s: seq<T>, i: nat, j: nat, k: nat)
    requires i < |s| && j < |s| && k < |s|
    ensures k == j ==> Reorder(s, i, j)[k] == s[i]
    ensures k < i && k < j ==> Reorder(s, i, j)[k] == s[k]
    ensures k > i && k > j ==> Reorder(s, i, j)[k] == s[k]
    ensures i <= k < j ==> Reorder(s, i, j)[k] == s[k + 1]
    ensures j < k <= i ==> Reorder(s, i, j)[k] == s[k - 1]
  {
  }

  /** The moved element lands at the target index; positions outside the two indices keep theirs. */
  lemma ReorderMovesOnlyTheRange<T>(s: seq<T>, i: nat, j: nat)
    requires i < |s| && j < |s|
    ensures Reorder(s, i, j)[j] == s[i]
    ensures forall k :: 0 <= k < |s| && (k < i || k > j) && (k < j || k > i) ==> Reorder(s, i, j)[k] == s[k]
  {
    forall k | 0 <= k < |s| && (k < i || k > j) && (k < j || k > i)
      ensures Reorder(s, i, j)[k] == s[k]
    {
      ReorderAt(s, i, j, k);
    }
    ReorderAt(s, i, j, j);
  }

  /** Moving an element to where it is changes nothing. */
  lemma ReorderSameIndex<T>(s: seq<T>, i: nat)
    requires i < |s|
    ensures Reorder(s, i, i) == s
  {
    forall k | 0 <= k < |s|
      ensures Reorder(s, i, i)[k] == s[k]
    {
      ReorderAt(s, i, i, k);
    }
  }

  /** The result is a permutation of the list. */
  lemma ReorderIsPermutation<T>(s: seq<T>, i: nat, j: nat)
    requires i < |s| && j < |s|
    ensures multiset(Reorder(s, i, j)) == multiset(s)
  {
    var rest := s[..i] + s[i + 1..];
    assert s == s[..i] + [s[i]] + s[i + 1..];
    assert rest == rest[..j] + rest[j..];
    calc {
      multiset(Reorder(s, i, j));
      multiset(rest[..j]) + multiset{s[i]} + multiset(rest[j..]);
      multiset(rest) + multiset{s[i]};
      multiset(s[..i]) + multiset(s[i + 1..]) + multiset{s[i]};
      multiset(s);
    }
  }

  /** Moving the element back undoes the move. */
  lemma ReorderInverse<T>(s: seq<T>, i: nat, j: nat)
    requires i < |s| && j < |s|
    ensures Reorder(Reorder(s, i, j), j, i) == s
  {
    var t := Reorder(s, i, j);
    forall k | 0 <= k < |s|
      ensures Reorder(t, j, i)[k] == s[k]
    {
      ReorderAt(t, j, i, k);
      ReorderAt(s, i, j, j);
      if (k < i && k < j) || (k > i && k > j) {
        ReorderAt(s, i, j, k);
      } else if j <= k < i {
        ReorderAt(s, i, j, k + 1);
      } else if i < k <= j {
        ReorderAt(s, i, j, k - 1);
      }
    }
  }

  /** Featured flags flip only on entries with the id; nothing else in the list changes. */
  lemma ToggleFeaturedEffect(repos: seq<StoreRepo>, repoId: string)
    ensures forall k :: 0 <= k < |repos| ==>
      if repos[k].id == repoId then
        ToggleFeatured(repos, repoId)[k] == repos[k].(isFeatured := !repos[k].isFeatured)
        && ToggleFeatured(repos, repoId)[k].isFeatured != repos[k].isFeatured
      else ToggleFeatured(repos, repoId)[k] == repos[k]
  {
  }

  /** Toggling the same id twice is the identity. */
  lemma ToggleFeaturedTwice(repos: seq<StoreRepo>, repoId: string)
    ensures ToggleFeatured(ToggleFeatured(repos, repoId), repoId) == repos
  {
    var t := ToggleFeatured(ToggleFeatured(repos, repoId), repoId);
    assert forall k :: 0 <= k < |repos| ==> t[k] == repos[k];
  }

  /** A supplied key overwrites its setting; an omitted key keeps the current value. */
  lemma MergeOverwritesSuppliedKeys(s: Settings, p: PartialSettings)
    ensures Merge(s, p).showReadme == (if p.showReadme.Some? then p.showReadme.value else s.showReadme)
    ensures Merge(s, p).showTechStack == (if p.showTechStack.Some? then p.showTechStack.value else s.showTechStack)
    ensures Merge(s, p).showLivePreview == (if p.showLivePreview.Some? then p.showLivePreview.value else s.showLivePreview)
    ensures p == PartialSettings(None, None, None) ==> Merge(s, p) == s
  {
  }

  /** Applying the same update twice is applying it once. */
  lemma MergeIdempotent(s: Settings, p: PartialSettings)
    ensures Merge(Merge(s, p), p) == Merge(s, p)
  {
  }

  /** Two updates in a row are one update in which the later keys win. */
  lemma MergeComposes(s: Settings, p: PartialSettings, q: PartialSettings)
    ensures var later := PartialSettings(
        if q.showReadme.Some? then q.showReadme else p.showReadme,
        if q.showTechStack.Some? then q.showTechStack else p.showTechStack,
        if q.showLivePreview.Some? then q.showLivePreview else p.showLivePreview);
      Merge(Merge(s, p), q) == Merge(s, later)
  {
  }

  // ----- the store -----

  /** The store's state; every action replaces its own part of the state and no other. */
  class PortfolioStoreState {
    var repositories: seq<StoreRepo>
    var selectedTheme: string
    var layout: Layout
    var settings: Settings

    /** The initial state. */
    constructor ()
      ensures repositories == [] && selectedTheme == DefaultTheme && layout == Grid
      ensures settings == DefaultSettings
    {
      repositories := [];
      selectedTheme := DefaultTheme;
      layout := Grid;
      settings := DefaultSettings;
    }

    method SetRepositories(rs: seq<StoreRepo>)
      modifies this
      ensures repositories == rs
      ensures selectedTheme == old(selectedTheme) && layout == old(layout) && settings == old(settings)
    {
      repositories := rs;
    }

    method SetTheme(theme: string)
      modifies this
      ensures selectedTheme == theme
      ensures repositories == old(repositories) && layout == old(layout) && settings == old(settings)
    {
      selectedTheme := theme;
    }

    method SetLayout(l: Layout)
      modifies this
      ensures layout == l
      ensures repositories == old(repositories) && selectedTheme == old(selectedTheme) && settings == old(settings)
    {
      layout := l;
    }

    method UpdateSettings(p: PartialSettings)
      modifies this
      ensures settings == Merge(old(settings), p)
      ensures repositories == old(repositories) && selectedTheme == old(selectedTheme) && layout == old(layout)
    {
      settings := Merge(settings, p);
    }

    method ToggleFeatureProject(repoId: string)
      modifies this
      ensures repositories == ToggleFeatured(old(repositories), repoId)
      ensures selectedTheme == old(selectedTheme) && layout == old(layout) && settings == old(settings)
    {
      repositories := ToggleFeatured(repositories, repoId);
    }

    /** `reorderRepositories` with in-range indices; the previous list value is left as it was. */
    method ReorderRepositories(startIndex: nat, endIndex: nat)
      requires startIndex < |repositories| && endIndex < |repositories|
      modifies this
      ensures repositories == Reorder(old(repositories), startIndex, endIndex)
      ensures multiset(repositories) == multiset(old(repositories))
      ensures selectedTheme == old(selectedTheme) && layout == old(layout) && settings == old(settings)
    {
      var result := SpliceMove(repositories, startIndex, endIndex);
      ReorderIsPermutation(repositories, startIndex, endIndex);
      repositories := result;
    }
  }
}
