/**
 * The recent-searches panel: clicking an entry searches it again, and each
 * entry's remove button rebuilds the list by clearing it and re-adding the
 * survivors one after another. The clear-history button is the context's
 * `ClearRecentSearches` itself.
 */
module RecentSearches {
  import opened Wrappers
  import opened Seqs
  import opened RecentList
  import opened SearchSession

  /** The storage slot after the last write for `list`: removed when the list is empty, holding it otherwise. */
  function SlotFor(list: seq<string>): Option<seq<string>> {
    if list == [] then None else Some(list)
  }

  /** The session after removing entry `index`: the survivors re-added from a cleared list, and the slot that leaves. */
  function AfterRemove(s: Session, index: nat): Session
    requires index < |s.recent|
  {
    var rebuilt := ReAdd(RemoveAt(s.recent, index));
    s.(recent := rebuilt, saved := SlotFor(rebuilt))
  }

  /** `s` with its list rebuilt from the first `k` survivors, and the slot that leaves. */
  function Rebuilt(s: Session, survivors: seq<string>, k: nat): Session
    requires k <= |survivors|
  {
    var list := ReAdd(survivors[..k]);
    s.(recent := list, saved := SlotFor(list))
  }

  /** Re-adding the next survivor extends the rebuilt prefix by one and keeps the slot in step with the list. */
  lemma ReAddNext(s: Session, survivors: seq<string>, k: nat)
    requires k < |survivors|
    ensures WithRecent(Rebuilt(s, survivors, k), survivors[k]) == Rebuilt(s, survivors, k + 1)
  {
    assert survivors[..k + 1][..k] == survivors[..k];
  }

  /**
   * Removing an entry from a valid list leaves exactly the other entries, in
   * reverse order, still valid and mirrored; removing the only entry empties
   * the list, removes the slot and hides the panel. Nothing else changes.
   */
  lemma RemoveEntryFacts(s: Session, index: nat)
    requires index < |s.recent| && RecentListValid(s.recent)
    ensures var r := AfterRemove(s, index);
      r.recent == Reverse(RemoveAt(s.recent, index)) &&
      |r.recent| == |s.recent| - 1 &&
      multiset(r.recent) == multiset(s.recent) - multiset{s.recent[index]} &&
      RecentListValid(r.recent) && Mirrored(r) &&
      r.(recent := s.recent, saved := s.saved) == s
    ensures |s.recent| == 1 ==>
      AfterRemove(s, index).recent == [] && AfterRemove(s, index).saved == None && !ShowsRecentSearches(AfterRemove(s, index))
    ensures |s.recent| > 1 ==> AfterRemove(s, index).saved == Some(AfterRemove(s, index).recent)
  {
    var rest := RemoveAt(s.recent, index);
    RemoveThenReAdd(s.recent, index);
    ReverseKeepsValid(rest);
  }

  /** `handleSearchClick(term)`: box, loading, searched, list closed, the term recorded, then the search settles. */
  method HandleSearchClick(ctx: SearchContext, term: string, search: Searcher) returns (notice: Notice)
    modifies ctx
    ensures ctx.State() == SearchPicked(old(ctx.State()), term, search)
    ensures notice == NoticeFor(search(term))
  {
    ghost var launched := Launch(ctx.State().(searchTerm := term));
    ctx.searchTerm := term;
    ctx.isLoading := true;
    ctx.hasSearched := true;
    ctx.showSuggestions := false;
    assert ctx.State() == launched;
    ctx.AddToRecentSearches(term);
    notice := CompleteSearch(ctx, search(term));
  }

  /**
   * The remove button of entry `index`: the survivors are written to the slot,
   * the list is cleared, and each survivor is added back in order.
   */
  method RemoveRecentAt(ctx: SearchContext, index: nat)
    requires index < |ctx.recentSearches|
    modifies ctx
    ensures ctx.State() == AfterRemove(old(ctx.State()), index)
  {
    ghost var before := ctx.State();
    var updated := RemoveAt(ctx.recentSearches, index);
    ctx.saved := Some(updated);
    ctx.ClearRecentSearches();
    assert ctx.State() == Rebuilt(before, updated, 0);
    if |updated| > 0 {
      ReAddAll(ctx, before, updated);
    }
    assert updated[..|updated|] == updated;
  }

  /** `survivors.forEach(t => addToRecentSearches(t))` on a cleared list. */
  method ReAddAll(ctx: SearchContext, ghost base: Session, survivors: seq<string>)
    requires ctx.State() == Rebuilt(base, survivors, 0)
    modifies ctx
    ensures ctx.State() == Rebuilt(base, survivors, |survivors|)
  {
    for k := 0 to |survivors|
      invariant ctx.State() == Rebuilt(base, survivors, k)
    {
      ReAddNext(base, survivors, k);
      ctx.AddToRecentSearches(survivors[k]);
    }
  }
}
