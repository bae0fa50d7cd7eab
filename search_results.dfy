/**
 * The results panel: it renders only when there are results, and each
 * result's related-term buttons start a new search for that term without
 * touching the recent-search list.
 */
module SearchResults {
  import opened Wrappers
  import opened Storage
  import opened SearchSession

  /** The related terms result `r` offers as buttons (none when the field is null). */
  function RelatedOf(results: seq<Term>, r: nat): seq<string>
    requires r < |results|
  {
    results[r].relatedTerms.GetOr([])
  }

  /**
   * A related-term click on a rendered panel searches that term: the list of
   * recent searches and its slot are left alone, and afterwards exactly one
   * of the results panel and the empty state renders.
   */
  lemma RelatedClickFacts(s: Session, r: nat, j: nat, search: Searcher)
    requires r < |s.results| && j < |RelatedOf(s.results, r)|
    ensures ShowsResults(s)
    ensures var term := RelatedOf(s.results, r)[j];
      var next := SearchRelated(s, term, search);
      next.searchTerm == s.results[r].relatedTerms.value[j] &&
      next.recent == s.recent && next.saved == s.saved &&
      !ShowsLoading(next) && (ShowsEmptyState(next) <==> !ShowsResults(next)) &&
      (search(term).Delivered? ==> next.results == search(term).found) &&
      (search(term).Failed? ==> next.results == s.results && ShowsResults(next) && NoticeFor(search(term)) == SearchFailed)
  {
    SearchRelatedFacts(s, RelatedOf(s.results, r)[j], search);
  }

  /** The click handler of related term `j` of result `r`. */
  method RelatedTermClick(ctx: SearchContext, r: nat, j: nat, search: Searcher) returns (notice: Notice)
    requires r < |ctx.searchResults| && j < |RelatedOf(ctx.searchResults, r)|
    modifies ctx
    ensures ctx.State() == SearchRelated(old(ctx.State()), RelatedOf(old(ctx.searchResults), r)[j], search)
    ensures notice == NoticeFor(search(RelatedOf(old(ctx.searchResults), r)[j]))
  {
    var term := RelatedOf(ctx.searchResults, r)[j];
    ctx.searchTerm := term;
    ctx.isLoading := true;
    ctx.hasSearched := true;
    ctx.showSuggestions := false;
    notice := CompleteSearch(ctx, search(term));
  }
}
