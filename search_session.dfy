/**
 * The client's shared search session (the `SearchProvider` context): its
 * state cells, the recent-search list mirrored into the browser's
 * `recentSearches` storage slot, the search transition that four components
 * repeat, and the view guards that read the session.
 */
module SearchSession {
  import opened Wrappers
  import opened Strings
  import opened Storage
  import opened RecentList

  /** A snapshot of the context's state cells together with the storage slot. */
  datatype Session = Session(
    searchTerm: string,
    suggestions: seq<string>,
    results: seq<Term>,
    isLoading: bool,
    showSuggestions: bool,
    hasSearched: bool,
    recent: seq<string>,
    saved: Option<seq<string>>)

  /** How a `searchMedicalTerms` request ends: with the result list, or rejected. */
  datatype SearchOutcome = Delivered(found: seq<Term>) | Failed

  /**
   * The client's `searchMedicalTerms` as the page sees it: how a request for
   * a given query ends. The server's answer is not computed on the client,
   * so it is a parameter; what matters is which query each handler sends.
   */
  type Searcher = string -> SearchOutcome

  /** The toast a finished search raises, if any. */
  datatype Notice = Quiet | NoResultsFound | SearchFailed

  // ---------------------------------------------------------------------------
  // The context's own operations.
  // ---------------------------------------------------------------------------

  /** The mounted provider: every cell at its default, the list restored from the slot. */
  function Initial(slot: Option<seq<string>>): Session {
    Session([], [], [], false, false, false, slot.GetOr([]), slot)
  }

  /** `addToRecentSearches(term)`: a blank term returns early; otherwise the new list is both kept and written to the slot. */
  function WithRecent(s: Session, term: string): Session {
    if IsBlank(term) then s
    else
      var updated := PutFirst(s.recent, term);
      s.(recent := updated, saved := Some(updated))
  }

  /** `clearRecentSearches()`: the list is emptied and the slot removed. */
  function WithoutRecent(s: Session): Session {
    s.(recent := [], saved := None)
  }

  /** The in-memory list is the one a reload would restore from the slot. */
  predicate Mirrored(s: Session) {
    s.recent == s.saved.GetOr([])
  }

  // ---------------------------------------------------------------------------
  // The search transition shared by the components.
  // ---------------------------------------------------------------------------

  /** What every handler sets before awaiting the request: loading, suggestions hidden, searched. */
  function Launch(s: Session): Session {
    s.(isLoading := true, showSuggestions := false, hasSearched := true)
  }

  /** The `then`/`catch`/`finally` continuation: a delivered list replaces the results, a failure keeps them, loading ends. */
  function Settle(s: Session, outcome: SearchOutcome): Session {
    s.(results := if outcome.Delivered? then outcome.found else s.results, isLoading := false)
  }

  function NoticeFor(outcome: SearchOutcome): Notice {
    match outcome
    case Failed => SearchFailed
    case Delivered(found) => if found == [] then NoResultsFound else Quiet
  }

  /** The search bar's `handleSearch` for the text it read: nothing for blank text, else record, launch, settle. */
  function SearchText(s: Session, text: string, search: Searcher): Session {
    if IsBlank(text) then s else Settle(Launch(WithRecent(s, text)), search(text))
  }

  /** A recent entry's click and the word-of-day's "view details": the box shows the term, which is recorded and searched. */
  function SearchPicked(s: Session, term: string, search: Searcher): Session {
    Settle(WithRecent(Launch(s.(searchTerm := term)), term), search(term))
  }

  /** A related-term click: like a pick, but the recent list is left alone. */
  function SearchRelated(s: Session, term: string, search: Searcher): Session {
    Settle(Launch(s.(searchTerm := term)), search(term))
  }

  // ---------------------------------------------------------------------------
  // View guards.
  // ---------------------------------------------------------------------------

  /** The loading panel renders while a search is in flight. */
  predicate ShowsLoading(s: Session) {
    s.isLoading
  }

  /** The results panel renders only when there are results. */
  predicate ShowsResults(s: Session) {
    |s.results| > 0
  }

  /** The empty-state panel: searched, not loading, no results. */
  predicate ShowsEmptyState(s: Session) {
    s.hasSearched && !s.isLoading && |s.results| == 0
  }

  /** The page shows the word of the day only before the first search. */
  predicate ShowsWordOfDay(s: Session) {
    !s.hasSearched
  }

  /** The recent-search panel renders only when the list is non-empty. */
  predicate ShowsRecentSearches(s: Session) {
    |s.recent| > 0
  }

  // ---------------------------------------------------------------------------
  // Properties of the session.
  // ---------------------------------------------------------------------------

  /** The mounted session: nothing typed, loaded or searched; the word of the day shows; the list is the slot's. */
  lemma InitialSession(slot: Option<seq<string>>)
    ensures var s := Initial(slot);
      s.searchTerm == [] && s.suggestions == [] && s.results == [] &&
      !ShowsLoading(s) && !s.showSuggestions && !ShowsResults(s) && !ShowsEmptyState(s) &&
      ShowsWordOfDay(s) && Mirrored(s) &&
      (slot == None ==> s.recent == []) && (slot.Some? ==> s.recent == slot.value)
  {
  }

  /** Persisting and restoring agree: whatever a mirrored session holds, a reload from its slot holds too. */
  lemma ReloadRestoresList(s: Session)
    requires Mirrored(s)
    ensures Initial(s.saved).recent == s.recent
  {
  }

  /**
   * Adding to the list: a blank term changes nothing, not even the slot;
   * otherwise the list is `AddRecent`'s and the slot holds exactly it.
   * Either way the session stays mirrored and nothing else changes.
   */
  lemma WithRecentFacts(s: Session, term: string)
    ensures IsBlank(term) ==> WithRecent(s, term) == s
    ensures !IsBlank(term) ==>
      var r := WithRecent(s, term);
      r.recent == AddRecent(s.recent, term) && r.saved == Some(r.recent) && ShowsRecentSearches(r)
    ensures Mirrored(s) ==> Mirrored(WithRecent(s, term))
    ensures WithRecent(s, term).(recent := s.recent, saved := s.saved) == s
  {
  }

  /** Adding keeps the list's invariant (bounded, duplicate-free, no blank entries). */
  lemma WithRecentKeepsListValid(s: Session, term: string)
    requires RecentListValid(s.recent)
    ensures RecentListValid(WithRecent(s, term).recent)
  {
    AddRecentKeepsValid(s.recent, term);
  }

  /** Clearing empties the list, removes the slot, hides the panel and keeps the mirror. */
  lemma WithoutRecentFacts(s: Session)
    ensures var r := WithoutRecent(s);
      r.recent == [] && r.saved == None && Mirrored(r) && !ShowsRecentSearches(r) && Initial(r.saved).recent == []
  {
  }

  /** While the request is in flight the loading panel shows and neither the empty state nor the word of the day does. */
  lemma LaunchedViews(s: Session)
    ensures ShowsLoading(Launch(s)) && !ShowsEmptyState(Launch(s)) && !ShowsWordOfDay(Launch(s))
    ensures !Launch(s).showSuggestions
  {
  }

  /**
   * After a launched search settles, loading has ended and exactly one of the
   * results panel and the empty state renders; a delivered list is shown
   * as is, a failure shows the earlier results; "no results" is raised
   * exactly when the empty state shows after a delivery.
   */
  lemma SettledViews(s: Session, outcome: SearchOutcome)
    requires s.hasSearched
    ensures var r := Settle(s, outcome);
      !ShowsLoading(r) && !ShowsWordOfDay(r) &&
      (ShowsEmptyState(r) <==> !ShowsResults(r)) &&
      (outcome.Delivered? ==>
        r.results == outcome.found && (NoticeFor(outcome) == NoResultsFound <==> ShowsEmptyState(r))) &&
      (outcome.Failed? ==> r.results == s.results && NoticeFor(outcome) == SearchFailed)
  {
  }

  /**
   * The search bar's search: blank text leaves the session alone; otherwise
   * the text heads the recent list, suggestions are hidden, the page has
   * searched, loading has ended, and the results are the delivered ones or
   * the earlier ones. The box and the suggestion list are not touched.
   */
  lemma SearchTextFacts(s: Session, text: string, search: Searcher)
    ensures IsBlank(text) ==> SearchText(s, text, search) == s
    ensures !IsBlank(text) ==>
      var r := SearchText(s, text, search);
      r.recent == AddRecent(s.recent, text) && r.recent[0] == text &&
      r.hasSearched && !r.showSuggestions && !ShowsLoading(r) && !ShowsWordOfDay(r) &&
      (ShowsEmptyState(r) <==> !ShowsResults(r)) &&
      r.results == (if search(text).Delivered? then search(text).found else s.results) &&
      r.searchTerm == s.searchTerm && r.suggestions == s.suggestions
    ensures Mirrored(s) ==> Mirrored(SearchText(s, text, search))
  {
    WithRecentFacts(s, text);
    if !IsBlank(text) {
      AddRecentFacts(s.recent, text);
      SettledViews(Launch(WithRecent(s, text)), search(text));
    }
  }

  /**
   * A pick: the box holds the term, the term is recorded (when not blank),
   * and the results are the answer for that term; unlike the search bar's search it
   * is issued even for a blank term.
   */
  lemma SearchPickedFacts(s: Session, term: string, search: Searcher)
    ensures var r := SearchPicked(s, term, search);
      r.searchTerm == term && r.recent == AddRecent(s.recent, term) &&
      r.hasSearched && !r.showSuggestions && !ShowsLoading(r) &&
      (ShowsEmptyState(r) <==> !ShowsResults(r)) &&
      r.results == (if search(term).Delivered? then search(term).found else s.results) &&
      r.suggestions == s.suggestions
    ensures !IsBlank(term) ==> SearchPicked(s, term, search).recent[0] == term
    ensures Mirrored(s) ==> Mirrored(SearchPicked(s, term, search))
  {
    var t := Launch(s.(searchTerm := term));
    WithRecentFacts(t, term);
    AddRecentFacts(s.recent, term);
    SettledViews(WithRecent(t, term), search(term));
  }

  /** A related-term search leaves the recent list and the slot exactly as they were. */
  lemma SearchRelatedFacts(s: Session, term: string, search: Searcher)
    ensures var r := SearchRelated(s, term, search);
      r.searchTerm == term && r.recent == s.recent && r.saved == s.saved &&
      r.hasSearched && !r.showSuggestions && !ShowsLoading(r) &&
      (ShowsEmptyState(r) <==> !ShowsResults(r)) &&
      r.results == (if search(term).Delivered? then search(term).found else s.results)
  {
    SettledViews(Launch(s.(searchTerm := term)), search(term));
  }

  /** Once a search has been launched the word of the day never comes back, whatever is searched next. */
  lemma SearchedStaysSearched(s: Session, text: string, search: Searcher)
    requires s.hasSearched
    ensures !ShowsWordOfDay(SearchText(s, text, search))
    ensures !ShowsWordOfDay(SearchPicked(s, text, search))
    ensures !ShowsWordOfDay(SearchRelated(s, text, search))
    ensures !ShowsWordOfDay(WithRecent(s, text)) && !ShowsWordOfDay(WithoutRecent(s))
  {
  }

  // ---------------------------------------------------------------------------
  // The provider's state cells.
  // ---------------------------------------------------------------------------

  /**
   * The context object. Components write its plain cells through the
   * setters (modelled as field assignments); the two list operations are
   * its methods.
   */
  class SearchContext {
    var searchTerm: string
    var suggestions: seq<string>
    var searchResults: seq<Term>
    var isLoading: bool
    var showSuggestions: bool
    var hasSearched: bool
    var recentSearches: seq<string>
    /** The browser's `recentSearches` storage slot; `None` when the key is absent. */
    var saved: Option<seq<string>>

    function State(): Session
      reads this
    {
      Session(searchTerm, suggestions, searchResults, isLoading, showSuggestions, hasSearched, recentSearches, saved)
    }

    /** Mounting the provider with whatever the slot holds. */
    constructor (slot: Option<seq<string>>)
      ensures State() == Initial(slot)
    {
      searchTerm := [];
      suggestions := [];
      searchResults := [];
      isLoading := false;
      showSuggestions := false;
      hasSearched := false;
      recentSearches := if slot.Some? then slot.value else [];
      saved := slot;
    }

    method AddToRecentSearches(term: string)
      modifies this
      ensures State() == WithRecent(old(State()), term)
    {
      if IsBlank(term) {
        return;
      }
      var updated := PutFirst(recentSearches, term);
      saved := Some(updated);
      recentSearches := updated;
    }

    method ClearRecentSearches()
      modifies this
      ensures State() == WithoutRecent(old(State()))
    {
      recentSearches := [];
      saved := None;
    }
  }

  /** The continuation every search handler attaches to its request, returning the toast it raises. */
  method CompleteSearch(ctx: SearchContext, outcome: SearchOutcome) returns (notice: Notice)
    modifies ctx
    ensures ctx.State() == Settle(old(ctx.State()), outcome)
    ensures notice == NoticeFor(outcome)
  {
    notice := Quiet;
    match outcome {
      case Delivered(found) =>
        ctx.searchResults := found;
        if found == [] {
          notice := NoResultsFound;
        }
      case Failed =>
        notice := SearchFailed;
    }
    ctx.isLoading := false;
  }
}
