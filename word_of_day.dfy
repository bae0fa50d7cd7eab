/**
 * The word-of-the-day widget: its own loading, error and word cells filled
 * by one fetch when it mounts, what it renders from them, and its
 * "view details" button, which searches the word like a recent entry.
 */
module WordOfDay {
  import opened Wrappers
  import opened Strings
  import opened Storage
  import opened RecentList
  import opened SearchSession

  /**
   * How the fetch ends: a term, an empty answer (`null`), or an exception.
   * The client's `getWordOfDay` catches every request error and returns
   * `null`, so a failed request arrives as `NoWord`; `Threw` is the
   * component's own `catch`, which the request does not reach.
   */
  datatype WordReply = Got(word: Term) | NoWord | Threw

  /** Which of the two error messages the widget keeps. */
  datatype WordError = NotRetrieved | FetchError

  datatype Widget = Widget(word: Option<Term>, loading: bool, error: Option<WordError>)

  /** What the widget renders: the loading skeleton, nothing at all, or the card for a word. */
  datatype WordView = Skeleton | NothingShown | Card(shown: Term)

  /** Just mounted: loading, no word, no error. */
  const Mounted: Widget := Widget(None, true, None)

  /** The fetch sets loading, then records the word (clearing the error) or an error, and always ends loading. */
  function Loaded(w: Widget, reply: WordReply): Widget {
    match reply
    case Got(t) => w.(word := Some(t), error := None, loading := false)
    case NoWord => w.(error := Some(NotRetrieved), loading := false)
    case Threw => w.(error := Some(FetchError), loading := false)
  }

  function View(w: Widget): WordView {
    if w.loading then Skeleton
    else if w.error.Some? || w.word.None? then NothingShown
    else Card(w.word.value)
  }

  /** "View details": nothing without a word; otherwise the word's name is picked and searched. */
  function ViewDetails(s: Session, word: Option<Term>, search: Searcher): Session {
    if word.None? then s else SearchPicked(s, word.value.name, search)
  }

  /**
   * The widget shows the skeleton until the fetch ends and never afterwards;
   * it then shows the card for a delivered word and nothing on an empty
   * answer or an exception.
   */
  lemma FetchFacts(reply: WordReply)
    ensures View(Mounted) == Skeleton
    ensures var w := Loaded(Mounted, reply);
      !w.loading && View(w) != Skeleton &&
      (reply.Got? ==> w.word == Some(reply.word) && w.error == None && View(w) == Card(reply.word)) &&
      (!reply.Got? ==> w.error.Some? && View(w) == NothingShown)
  {
  }

  /** A failed fetch hides the widget even if an earlier word was kept. */
  lemma ErrorHidesAnyWord(w: Widget, reply: WordReply)
    requires !reply.Got?
    ensures View(Loaded(w, reply)) == NothingShown && Loaded(w, reply).word == w.word
  {
  }

  /**
   * "View details" does nothing without a word; with one, the box holds the
   * word's name, the name heads the recent list when not blank, the
   * suggestion list is hidden, and the search settles like any other.
   */
  lemma ViewDetailsFacts(s: Session, word: Option<Term>, search: Searcher)
    ensures word.None? ==> ViewDetails(s, word, search) == s
    ensures word.Some? ==>
      var r := ViewDetails(s, word, search);
      r.searchTerm == word.value.name && r.recent == AddRecent(s.recent, word.value.name) &&
      (!IsBlank(word.value.name) ==> r.recent[0] == word.value.name) &&
      r.hasSearched && !ShowsWordOfDay(r) && !ShowsLoading(r) &&
      !r.showSuggestions && r.suggestions == s.suggestions &&
      r.results == (if search(word.value.name).Delivered? then search(word.value.name).found else s.results)
    ensures Mirrored(s) ==> Mirrored(ViewDetails(s, word, search))
  {
    if word.Some? {
      SearchPickedFacts(s, word.value.name, search);
    }
  }

  class WordOfDayWidget {
    const ctx: SearchContext
    var wordOfDay: Option<Term>
    var isLoading: bool
    var error: Option<WordError>

    function Snapshot(): Widget
      reads this
    {
      Widget(wordOfDay, isLoading, error)
    }

    constructor (session: SearchContext)
      ensures ctx == session && Snapshot() == Mounted
    {
      ctx := session;
      wordOfDay := None;
      isLoading := true;
      error := None;
    }

    /** The effect run once on mount, with the answer the request produced. */
    method FetchWordOfDay(reply: WordReply)
      modifies this
      ensures Snapshot() == Loaded(old(Snapshot()), reply)
    {
      isLoading := true;
      match reply {
        case Got(t) =>
          wordOfDay := Some(t);
          error := None;
        case NoWord =>
          error := Some(NotRetrieved);
        case Threw =>
          error := Some(FetchError);
      }
      isLoading := false;
    }

    method HandleViewDetails(search: Searcher) returns (notice: Notice)
      modifies ctx
      ensures ctx.State() == ViewDetails(old(ctx.State()), wordOfDay, search)
      ensures notice == if wordOfDay.None? then Quiet else NoticeFor(search(wordOfDay.value.name))
    {
      if wordOfDay.None? {
        return Quiet;
      }
      var name := wordOfDay.value.name;
      ghost var launched := Launch(ctx.State().(searchTerm := name));
      ctx.searchTerm := name;
      ctx.isLoading := true;
      ctx.hasSearched := true;
      ctx.showSuggestions := false;
      assert ctx.State() == launched;
      ctx.AddToRecentSearches(name);
      notice := CompleteSearch(ctx, search(name));
    }
  }
}
