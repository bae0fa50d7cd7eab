/**
 * The search box: debounced suggestion fetching, keyboard navigation over
 * the suggestion list, and the search it submits. The component's own cells
 * are the highlighted suggestion and the pending debounce timer; everything
 * else it reads and writes lives in the shared session.
 */
module SearchBar {
  import opened Wrappers
  import opened Strings
  import opened RecentList
  import opened SearchSession

  datatype Key = Enter | ArrowDown | ArrowUp | Escape | Tab | OtherKey

  /** How a `getSuggestions` request ends: with a list of names, or rejected. */
  datatype SuggestionReply = Replied(names: seq<string>) | Threw

  /**
   * The component's view of the world: the session, the highlighted index,
   * and the value the pending debounce timer will fetch (`None`: no timer
   * pending).
   */
  datatype Bar = Bar(session: Session, highlight: int, pending: Option<string>)

  /** What a key press does: the next state, whether the default action was prevented, and the toast raised. */
  datatype Reaction = Reaction(next: Bar, prevented: bool, notice: Notice)

  /**
   * What every handler keeps: the list is only open over some suggestions, and
   * while there are suggestions the highlight is -1 (none) or one of them.
   */
  predicate BarInvariant(b: Bar) {
    && (b.session.showSuggestions ==> |b.session.suggestions| > 0)
    && (|b.session.suggestions| > 0 ==> -1 <= b.highlight < |b.session.suggestions|)
  }

  // ---------------------------------------------------------------------------
  // Highlight arithmetic.
  // ---------------------------------------------------------------------------

  /** ArrowDown while open: the next suggestion, wrapping from the last to the first. */
  function NextHighlight(h: int, count: int): int {
    if h < count - 1 then h + 1 else 0
  }

  /** ArrowUp while open: the previous suggestion; from the first, or from none, to the last. */
  function PrevHighlight(h: int, count: int): int {
    if h > 0 then h - 1 else count - 1
  }

  /** From any highlight the invariant allows, both moves land on a suggestion. */
  lemma HighlightMovesStayInRange(h: int, count: int)
    requires -1 <= h < count && count > 0
    ensures 0 <= NextHighlight(h, count) < count
    ensures 0 <= PrevHighlight(h, count) < count
  {
  }

  /** Down and up undo each other on a highlighted suggestion. */
  lemma HighlightMovesAreInverse(h: int, count: int)
    requires 0 <= h < count
    ensures PrevHighlight(NextHighlight(h, count), count) == h
    ensures NextHighlight(PrevHighlight(h, count), count) == h
  {
  }

  /** `k` presses of ArrowDown from `h`. */
  function Advance(h: int, count: int, k: nat): int {
    if k == 0 then h else NextHighlight(Advance(h, count, k - 1), count)
  }

  /** From the first suggestion, `k` presses reach suggestion `k`, and `count` presses come back round to the first. */
  lemma {:induction false} AdvanceCycles(count: nat, k: nat)
    requires 0 < count && k <= count
    ensures Advance(0, count, k) == if k < count then k else 0
  {
    if k > 0 {
      AdvanceCycles(count, k - 1);
    }
  }

  // ---------------------------------------------------------------------------
  // The handlers on values.
  // ---------------------------------------------------------------------------

  /** `handleInputChange(value)`: the box shows the value and the pending timer is replaced by one for it. */
  function Typed(b: Bar, value: string): Bar {
    b.(session := b.session.(searchTerm := value), pending := Some(value))
  }

  /**
   * `fetchSuggestions(term)`: for fewer than two characters the list is
   * emptied and closed without a request; otherwise a reply replaces the
   * list, opens it exactly when non-empty and clears the highlight, and a
   * rejected request changes nothing.
   */
  function Fetched(b: Bar, term: string, reply: SuggestionReply): Bar {
    if |term| >= 2 then
      match reply
      case Replied(names) => b.(session := b.session.(suggestions := names, showSuggestions := |names| > 0), highlight := -1)
      case Threw => b
    else
      b.(session := b.session.(suggestions := [], showSuggestions := false))
  }

  /** The debounce timer fires: the value it was set for is fetched. */
  function TimerFired(b: Bar, reply: SuggestionReply): Bar
    requires b.pending.Some?
  {
    Fetched(b.(pending := None), b.pending.value, reply)
  }

  /** `handleSearch()`: the session's search for the text currently in the box. */
  function Searched(b: Bar, search: Searcher): Reaction {
    var text := b.session.searchTerm;
    Reaction(b.(session := SearchText(b.session, text, search)), false,
             if IsBlank(text) then Quiet else NoticeFor(search(text)))
  }

  /**
   * `handleSuggestionClick(suggestion)`: the box now shows the suggestion
   * and the list closes, but the search that follows reads the text the
   * box held before, so that older text is what is recorded and searched.
   */
  function Selected(b: Bar, suggestion: string, search: Searcher): Reaction {
    var before := b.session.searchTerm;
    var shown := b.session.(searchTerm := suggestion, showSuggestions := false);
    Reaction(b.(session := SearchText(shown, before, search)), false,
             if IsBlank(before) then Quiet else NoticeFor(search(before)))
  }

  function PressedDown(b: Bar): Bar {
    var count := |b.session.suggestions|;
    if b.session.showSuggestions then b.(highlight := NextHighlight(b.highlight, count))
    else if count > 0 then b.(session := b.session.(showSuggestions := true), highlight := 0)
    else b
  }

  function PressedUp(b: Bar): Bar {
    if b.session.showSuggestions then b.(highlight := PrevHighlight(b.highlight, |b.session.suggestions|))
    else b
  }

  /** `handleKeyDown`: Enter, the arrows, Escape and Tab; other keys do nothing. */
  function KeyPressed(b: Bar, key: Key, search: Searcher): Reaction
    requires BarInvariant(b)
  {
    var h, sugs := b.highlight, b.session.suggestions;
    match key
    case Enter =>
      if 0 <= h < |sugs| then Selected(b, sugs[h], search) else Searched(b, search)
    case ArrowDown => Reaction(PressedDown(b), true, Quiet)
    case ArrowUp => Reaction(PressedUp(b), true, Quiet)
    case Escape => Reaction(b.(session := b.session.(showSuggestions := false)), false, Quiet)
    case Tab =>
      if b.session.showSuggestions && h >= 0 then
        var r := Selected(b, sugs[h], search);
        r.(prevented := true)
      else Reaction(b, false, Quiet)
    case OtherKey => Reaction(b, false, Quiet)
  }

  /** Focusing the box reopens a non-empty list. */
  function Focused(b: Bar): Bar {
    if |b.session.suggestions| > 0 then b.(session := b.session.(showSuggestions := true)) else b
  }

  /** A mouse press outside the box and the list closes it; one inside changes nothing. */
  function PressedElsewhere(b: Bar, outside: bool): Bar {
    if outside then b.(session := b.session.(showSuggestions := false)) else b
  }

  /** The clear button: empty box, no suggestions, list closed; the highlight is left as it was. */
  function Cleared(b: Bar): Bar {
    b.(session := b.session.(searchTerm := [], suggestions := [], showSuggestions := false))
  }

  /** Hovering suggestion `i` highlights it. */
  function Hovered(b: Bar, i: int): Bar {
    b.(highlight := i)
  }

  // ---------------------------------------------------------------------------
  // Properties of the handlers.
  // ---------------------------------------------------------------------------

  /** Typing replaces any pending fetch with one for the new value and touches nothing else. */
  lemma TypedFacts(b: Bar, value: string)
    ensures Typed(b, value).pending == Some(value)
    ensures Typed(b, value).session.searchTerm == value
    ensures Typed(Typed(b, value), value) == Typed(b, value)
    ensures BarInvariant(b) ==> BarInvariant(Typed(b, value))
  {
  }

  /**
   * Only the last value typed is fetched: a second keystroke before the timer
   * fires overrides the first, which leaves no trace at all.
   */
  lemma OnlyLastValueFetched(b: Bar, first: string, second: string, reply: SuggestionReply)
    ensures Typed(Typed(b, first), second) == Typed(b, second)
    ensures TimerFired(Typed(Typed(b, first), second), reply) == TimerFired(Typed(b, second), reply)
    ensures TimerFired(Typed(Typed(b, first), second), reply) == Fetched(Typed(Typed(b, first), second).(pending := None), second, reply)
    ensures TimerFired(Typed(Typed(b, first), second), reply).pending == None
  {
  }

  /** What a fetch does, and that it keeps the invariant. */
  lemma FetchedFacts(b: Bar, term: string, reply: SuggestionReply)
    requires BarInvariant(b)
    ensures var r := Fetched(b, term, reply);
      BarInvariant(r) &&
      (|term| < 2 ==>
        r.session.suggestions == [] && !r.session.showSuggestions && r.highlight == b.highlight && r.pending == b.pending) &&
      (|term| >= 2 && reply.Replied? ==>
        r.session.suggestions == reply.names && (r.session.showSuggestions <==> |reply.names| > 0) && r.highlight == -1 &&
        r.pending == b.pending) &&
      (|term| >= 2 && reply.Threw? ==> r == b) &&
      r.session.(suggestions := b.session.suggestions, showSuggestions := b.session.showSuggestions) == b.session
  {
  }

  /** The bar's search for blank text changes nothing; otherwise the text heads the recent list and the list closes. */
  lemma SearchedFacts(b: Bar, search: Searcher)
    requires BarInvariant(b)
    ensures var r := Searched(b, search);
      BarInvariant(r.next) && r.next.highlight == b.highlight && r.next.pending == b.pending &&
      (IsBlank(b.session.searchTerm) ==> r.next == b && r.notice == Quiet) &&
      (!IsBlank(b.session.searchTerm) ==>
        r.next.session.recent[0] == b.session.searchTerm && !r.next.session.showSuggestions &&
        r.next.session.hasSearched && !r.next.session.isLoading && r.notice == NoticeFor(search(b.session.searchTerm)) &&
        r.next.session.results ==
          (if search(b.session.searchTerm).Delivered? then search(b.session.searchTerm).found else b.session.results))
  {
    SearchTextFacts(b.session, b.session.searchTerm, search);
  }

  lemma SearchedKeepsInvariant(b: Bar, search: Searcher)
    requires BarInvariant(b)
    ensures BarInvariant(Searched(b, search).next)
  {
    SearchedFacts(b, search);
  }

  lemma SelectedKeepsInvariant(b: Bar, suggestion: string, search: Searcher)
    requires BarInvariant(b)
    ensures BarInvariant(Selected(b, suggestion, search).next)
  {
    SelectionSearchesPreviousText(b, suggestion, search);
  }

  /**
   * Selecting a suggestion leaves it in the box but records and searches
   * the text that was there before; when that text was blank, nothing is
   * searched at all.
   */
  lemma SelectionSearchesPreviousText(b: Bar, suggestion: string, search: Searcher)
    requires BarInvariant(b)
    ensures var r := Selected(b, suggestion, search);
      var before := b.session.searchTerm;
      BarInvariant(r.next) && r.next.session.searchTerm == suggestion && !r.next.session.showSuggestions &&
      (IsBlank(before) ==>
        r.next.session.recent == b.session.recent && r.notice == Quiet && r.next.session.hasSearched == b.session.hasSearched) &&
      (!IsBlank(before) ==>
        r.next.session.recent == AddRecent(b.session.recent, before) && r.next.session.recent[0] == before && r.next.session.hasSearched &&
        r.next.session.results == (if search(before).Delivered? then search(before).found else b.session.results) &&
        r.notice == NoticeFor(search(before)))
  {
    var shown := b.session.(searchTerm := suggestion, showSuggestions := false);
    SearchTextFacts(shown, b.session.searchTerm, search);
  }

  /** A concrete case: after typing "ast" and selecting "Asthma", the entry recorded is "ast". */
  lemma SelectingAsthmaRecordsAst(b: Bar, search: Searcher)
    requires BarInvariant(b) && b.session.searchTerm == "ast"
    ensures Selected(b, "Asthma", search).next.session.searchTerm == "Asthma"
    ensures Selected(b, "Asthma", search).next.session.recent[0] == "ast"
    ensures Selected(b, "Asthma", search).next.session.results ==
      if search("ast").Delivered? then search("ast").found else b.session.results
  {
    VisibleStartIsNotBlank("ast");
    SelectionSearchesPreviousText(b, "Asthma", search);
  }

  /** ArrowDown: cycles while open, opens on the first suggestion while closed over some, else nothing; always prevented. */
  lemma ArrowDownFacts(b: Bar, search: Searcher)
    requires BarInvariant(b)
    ensures var r := KeyPressed(b, ArrowDown, search);
      var count := |b.session.suggestions|;
      r.prevented && BarInvariant(r.next) && r.next.session.suggestions == b.session.suggestions &&
      (b.session.showSuggestions ==>
        r.next == b.(highlight := NextHighlight(b.highlight, count)) &&
        (b.highlight == count - 1 ==> r.next.highlight == 0)) &&
      (!b.session.showSuggestions && count > 0 ==>
        r.next == b.(session := b.session.(showSuggestions := true), highlight := 0)) &&
      (!b.session.showSuggestions && count == 0 ==> r.next == b)
  {
    if b.session.showSuggestions {
      HighlightMovesStayInRange(b.highlight, |b.session.suggestions|);
    }
  }

  /** ArrowUp: cycles backward while open (the first or none goes to the last), nothing while closed; always prevented. */
  lemma ArrowUpFacts(b: Bar, search: Searcher)
    requires BarInvariant(b)
    ensures var r := KeyPressed(b, ArrowUp, search);
      var count := |b.session.suggestions|;
      r.prevented && BarInvariant(r.next) && r.next.session == b.session && r.next.pending == b.pending &&
      (b.session.showSuggestions && b.highlight <= 0 ==> r.next.highlight == count - 1) &&
      (b.session.showSuggestions && b.highlight > 0 ==> r.next.highlight == b.highlight - 1) &&
      (!b.session.showSuggestions ==> r.next == b)
  {
    if b.session.showSuggestions {
      HighlightMovesStayInRange(b.highlight, |b.session.suggestions|);
    }
  }

  /** Escape closes the list and keeps the box, the suggestions and the highlight. */
  lemma EscapeFacts(b: Bar, search: Searcher)
    requires BarInvariant(b)
    ensures var r := KeyPressed(b, Escape, search);
      BarInvariant(r.next) && !r.next.session.showSuggestions && !r.prevented &&
      r.next.session.(showSuggestions := b.session.showSuggestions) == b.session && r.next.highlight == b.highlight &&
      r.next.pending == b.pending
  {
  }

  /** Enter selects an in-range highlight, whether or not the list is open, and otherwise searches the box's text. */
  lemma EnterFacts(b: Bar, search: Searcher)
    requires BarInvariant(b)
    ensures var h := b.highlight;
      (0 <= h < |b.session.suggestions| ==>
        KeyPressed(b, Enter, search) == Selected(b, b.session.suggestions[h], search)) &&
      (!(0 <= h < |b.session.suggestions|) ==> KeyPressed(b, Enter, search) == Searched(b, search))
    ensures BarInvariant(KeyPressed(b, Enter, search).next)
  {
    var h := b.highlight;
    if 0 <= h < |b.session.suggestions| {
      SelectionSearchesPreviousText(b, b.session.suggestions[h], search);
    } else {
      SearchedFacts(b, search);
    }
  }

  /** Tab selects (and is prevented) exactly when the list is open with a highlight; otherwise it does nothing. */
  lemma TabFacts(b: Bar, search: Searcher)
    requires BarInvariant(b)
    ensures var r := KeyPressed(b, Tab, search);
      BarInvariant(r.next) && (r.prevented <==> b.session.showSuggestions && b.highlight >= 0) &&
      (b.session.showSuggestions && b.highlight >= 0 ==>
        r.next == Selected(b, b.session.suggestions[b.highlight], search).next) &&
      (!(b.session.showSuggestions && b.highlight >= 0) ==> r.next == b)
  {
    if b.session.showSuggestions && b.highlight >= 0 {
      SelectionSearchesPreviousText(b, b.session.suggestions[b.highlight], search);
    }
  }

  /** Every key press keeps the invariant. */
  lemma KeyPressedKeepsInvariant(b: Bar, key: Key, search: Searcher)
    requires BarInvariant(b)
    ensures BarInvariant(KeyPressed(b, key, search).next)
  {
    match key {
      case Enter => EnterFacts(b, search);
      case ArrowDown => ArrowDownFacts(b, search);
      case ArrowUp => ArrowUpFacts(b, search);
      case Escape => EscapeFacts(b, search);
      case Tab => TabFacts(b, search);
      case OtherKey =>
    }
  }

  /** Focus, an outside press, the clear button and hovering a rendered suggestion keep the invariant; an outside press only closes the list, and one inside changes nothing. */
  lemma PointerHandlersKeepInvariant(b: Bar, outside: bool, i: int)
    requires BarInvariant(b)
    ensures BarInvariant(Focused(b)) && BarInvariant(PressedElsewhere(b, outside)) && BarInvariant(Cleared(b))
    ensures 0 <= i < |b.session.suggestions| ==> BarInvariant(Hovered(b, i)) && Hovered(b, i).highlight == i
    ensures Focused(b).session.showSuggestions <==> |b.session.suggestions| > 0 || b.session.showSuggestions
    ensures outside ==>
      && !PressedElsewhere(b, outside).session.showSuggestions
      && PressedElsewhere(b, outside).session.(showSuggestions := b.session.showSuggestions) == b.session
      && PressedElsewhere(b, outside).highlight == b.highlight && PressedElsewhere(b, outside).pending == b.pending
    ensures !outside ==> PressedElsewhere(b, outside) == b
    ensures Cleared(b).session.searchTerm == [] && Cleared(b).session.suggestions == [] && Cleared(b).highlight == b.highlight
  {
  }

  // ---------------------------------------------------------------------------
  // The component.
  // ---------------------------------------------------------------------------

  class SearchBar {
    const ctx: SearchContext
    var highlightedIndex: int
    /** The value the pending `suggestionTimer` will fetch; `None` once no timer is pending. */
    var pending: Option<string>

    function Snapshot(): Bar
      reads this, ctx
    {
      Bar(ctx.State(), highlightedIndex, pending)
    }

    ghost predicate Valid()
      reads this, ctx
    {
      BarInvariant(Snapshot())
    }

    /** Mounting the bar: nothing highlighted, no timer. */
    constructor (session: SearchContext)
      requires session.showSuggestions ==> |session.suggestions| > 0
      ensures ctx == session && Valid()
      ensures Snapshot() == Bar(session.State(), -1, None)
    {
      ctx := session;
      highlightedIndex := -1;
      pending := None;
    }

    method InputChange(value: string)
      requires Valid()
      modifies this, ctx
      ensures Valid()
      ensures Snapshot() == Typed(old(Snapshot()), value)
    {
      ctx.searchTerm := value;
      pending := Some(value);
    }

    method FetchSuggestions(term: string, reply: SuggestionReply)
      requires Valid()
      modifies this, ctx
      ensures Valid()
      ensures Snapshot() == Fetched(old(Snapshot()), term, reply)
    {
      FetchedFacts(Snapshot(), term, reply);
      if |term| >= 2 {
        match reply {
          case Replied(names) =>
            ctx.suggestions := names;
            ctx.showSuggestions := |names| > 0;
            highlightedIndex := -1;
          case Threw =>
        }
      } else {
        ctx.suggestions := [];
        ctx.showSuggestions := false;
      }
    }

    /** The debounce timer fires for the value it was set with. */
    method TimerFires(reply: SuggestionReply)
      requires Valid() && pending.Some?
      modifies this, ctx
      ensures Valid()
      ensures Snapshot() == TimerFired(old(Snapshot()), reply)
    {
      var value := pending.value;
      pending := None;
      FetchSuggestions(value, reply);
    }

    /** `handleSearch()`, reading the text in the box. */
    method HandleSearch(search: Searcher) returns (notice: Notice)
      requires Valid()
      modifies ctx
      ensures Valid()
      ensures Snapshot() == Searched(old(Snapshot()), search).next
      ensures notice == Searched(old(Snapshot()), search).notice
    {
      ghost var before := Snapshot();
      notice := RunSearch(ctx.searchTerm, search);
      SearchedKeepsInvariant(before, search);
    }

    /** The body of `handleSearch` for the text the current render captured. */
    method RunSearch(text: string, search: Searcher) returns (notice: Notice)
      modifies ctx
      ensures ctx.State() == SearchText(old(ctx.State()), text, search)
      ensures notice == if IsBlank(text) then Quiet else NoticeFor(search(text))
    {
      if IsBlank(text) {
        return Quiet;
      }
      ctx.AddToRecentSearches(text);
      ctx.isLoading := true;
      ctx.showSuggestions := false;
      ctx.hasSearched := true;
      notice := CompleteSearch(ctx, search(text));
    }

    method SuggestionClick(suggestion: string, search: Searcher) returns (notice: Notice)
      requires Valid()
      modifies ctx
      ensures Valid()
      ensures Snapshot() == Selected(old(Snapshot()), suggestion, search).next
      ensures notice == Selected(old(Snapshot()), suggestion, search).notice
    {
      ghost var before := Snapshot();
      SelectedKeepsInvariant(before, suggestion, search);
      var captured := ctx.searchTerm;
      ctx.searchTerm := suggestion;
      ctx.showSuggestions := false;
      notice := RunSearch(captured, search);
    }

    method KeyDown(key: Key, search: Searcher) returns (prevented: bool, notice: Notice)
      requires Valid()
      modifies this, ctx
      ensures Valid()
      ensures Snapshot() == KeyPressed(old(Snapshot()), key, search).next
      ensures prevented == KeyPressed(old(Snapshot()), key, search).prevented
      ensures notice == KeyPressed(old(Snapshot()), key, search).notice
    {
      KeyPressedKeepsInvariant(Snapshot(), key, search);
      prevented, notice := false, Quiet;
      var count := |ctx.suggestions|;
      match key {
        case Enter =>
          if 0 <= highlightedIndex < count {
            notice := SuggestionClick(ctx.suggestions[highlightedIndex], search);
          } else {
            notice := HandleSearch(search);
          }
        case ArrowDown =>
          prevented := true;
          if ctx.showSuggestions {
            highlightedIndex := NextHighlight(highlightedIndex, count);
          } else if count > 0 {
            ctx.showSuggestions := true;
            highlightedIndex := 0;
          }
        case ArrowUp =>
          prevented := true;
          if ctx.showSuggestions {
            highlightedIndex := PrevHighlight(highlightedIndex, count);
          }
        case Escape =>
          ctx.showSuggestions := false;
        case Tab =>
          if ctx.showSuggestions && highlightedIndex >= 0 {
            prevented := true;
            notice := SuggestionClick(ctx.suggestions[highlightedIndex], search);
          }
        case OtherKey =>
      }
    }

    method Focus()
      requires Valid()
      modifies ctx
      ensures Valid()
      ensures Snapshot() == Focused(old(Snapshot()))
    {
      if |ctx.suggestions| > 0 {
        ctx.showSuggestions := true;
      }
    }

    /** A document mouse press; `outside` says whether it landed outside both the box and the list. */
    method MouseDown(outside: bool)
      requires Valid()
      modifies ctx
      ensures Valid()
      ensures Snapshot() == PressedElsewhere(old(Snapshot()), outside)
    {
      if outside {
        ctx.showSuggestions := false;
      }
    }

    method ClearButton()
      requires Valid()
      modifies ctx
      ensures Valid()
      ensures Snapshot() == Cleared(old(Snapshot()))
    {
      ctx.searchTerm := [];
      ctx.suggestions := [];
      ctx.showSuggestions := false;
    }

    /** Hovering one of the rendered suggestion buttons. */
    method MouseEnter(i: int)
      requires Valid() && 0 <= i < |ctx.suggestions|
      modifies this
      ensures Valid()
      ensures Snapshot() == Hovered(old(Snapshot()), i)
    {
      highlightedIndex := i;
    }
  }
}
