/**
 * The four GET handlers of the HTTP API, each a decision from the raw query
 * parameters and the store to a status and a body. Only the search handler
 * changes the store (it appends a history record); the others only read it.
 */
module Routes {
  import opened Wrappers
  import opened Strings
  import opened Storage

  /** A parsed query-string parameter: missing, a single string, or an array/object (`?t=a&t=b`, `?t[x]=a`). */
  datatype Param = Absent | Text(value: string) | Composite

  datatype ErrorTag = ValidationError | NotFound

  datatype Body =
    | Results(results: seq<Term>)
    | Suggestions(names: seq<string>)
    | Found(term: Term)
    | Problem(tag: ErrorTag)

  datatype Response = Response(status: int, body: Body)

  const BadRequest := Response(400, Problem(ValidationError))
  const Missing := Response(404, Problem(NotFound))

  /**
   * The parameter check shared by the handlers: `!p || typeof p !== "string"`
   * rejects, and so does zod's `z.string().min(1)`; both accept exactly a
   * non-empty string. Whitespace counts towards the length.
   */
  predicate IsNonEmptyString(p: Param) {
    p.Text? && |p.value| >= 1
  }

  const DefaultSuggestionLimit: nat := 5

  predicate IsDigits(s: string) {
    forall k :: 0 <= k < |s| ==> '0' <= s[k] <= '9'
  }

  /** `parseInt(s, 10)` on a string of decimal digits. */
  function ParseDecimal(s: string): (n: nat)
    requires IsDigits(s)
    ensures s == [] ==> n == 0
  {
    if s == [] then 0
    else ParseDecimal(s[..|s| - 1]) * 10 + (s[|s| - 1] as int - '0' as int)
  }

  /** Leading zeros do not change the value, as with `parseInt("05", 10)`. */
  lemma {:induction false} LeadingZeroIgnored(s: string)
    requires IsDigits(s)
    ensures IsDigits("0" + s) && ParseDecimal("0" + s) == ParseDecimal(s)
  {
    if s != [] {
      var z := "0" + s;
      assert z[..|z| - 1] == "0" + s[..|s| - 1];
      LeadingZeroIgnored(s[..|s| - 1]);
    }
  }

  /** The decimal digit `d`. */
  function DigitChar(d: nat): char
    requires d < 10
  {
    ('0' as int + d) as char
  }

  /** The decimal form of `n` without leading zeros, as `String(n)` writes it. */
  function DecimalDigits(n: nat): (s: string)
    ensures IsDigits(s) && |s| >= 1
  {
    if n < 10 then [DigitChar(n)] else DecimalDigits(n / 10) + [DigitChar(n % 10)]
  }

  /** Parsing undoes writing: `parseInt(String(n), 10) == n`. */
  lemma {:induction false} ParseDecimalInvertsDigits(n: nat)
    ensures ParseDecimal(DecimalDigits(n)) == n
  {
    if n >= 10 {
      ParseDecimalInvertsDigits(n / 10);
      var s := DecimalDigits(n);
      assert s[..|s| - 1] == DecimalDigits(n / 10);
    }
  }

  /** The `limit` values this model covers: absent, or a string of decimal digits (possibly empty). */
  predicate LimitSupported(limit: Param) {
    limit.Absent? || (limit.Text? && IsDigits(limit.value))
  }

  /** `limit ? parseInt(limit, 10) : 5`: the empty string is falsy, so it also selects the default. */
  function LimitOf(limit: Param): (n: nat)
    requires LimitSupported(limit)
    ensures limit.Absent? || limit == Text("") ==> n == DefaultSuggestionLimit
    ensures limit.Text? && limit.value != "" ==> n == ParseDecimal(limit.value)
  {
    if limit.Absent? || limit.value == "" then DefaultSuggestionLimit else ParseDecimal(limit.value)
  }

  /** A caller's `limit=n`, written in decimal, selects exactly `n` suggestions. */
  lemma LimitOfDecimal(n: nat)
    ensures LimitSupported(Text(DecimalDigits(n)))
    ensures LimitOf(Text(DecimalDigits(n))) == n
  {
    ParseDecimalInvertsDigits(n);
  }

  /**
   * GET /api/search: 400 without touching the store unless `term` is a
   * non-empty string; otherwise the store's search results, after appending
   * one history record with the raw term and the result count.
   */
  method HandleSearch(store: MemStorage, term: Param, timestamp: string, ip: Option<string>)
    returns (resp: Response)
    requires store.Valid()
    modifies store
    ensures store.Valid()
    ensures store.terms == old(store.terms) && store.currentTermId == old(store.currentTermId)
    ensures !IsNonEmptyString(term) ==>
      resp == BadRequest && store.history == old(store.history)
      && store.currentSearchId == old(store.currentSearchId)
    ensures IsNonEmptyString(term) ==>
      var results := SearchTerms(old(store.terms), term.value);
      && resp == Response(200, Results(results))
      && store.history == old(store.history)
           + [SearchRecord(old(store.currentSearchId), term.value, timestamp, |results|, OrNull(ip))]
    ensures IsNonEmptyString(term) && IsBlank(term.value) ==>
      resp == Response(200, Results([])) && store.history[|store.history| - 1].resultCount == 0
  {
    if !IsNonEmptyString(term) {
      return BadRequest;
    }
    var searchTerm := term.value;
    var results := SearchTerms(store.terms, searchTerm);
    var _ := store.RecordSearch(NewSearch(searchTerm, timestamp, |results|, ip));
    resp := Response(200, Results(results));
  }

  /**
   * GET /api/suggestions: 400 unless `term` is a non-empty string; otherwise
   * the store's suggestions for it, at most `limit` (default 5) of them.
   */
  function HandleSuggestions(store: MemStorage, term: Param, limit: Param): (r: Response)
    requires LimitSupported(limit)
    reads store
    ensures !IsNonEmptyString(term) <==> r == BadRequest
    ensures IsNonEmptyString(term) ==>
      r == Response(200, Suggestions(Suggest(store.terms, term.value, LimitOf(limit))))
    ensures r.status == 200 ==> r.body.Suggestions? && |r.body.names| <= LimitOf(limit)
  {
    if !IsNonEmptyString(term) then BadRequest
    else Response(200, Suggestions(Suggest(store.terms, term.value, LimitOf(limit))))
  }

  /** GET /api/term: 400 unless `name` is a non-empty string, 404 when no record has that name, else the record. */
  function HandleTermLookup(store: MemStorage, name: Param): (r: Response)
    reads store
    ensures !IsNonEmptyString(name) <==> r == BadRequest
    ensures r == Missing <==> IsNonEmptyString(name) && FindByName(store.terms, name.value).None?
    ensures r.status == 200 <==> IsNonEmptyString(name) && FindByName(store.terms, name.value).Some?
    ensures r.status == 200 ==> r.body == Found(FindByName(store.terms, name.value).value)
  {
    if !IsNonEmptyString(name) then BadRequest
    else
      match FindByName(store.terms, name.value)
      case None => Missing
      case Some(t) => Response(200, Found(t))
  }

  /** GET /api/word-of-day: 404 exactly when the store is empty, else some stored record. */
  method HandleWordOfDay(store: MemStorage) returns (resp: Response)
    ensures resp == Missing <==> store.terms == []
    ensures resp != Missing ==> resp.status == 200 && resp.body.Found? && resp.body.term in store.terms
  {
    var picked := store.GetRandomTerm();
    match picked
    case None => resp := Missing;
    case Some(t) => resp := Response(200, Found(t));
  }
}
