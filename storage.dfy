/**
 * The server's in-memory term store (`MemStorage`): a table of term records
 * keyed by id and iterated in insertion order, an append-only search-history
 * table, and the two id counters. The table is held as the sequence of its
 * records in insertion order; the source always files a record under its own
 * id, so the key is the record's `id` field.
 */
module Storage {
  import opened Wrappers
  import opened Strings
  import opened Seqs

  /** One dictionary entry; `category` is the source's `type` column. */
  datatype Term = Term(
    id: int,
    name: string,
    definition: string,
    pronunciation: Option<string>,
    category: Option<string>,
    symptoms: Option<seq<string>>,
    relatedTerms: Option<seq<string>>)

  /** The data of a term to insert; `None` stands for `undefined` or `null`. */
  datatype NewTerm = NewTerm(
    name: string,
    definition: string,
    pronunciation: Option<string>,
    category: Option<string>,
    symptoms: Option<seq<string>>,
    relatedTerms: Option<seq<string>>)

  /** One analytics record of a search. */
  datatype SearchRecord = SearchRecord(
    id: int,
    searchTerm: string,
    timestamp: string,
    resultCount: int,
    ipAddress: Option<string>)

  datatype NewSearch = NewSearch(
    searchTerm: string,
    timestamp: string,
    resultCount: int,
    ipAddress: Option<string>)

  /** `value || null` for an optional string: the empty string is falsy as well. */
  function OrNull(value: Option<string>): (r: Option<string>)
    ensures r.None? <==> value.None? || value == Some("")
    ensures r.Some? ==> r == value
  {
    if value == Some("") then None else value
  }

  ghost predicate DistinctIds(terms: seq<Term>) {
    forall i, j :: 0 <= i < j < |terms| ==> terms[i].id != terms[j].id
  }

  /** A seed list the constructor's `length + 1` counter is correct for: distinct ids, none above the count. */
  ghost predicate SeedIdsFit(seed: seq<Term>) {
    DistinctIds(seed) && forall k :: 0 <= k < |seed| ==> seed[k].id <= |seed|
  }

  function Names(terms: seq<Term>): (r: seq<string>)
    ensures |r| == |terms| && forall k :: 0 <= k < |terms| ==> r[k] == terms[k].name
  {
    seq(|terms|, k requires 0 <= k < |terms| => terms[k].name)
  }

  // ---------------------------------------------------------------------------
  // The read-only pipelines over `Array.from(this.medicalTerms.values())`.
  // ---------------------------------------------------------------------------

  /** `getMedicalTerm(id)`: the record filed under `id`, if any. */
  function FindById(terms: seq<Term>, id: int): (r: Option<Term>)
    ensures r.None? <==> forall k :: 0 <= k < |terms| ==> terms[k].id != id
    ensures r.Some? ==> r.value in terms && r.value.id == id
  {
    if terms == [] then None
    else if terms[0].id == id then Some(terms[0])
    else FindById(terms[1..], id)
  }

  /** Index `k` holds the first record, in store order, whose lower-cased name is `key`. */
  ghost predicate FirstNamedAt(terms: seq<Term>, key: string, k: int) {
    && 0 <= k < |terms|
    && Lower(terms[k].name) == key
    && forall j :: 0 <= j < k ==> Lower(terms[j].name) != key
  }

  /** The first record whose lower-cased name is exactly `key`. */
  function FindNamed(terms: seq<Term>, key: string): (r: Option<Term>)
    ensures r.None? <==> forall k :: 0 <= k < |terms| ==> Lower(terms[k].name) != key
    ensures r.Some? ==> exists k :: FirstNamedAt(terms, key, k) && terms[k] == r.value
  {
    if terms == [] then None
    else if Lower(terms[0].name) == key then
      assert FirstNamedAt(terms, key, 0);
      Some(terms[0])
    else
      var r := FindNamed(terms[1..], key);
      assert r.Some? ==> exists k :: FirstNamedAt(terms, key, k) && terms[k] == r.value by {
        if r.Some? {
          var k :| FirstNamedAt(terms[1..], key, k) && terms[1..][k] == r.value;
          assert FirstNamedAt(terms, key, k + 1);
        }
      }
      r
  }

  /**
   * `getMedicalTermByName(query)`: the first record in store order whose
   * lower-cased name equals the lower-cased, trimmed query. The stored name
   * is not trimmed.
   */
  function FindByName(terms: seq<Term>, query: string): (r: Option<Term>)
    ensures r.None? <==> forall k :: 0 <= k < |terms| ==> Lower(terms[k].name) != Normalize(query)
    ensures r.Some? ==> exists k :: FirstNamedAt(terms, Normalize(query), k) && terms[k] == r.value
  {
    FindNamed(terms, Normalize(query))
  }

  /** The search predicate: name, definition or some related term contains `key`; symptoms are not consulted. */
  predicate TermMatches(t: Term, key: string) {
    || Contains(Lower(t.name), key)
    || Contains(Lower(t.definition), key)
    || (t.relatedTerms.Some? &&
        exists k :: 0 <= k < |t.relatedTerms.value| && Contains(Lower(t.relatedTerms.value[k]), key))
  }

  function SearchFilter(key: string): Term -> bool {
    (t: Term) => TermMatches(t, key)
  }

  /**
   * `searchMedicalTerms(query)`: empty for a blank query; otherwise every
   * record matching the normalized query, in store order.
   */
  function SearchTerms(terms: seq<Term>, query: string): (r: seq<Term>)
    ensures IsBlank(query) ==> r == []
    ensures !IsBlank(query) ==> IsSubseq(r, terms)
    ensures !IsBlank(query) ==> forall k :: 0 <= k < |r| ==> TermMatches(r[k], Normalize(query))
    ensures !IsBlank(query) ==>
      forall k :: 0 <= k < |terms| && TermMatches(terms[k], Normalize(query)) ==> terms[k] in r
    ensures !IsBlank(query) ==>
      forall t :: multiset(r)[t] == if TermMatches(t, Normalize(query)) then multiset(terms)[t] else 0
  {
    if IsBlank(query) then []
    else
      FilterIsSubseq(terms, SearchFilter(Normalize(query)));
      var r := Filter(terms, SearchFilter(Normalize(query)));
      assert forall t :: multiset(r)[t] == if TermMatches(t, Normalize(query)) then multiset(terms)[t] else 0 by {
        forall t ensures multiset(r)[t] == if TermMatches(t, Normalize(query)) then multiset(terms)[t] else 0 {
          FilterCounts(terms, SearchFilter(Normalize(query)), t);
        }
      }
      r
  }

  /** Reference definition: the names, in store order, of the records whose lower-cased name contains `key`. */
  function NamesContaining(terms: seq<Term>, key: string): seq<string> {
    if terms == [] then []
    else (if Contains(Lower(terms[0].name), key) then [terms[0].name] else []) + NamesContaining(terms[1..], key)
  }

  /** Every name in the reference list contains the key and belongs to a stored record. */
  lemma {:induction false} NamesContainingSound(terms: seq<Term>, key: string)
    ensures forall x :: x in NamesContaining(terms, key) ==> Contains(Lower(x), key) && x in Names(terms)
  {
    if terms != [] {
      NamesContainingSound(terms[1..], key);
      assert Names(terms) == [terms[0].name] + Names(terms[1..]);
    }
  }

  function NameFilter(key: string): Term -> bool {
    (t: Term) => Contains(Lower(t.name), key)
  }

  lemma NamesOfCons(t: Term, terms: seq<Term>)
    ensures Names([t] + terms) == [t.name] + Names(terms)
  {
  }

  /** `.filter(name contains key).map(t => t.term)` is the reference list of matching names. */
  lemma {:induction false} NamesOfNameFilter(terms: seq<Term>, key: string)
    ensures Names(Filter(terms, NameFilter(key))) == NamesContaining(terms, key)
  {
    if terms != [] {
      var p := NameFilter(key);
      var tail := Filter(terms[1..], p);
      NamesOfNameFilter(terms[1..], key);
      if p(terms[0]) {
        assert Filter(terms, p) == [terms[0]] + tail;
        NamesOfCons(terms[0], tail);
      } else {
        assert Filter(terms, p) == tail;
      }
    }
  }

  /** The suggestion guard: blank after trimming, or fewer than two characters before trimming. */
  predicate TooShortToSuggest(partial: string) {
    IsBlank(partial) || |partial| < 2
  }

  /**
   * `getSuggestions(partial, limit)`: empty when the guard rejects the input;
   * otherwise the first `limit` names containing the normalized partial.
   */
  function Suggest(terms: seq<Term>, partial: string, limit: nat): (r: seq<string>)
    ensures TooShortToSuggest(partial) ==> r == []
    ensures |r| <= limit
    ensures forall k :: 0 <= k < |r| ==> Contains(Lower(r[k]), Normalize(partial)) && r[k] in Names(terms)
    ensures !TooShortToSuggest(partial) ==>
      var all := NamesContaining(terms, Normalize(partial));
      r == all[..if limit <= |all| then limit else |all|]
  {
    if TooShortToSuggest(partial) then []
    else
      var key := Normalize(partial);
      var names := Names(Filter(terms, NameFilter(key)));
      NamesOfNameFilter(terms, key);
      NamesContainingSound(terms, key);
      if |names| <= limit then names else names[..limit]
  }

  // ---------------------------------------------------------------------------
  // The store object.
  // ---------------------------------------------------------------------------

  class MemStorage {
    /** `medicalTerms.values()` in insertion order. */
    var terms: seq<Term>
    /** `searchHistory.values()` in insertion order. */
    var history: seq<SearchRecord>
    var currentTermId: int
    var currentSearchId: int

    /** Record ids are distinct and below the next term id; search ids run 1, 2, ... and the counter is the next one. */
    ghost predicate Valid()
      reads this
    {
      && DistinctIds(terms)
      && (forall k :: 0 <= k < |terms| ==> terms[k].id < currentTermId)
      && currentSearchId == |history| + 1
      && (forall k :: 0 <= k < |history| ==> history[k].id == k + 1)
    }

    /** Fills the table from the seed list in order; the next term id is the seed's length plus one. */
    constructor (seed: seq<Term>)
      requires SeedIdsFit(seed)
      ensures Valid()
      ensures terms == seed && history == []
      ensures currentTermId == |seed| + 1 && currentSearchId == 1
    {
      var filled: seq<Term> := [];
      for k := 0 to |seed|
        invariant filled == seed[..k]
      {
        filled := filled + [seed[k]];
      }
      terms := filled;
      history := [];
      currentTermId := |seed| + 1;
      currentSearchId := 1;
    }

    /**
     * `insertMedicalTerm`: files a new record under the current counter, which
     * goes up by one; falsy optional strings become `null` (arrays, even empty
     * ones, are truthy and kept).
     */
    method InsertMedicalTerm(data: NewTerm) returns (t: Term)
      requires Valid()
      modifies this
      ensures Valid()
      ensures t == Term(old(currentTermId), data.name, data.definition,
                        OrNull(data.pronunciation), OrNull(data.category),
                        data.symptoms, data.relatedTerms)
      ensures currentTermId == old(currentTermId) + 1
      ensures terms == old(terms) + [t]
      ensures history == old(history) && currentSearchId == old(currentSearchId)
      ensures FindById(terms, t.id) == Some(t)
      ensures forall id :: id != t.id ==> FindById(terms, id) == FindById(old(terms), id)
    {
      var id := currentTermId;
      currentTermId := currentTermId + 1;
      t := Term(id, data.name, data.definition, OrNull(data.pronunciation), OrNull(data.category),
                data.symptoms, data.relatedTerms);
      FindByIdAfterAppend(terms, t);
      terms := terms + [t];
    }

    /** `recordSearch`: appends a record with the next search id; a falsy address becomes `null`. */
    method RecordSearch(data: NewSearch) returns (rec: SearchRecord)
      requires Valid()
      modifies this
      ensures Valid()
      ensures rec == SearchRecord(old(currentSearchId), data.searchTerm, data.timestamp,
                                  data.resultCount, OrNull(data.ipAddress))
      ensures history == old(history) + [rec]
      ensures rec.id == |history|
      ensures terms == old(terms) && currentTermId == old(currentTermId)
    {
      var id := currentSearchId;
      currentSearchId := currentSearchId + 1;
      rec := SearchRecord(id, data.searchTerm, data.timestamp, data.resultCount, OrNull(data.ipAddress));
      history := history + [rec];
    }

    /** `getRandomTerm`: absent exactly when the table is empty, otherwise some stored record (the index is arbitrary). */
    method GetRandomTerm() returns (r: Option<Term>)
      ensures r.None? <==> terms == []
      ensures r.Some? ==> r.value in terms
    {
      if |terms| == 0 {
        r := None;
      } else {
        var i :| 0 <= i < |terms|;
        r := Some(terms[i]);
      }
    }
  }

  /** Appending a record with a fresh id makes it findable and leaves every other lookup as it was. */
  lemma {:induction false} FindByIdAfterAppend(terms: seq<Term>, t: Term)
    requires forall k :: 0 <= k < |terms| ==> terms[k].id < t.id
    ensures FindById(terms + [t], t.id) == Some(t)
    ensures forall id :: id != t.id ==> FindById(terms + [t], id) == FindById(terms, id)
  {
    if terms != [] {
      FindByIdAfterAppend(terms[1..], t);
      assert (terms + [t])[1..] == terms[1..] + [t];
    }
  }

  // ---------------------------------------------------------------------------
  // The seed list.
  // ---------------------------------------------------------------------------

  /** The ids of the bundled sample records, in the order they are seeded. */
  const SampleIds: seq<int> := [13, 14, 15, 16, 17, 18, 19, 20, 21, 22, 23,
                                1, 2, 3, 4, 5, 6, 7, 8, 9, 10, 11, 12]

  /** The bundled seed satisfies the constructor's requirement: after seeding, the next id (24) exceeds every seeded id. */
  lemma SampleSeedFits(seed: seq<Term>)
    requires |seed| == |SampleIds|
    requires forall k :: 0 <= k < |seed| ==> seed[k].id == SampleIds[k]
    ensures SeedIdsFit(seed)
  {
    forall k | 0 <= k < |seed| ensures seed[k].id == if k < 11 then k + 13 else k - 10 {
    }
  }
}
