/**
 * The recent-search list computation: most recent first, at most ten
 * entries, de-duplicated by case-insensitive comparison of the untrimmed
 * strings; and the list that the remove-one-entry handler rebuilds by
 * re-adding the surviving entries one after another.
 */
module RecentList {
  import opened Strings
  import opened Seqs

  const MaxRecent: nat := 10

  /** `a.toLowerCase() === b.toLowerCase()`; nothing is trimmed. */
  predicate SameIgnoringCase(a: string, b: string) {
    Lower(a) == Lower(b)
  }

  function DiffersFrom(term: string): string -> bool {
    (item: string) => !SameIgnoringCase(item, term)
  }

  /**
   * `addToRecentSearches(term)` on the list: nothing for a blank term;
   * otherwise the term put first (see `PutFirst`).
   */
  function AddRecent(list: seq<string>, term: string): seq<string> {
    if IsBlank(term) then list else PutFirst(list, term)
  }

  /**
   * The term verbatim in front of the entries that differ from it
   * case-insensitively, cut to the first ten.
   */
  function PutFirst(list: seq<string>, term: string): (r: seq<string>)
    ensures 1 <= |r| <= MaxRecent && r[0] == term
    ensures forall k :: 1 <= k < |r| ==> !SameIgnoringCase(r[k], term)
  {
    var kept := Filter(list, DiffersFrom(term));
    var updated := [term] + kept;
    assert updated[1..] == kept;
    if |updated| <= MaxRecent then updated else updated[..MaxRecent]
  }

  /** The entries behind the new head keep their relative order. */
  lemma PutFirstKeepsOrder(list: seq<string>, term: string)
    ensures IsSubseq(PutFirst(list, term)[1..], list)
  {
    var kept := Filter(list, DiffersFrom(term));
    FilterIsSubseq(list, DiffersFrom(term));
    var updated := [term] + kept;
    assert updated[1..] == kept;
    if |updated| > MaxRecent {
      SubseqPrefix(kept, list, MaxRecent - 1);
      assert updated[..MaxRecent][1..] == kept[..MaxRecent - 1];
    }
  }

  /**
   * What adding promises: a blank term changes nothing; otherwise the term
   * heads a list of at most ten whose other entries differ from it ignoring
   * case and keep their relative order; while the list is not full, nothing
   * but the term's own earlier spellings is lost; and a term new to the list
   * is prepended with only the entries beyond the tenth (the oldest) cut.
   */
  lemma AddRecentFacts(list: seq<string>, term: string)
    ensures IsBlank(term) ==> AddRecent(list, term) == list
    ensures !IsBlank(term) ==>
      var r := AddRecent(list, term);
      1 <= |r| <= MaxRecent && r[0] == term &&
      (forall k :: 1 <= k < |r| ==> !SameIgnoringCase(r[k], term)) &&
      IsSubseq(r[1..], list)
    ensures !IsBlank(term) && |list| < MaxRecent ==>
      forall k :: 0 <= k < |list| ==> list[k] in AddRecent(list, term) || SameIgnoringCase(list[k], term)
    ensures !IsBlank(term) && (forall k :: 0 <= k < |list| ==> !SameIgnoringCase(list[k], term)) ==>
      AddRecent(list, term) == ([term] + list)[..if |list| < MaxRecent then |list| + 1 else MaxRecent]
  {
    PutFirstKeepsOrder(list, term);
    if !IsBlank(term) && (forall k :: 0 <= k < |list| ==> !SameIgnoringCase(list[k], term)) {
      PutFirstFresh(list, term);
    }
    if !IsBlank(term) && |list| < MaxRecent {
      var r := PutFirst(list, term);
      var kept := Filter(list, DiffersFrom(term));
      assert r == [term] + kept;
      forall k | 0 <= k < |list| && !SameIgnoringCase(list[k], term) ensures list[k] in r {
        assert DiffersFrom(term)(list[k]);
        assert list[k] in kept;
      }
    }
  }

  /** No two entries are equal ignoring case. */
  ghost predicate NoCaseDuplicates(list: seq<string>) {
    forall i, j {:trigger SameIgnoringCase(list[i], list[j])} ::
      0 <= i < j < |list| ==> !SameIgnoringCase(list[i], list[j])
  }

  ghost predicate AllNonBlank(list: seq<string>) {
    forall k {:trigger IsBlank(list[k])} :: 0 <= k < |list| ==> !IsBlank(list[k])
  }

  lemma NoDuplicateAt(list: seq<string>, i: nat, j: nat)
    requires NoCaseDuplicates(list) && i < j < |list|
    ensures !SameIgnoringCase(list[i], list[j])
  {
  }

  /** What every list built by `AddRecent` from the empty list satisfies. */
  ghost predicate RecentListValid(list: seq<string>) {
    |list| <= MaxRecent && NoCaseDuplicates(list) && AllNonBlank(list)
  }

  /** A sub-sequence of a list without case-insensitive duplicates has none either. */
  lemma {:induction false} SubseqKeepsNoDuplicates(a: seq<string>, b: seq<string>)
    requires IsSubseq(a, b) && NoCaseDuplicates(b)
    ensures NoCaseDuplicates(a)
    ensures forall k :: 0 <= k < |a| ==> a[k] in b
    decreases |b|
  {
    if a != [] {
      if a[0] == b[0] && IsSubseq(a[1..], b[1..]) {
        SubseqKeepsNoDuplicates(a[1..], b[1..]);
        forall j | 1 <= j < |a| ensures !SameIgnoringCase(a[0], a[j]) {
          assert a[j] == a[1..][j - 1];
          var m :| 0 <= m < |b[1..]| && b[1..][m] == a[j];
          assert b[m + 1] == a[j];
        }
      } else {
        SubseqKeepsNoDuplicates(a, b[1..]);
      }
    }
  }

  /** Adding keeps the list free of case-insensitive duplicates. */
  lemma AddRecentKeepsNoDuplicates(list: seq<string>, term: string)
    requires NoCaseDuplicates(list)
    ensures NoCaseDuplicates(AddRecent(list, term))
  {
    var r := AddRecent(list, term);
    if !IsBlank(term) {
      PutFirstKeepsOrder(list, term);
      SubseqKeepsNoDuplicates(r[1..], list);
      forall i, j | 0 <= i < j < |r| ensures !SameIgnoringCase(r[i], r[j]) {
        if i > 0 {
          assert r[i] == r[1..][i - 1] && r[j] == r[1..][j - 1];
        }
      }
    }
  }

  /** Adding keeps every invariant of the list: bounded, duplicate-free, no blank entries. */
  lemma AddRecentKeepsValid(list: seq<string>, term: string)
    requires RecentListValid(list)
    ensures RecentListValid(AddRecent(list, term))
  {
    AddRecentKeepsNoDuplicates(list, term);
    var r := AddRecent(list, term);
    if !IsBlank(term) {
      PutFirstKeepsOrder(list, term);
      var tail := r[1..];
      SubseqKeepsNoDuplicates(tail, list);
      forall k | 1 <= k < |r| ensures !IsBlank(r[k]) {
        assert r[k] == tail[k - 1];
        assert tail[k - 1] in list;
        var m :| 0 <= m < |list| && list[m] == tail[k - 1];
      }
    }
  }

  /** Exactly one entry matching ignoring case is dropped by the filter. */
  lemma {:induction false} FilterDropsTheMatch(list: seq<string>, term: string, m: nat)
    requires NoCaseDuplicates(list)
    requires m < |list| && SameIgnoringCase(list[m], term)
    ensures |Filter(list, DiffersFrom(term))| == |list| - 1
  {
    if m == 0 {
      forall k | 0 <= k < |list[1..]| ensures DiffersFrom(term)(list[1..][k]) {
        assert list[1..][k] == list[k + 1];
        assert !SameIgnoringCase(list[0], list[k + 1]);
      }
      FilterKeepsAll(list[1..], DiffersFrom(term));
    } else {
      assert !SameIgnoringCase(list[0], term) by {
        assert !SameIgnoringCase(list[0], list[m]);
      }
      assert list[1..][m - 1] == list[m];
      FilterDropsTheMatch(list[1..], term, m - 1);
    }
  }

  /** Re-adding an entry already present (ignoring case) moves it to the front without growing the list. */
  lemma ReAddingPresentKeepsLength(list: seq<string>, term: string, m: nat)
    requires NoCaseDuplicates(list) && |list| <= MaxRecent
    requires !IsBlank(term) && m < |list| && SameIgnoringCase(list[m], term)
    ensures |AddRecent(list, term)| == |list|
    ensures AddRecent(list, term) == [term] + Filter(list, DiffersFrom(term))
  {
    FilterDropsTheMatch(list, term, m);
  }

  /**
   * The list the remove handler ends with: starting from the cleared list,
   * each entry of `entries` is added in turn (`entries.forEach(add)`).
   */
  function ReAdd(entries: seq<string>): seq<string> {
    if entries == [] then []
    else AddRecent(ReAdd(entries[..|entries| - 1]), entries[|entries| - 1])
  }

  /**
   * Putting first a term that no entry matches prepends it and keeps the ten
   * most recent: on a list that is not full nothing is lost, and on a full
   * one the oldest entries (the last ones) are dropped.
   */
  lemma PutFirstFresh(list: seq<string>, term: string)
    requires forall k :: 0 <= k < |list| ==> !SameIgnoringCase(list[k], term)
    ensures PutFirst(list, term) == ([term] + list)[..if |list| < MaxRecent then |list| + 1 else MaxRecent]
    ensures |list| < MaxRecent ==> PutFirst(list, term) == [term] + list
    ensures |list| >= MaxRecent ==> PutFirst(list, term) == [term] + list[..MaxRecent - 1]
  {
    forall k | 0 <= k < |list| ensures DiffersFrom(term)(list[k]) {
    }
    FilterKeepsAll(list, DiffersFrom(term));
    assert ([term] + list)[..|list| + 1] == [term] + list;
    if |list| >= MaxRecent {
      assert ([term] + list)[..MaxRecent] == [term] + list[..MaxRecent - 1];
    }
  }

  /** The last entry of a valid list differs, ignoring case, from every earlier one, in whatever order they are listed. */
  lemma LastIsFresh(entries: seq<string>)
    requires RecentListValid(entries) && entries != []
    ensures var prev := Reverse(entries[..|entries| - 1]);
      forall k :: 0 <= k < |prev| ==> !SameIgnoringCase(prev[k], entries[|entries| - 1])
  {
    var n := |entries|;
    var prev := Reverse(entries[..n - 1]);
    forall k | 0 <= k < |prev| ensures !SameIgnoringCase(prev[k], entries[n - 1]) {
      assert prev[k] == entries[n - 2 - k];
      NoDuplicateAt(entries, n - 2 - k, n - 1);
    }
  }

  /** Every prefix of a valid list is valid. */
  lemma PrefixIsValid(entries: seq<string>, n: nat)
    requires RecentListValid(entries) && n <= |entries|
    ensures RecentListValid(entries[..n])
  {
    var front := entries[..n];
    forall i, j | 0 <= i < j < |front| ensures !SameIgnoringCase(front[i], front[j]) {
      NoDuplicateAt(entries, i, j);
    }
    forall i | 0 <= i < |front| ensures !IsBlank(front[i]) {
      assert front[i] == entries[i];
      assert !IsBlank(entries[i]);
    }
  }

  /** Because each add prepends, re-adding duplicate-free, non-blank entries yields them reversed. */
  lemma {:induction false} ReAddReverses(entries: seq<string>)
    requires RecentListValid(entries)
    ensures ReAdd(entries) == Reverse(entries)
  {
    if entries != [] {
      var n := |entries|;
      var front, last := entries[..n - 1], entries[n - 1];
      PrefixIsValid(entries, n - 1);
      ReAddReverses(front);
      LastIsFresh(entries);
      PutFirstFresh(Reverse(front), last);
      assert !IsBlank(last);
    }
  }

  /** Reversing a valid list keeps it valid: the invariant does not depend on the order. */
  lemma ReverseKeepsValid(list: seq<string>)
    requires RecentListValid(list)
    ensures RecentListValid(Reverse(list))
  {
    var r, n := Reverse(list), |list|;
    forall i, j | 0 <= i < j < |r| ensures !SameIgnoringCase(r[i], r[j]) {
      NoDuplicateAt(list, n - 1 - j, n - 1 - i);
    }
    forall i | 0 <= i < |r| ensures !IsBlank(r[i]) {
      assert r[i] == list[n - 1 - i];
      assert !IsBlank(list[n - 1 - i]);
    }
  }

  /** Removing one entry from a valid list and re-adding the rest leaves exactly the other entries, reversed. */
  lemma RemoveThenReAdd(list: seq<string>, i: nat)
    requires RecentListValid(list) && i < |list|
    ensures RecentListValid(RemoveAt(list, i))
    ensures ReAdd(RemoveAt(list, i)) == Reverse(RemoveAt(list, i))
    ensures |ReAdd(RemoveAt(list, i))| == |list| - 1
    ensures multiset(ReAdd(RemoveAt(list, i))) == multiset(list) - multiset{list[i]}
  {
    var rest := RemoveAt(list, i);
    forall a, b | 0 <= a < b < |rest| ensures !SameIgnoringCase(rest[a], rest[b]) {
      var a', b' := if a < i then a else a + 1, if b < i then b else b + 1;
      assert rest[a] == list[a'] && rest[b] == list[b'];
      assert !SameIgnoringCase(list[a'], list[b']);
    }
    forall a | 0 <= a < |rest| ensures !IsBlank(rest[a]) {
      var a' := if a < i then a else a + 1;
      assert rest[a] == list[a'];
      assert !IsBlank(list[a']);
    }
    assert RecentListValid(rest);
    ReAddReverses(rest);
    ReverseKeepsElements(rest);
    RemoveAtDropsOne(list, i);
  }

  /** The comparison is not trimmed: adding "Asthma " keeps an existing "asthma" behind it. */
  lemma ComparisonIsUntrimmed()
    ensures AddRecent(["asthma"], "Asthma ") == ["Asthma ", "asthma"]
  {
    var term := "Asthma ";
    VisibleStartIsNotBlank(term);
    var list := ["asthma"];
    assert !SameIgnoringCase(list[0], term) by {
      assert |Lower(list[0])| == 6 && |Lower(term)| == 7;
    }
    PutFirstFresh(list, term);
  }

  /** A blank term is never recorded. */
  lemma BlankIsNotRecorded()
    ensures AddRecent(["asthma"], " \t ") == ["asthma"]
  {
    assert IsBlank(" \t ") by {
      BlankIffAllWhitespace(" \t ");
    }
  }
}
