/** Searching and ordering the train list. Two versions exist: `filter_trains`
    with a stable `sorted` on the id (api/vercel_app.py), and the pandas
    cascade of `update_train_list` followed by `sort_values('id')`
    (train_tracker.py). */
module Search {
  import opened Wrappers
  import opened Text
  import opened Trains

  // ---------------------------------------------------------------------
  // Subsequences

  /** `a` is obtained from `b` by deleting elements, keeping the order. */
  predicate IsSubsequence<T(==)>(a: seq<T>, b: seq<T>)
    decreases |b|
  {
    a == [] ||
    (b != [] && ((a[0] == b[0] && IsSubsequence(a[1..], b[1..])) || IsSubsequence(a, b[1..])))
  }

  lemma {:induction false} SubsequenceReflexive<T>(a: seq<T>)
    ensures IsSubsequence(a, a)
    decreases |a|
  {
    if a != [] {
      SubsequenceReflexive(a[1..]);
    }
  }

  // ---------------------------------------------------------------------
  // Selecting trains by id

  /** The match policies used on `str(id)`:
      - `Exact`: equal to the query;
      - `Substring`: `query in id`, case-sensitive;
      - `SubstringIgnoringCase`: `str.contains(query, case=False)`;
      - `WordAtStart`: `str.match(r'\b' + query + r'\b', case=False)` for an
        all-digit query, i.e. the id starts with the query and the query is
        not followed by another word character. */
  datatype Policy = Exact(q: string) | Substring(q: string) | SubstringIgnoringCase(q: string) | WordAtStart(q: string)

  /** A regular-expression word character (ASCII letters, digits, underscore). */
  predicate IsWordChar(c: char) {
    IsDigit(c) || 'a' <= c <= 'z' || 'A' <= c <= 'Z' || c == '_'
  }

  predicate Matches(p: Policy, id: string) {
    match p
    case Exact(q) => id == q
    case Substring(q) => Contains(id, q)
    case SubstringIgnoringCase(q) => ContainsIgnoringCase(id, q)
    case WordAtStart(q) => IsPrefix(Lower(q), Lower(id)) && (|id| == |q| || !IsWordChar(id[|q|]))
  }

  /** The trains whose id matches, in their original order (a list
      comprehension, or a boolean mask on a data frame). */
  function Select(trains: seq<Train>, p: Policy): (r: seq<Train>)
    ensures |r| <= |trains|
  {
    if trains == [] then []
    else (if Matches(p, trains[0].id) then [trains[0]] else []) + Select(trains[1..], p)
  }

  /** Selection keeps exactly the trains of the list whose id matches. */
  lemma {:induction false} SelectMembers(trains: seq<Train>, p: Policy)
    ensures forall t :: t in Select(trains, p) <==> t in trains && Matches(p, t.id)
  {
    if trains != [] {
      SelectMembers(trains[1..], p);
      assert trains == [trains[0]] + trains[1..];
    }
  }

  lemma {:induction false} SelectIsSubsequence(trains: seq<Train>, p: Policy)
    ensures IsSubsequence(Select(trains, p), trains)
  {
    if trains != [] {
      SelectIsSubsequence(trains[1..], p);
      var r := Select(trains, p);
      if Matches(p, trains[0].id) {
        assert r[0] == trains[0] && r[1..] == Select(trains[1..], p);
      } else {
        assert r == Select(trains[1..], p);
      }
    }
  }

  /** Selection distributes over concatenation. */
  lemma {:induction false} SelectAppend(a: seq<Train>, b: seq<Train>, p: Policy)
    ensures Select(a + b, p) == Select(a, p) + Select(b, p)
    decreases |a|
  {
    if a == [] {
      assert a + b == b;
    } else {
      var head := if Matches(p, a[0].id) then [a[0]] else [];
      assert a + b == [a[0]] + (a[1..] + b);
      SelectCons(a[0], a[1..] + b, p);
      assert a == [a[0]] + a[1..];
      SelectCons(a[0], a[1..], p);
      SelectAppend(a[1..], b, p);
      ConcatAssociative(head, Select(a[1..], p), Select(b, p));
    }
  }

  /** Selecting from a non-empty list: the selection of all but the last,
      followed by the last if it matches. */
  lemma SelectLast(s: seq<Train>, p: Policy)
    requires s != []
    ensures Select(s, p) == Select(s[..|s| - 1], p) + if Matches(p, s[|s| - 1].id) then [s[|s| - 1]] else []
  {
    var last := s[|s| - 1];
    assert s == s[..|s| - 1] + [last];
    assert [last][1..] == [];
    SelectAppend(s[..|s| - 1], [last], p);
  }

  /** Whether a search box value asks for no filtering (`not search_value`). */
  predicate NoQuery(query: Option<string>) {
    query.None? || query.value == ""
  }

  // ---------------------------------------------------------------------
  // filter_trains (api/vercel_app.py)

  /** `filter_trains`: no query keeps every train; otherwise the query is
      stripped and matched. */
  function FilterTrains(trains: seq<Train>, query: Option<string>): (r: seq<Train>)
    ensures |r| <= |trains|
  {
    if NoQuery(query) then trains else FilterStripped(trains, Strip(query.value))
  }

  /** The matching part of `filter_trains` on the stripped query: the exact
      matches, and only when there are none, the case-sensitive substring
      matches. */
  function FilterStripped(trains: seq<Train>, q: string): (r: seq<Train>)
    ensures |r| <= |trains|
  {
    var exact := Select(trains, Exact(q));
    if exact != [] then exact else Select(trains, Substring(q))
  }

  /** What `filter_trains` keeps for a stripped query `q`: exactly the trains
      with `id == q` when there is one, otherwise exactly those whose id
      contains `q`; always a subsequence of the input. */
  lemma FilterStrippedMeaning(trains: seq<Train>, q: string)
    ensures IsSubsequence(FilterStripped(trains, q), trains)
    ensures (exists t :: t in trains && t.id == q) ==>
      forall t :: t in FilterStripped(trains, q) <==> t in trains && t.id == q
    ensures (forall t :: t in trains ==> t.id != q) ==>
      forall t :: t in FilterStripped(trains, q) <==> t in trains && Contains(t.id, q)
  {
    SelectIsSubsequence(trains, Exact(q));
    SelectIsSubsequence(trains, Substring(q));
    SelectMembers(trains, Exact(q));
    SelectMembers(trains, Substring(q));
    var exact := Select(trains, Exact(q));
    assert exact == [] || exact[0] in exact;
    if exists t :: t in trains && t.id == q {
      var t :| t in trains && t.id == q;
      assert t in Select(trains, Exact(q));
    }
  }

  /** An absent or empty query returns the list itself; any other query
      returns a subsequence of it. */
  lemma FilterTrainsMeaning(trains: seq<Train>, query: Option<string>)
    ensures IsSubsequence(FilterTrains(trains, query), trains)
    ensures NoQuery(query) ==> FilterTrains(trains, query) == trains
  {
    if NoQuery(query) {
      SubsequenceReflexive(trains);
    } else {
      FilterStrippedMeaning(trains, Strip(query.value));
    }
  }

  // ---------------------------------------------------------------------
  // The pandas cascade of update_train_list (train_tracker.py)

  /** The tracker search as written: no query keeps every train; otherwise
      the query is stripped and run through the cascade as written. */
  function TrackerSearchAsWritten(trains: seq<Train>, query: Option<string>): (r: seq<Train>)
    ensures |r| <= |trains|
  {
    if NoQuery(query) then trains else CascadeAsWritten(trains, Strip(query.value))
  }

  /** The cascade as written: the word-boundary and substring fallbacks
      filter `df` after it was replaced by the (empty) exact-match frame. */
  function CascadeAsWritten(trains: seq<Train>, q: string): (r: seq<Train>)
    ensures |r| <= |trains|
  {
    if IsDigits(q) then
      var df := Select(trains, Exact(q));
      if df == [] && |q| <= 3 then
        var bounded := Select(df, WordAtStart(q));
        if bounded == [] then Select(bounded, SubstringIgnoringCase(q)) else bounded
      else df
    else Select(trains, SubstringIgnoringCase(q))
  }

  /** As written, an all-digit query returns exactly the trains whose id
      equals it: the fallbacks can never add a row. */
  lemma AsWrittenDigitQueryIsExact(trains: seq<Train>, query: Option<string>)
    requires !NoQuery(query) && IsDigits(Strip(query.value))
    ensures TrackerSearchAsWritten(trains, query) == Select(trains, Exact(Strip(query.value)))
  {
    var q := Strip(query.value);
    if Select(trains, Exact(q)) == [] {
      assert Select([], WordAtStart(q)) == [];
      assert Select([], SubstringIgnoringCase(q)) == [];
    }
  }

  /** As written, an absent or empty query returns the list itself, and any
      other query returns a subsequence of it. */
  lemma TrackerSearchAsWrittenMeaning(trains: seq<Train>, query: Option<string>)
    ensures IsSubsequence(TrackerSearchAsWritten(trains, query), trains)
    ensures NoQuery(query) ==> TrackerSearchAsWritten(trains, query) == trains
  {
    if NoQuery(query) {
      SubsequenceReflexive(trains);
    } else {
      var q := Strip(query.value);
      if IsDigits(q) {
        AsWrittenDigitQueryIsExact(trains, query);
        SelectIsSubsequence(trains, Exact(q));
      } else {
        SelectIsSubsequence(trains, SubstringIgnoringCase(q));
      }
    }
  }

  /** As written, a query that is not all digits keeps exactly the trains
      whose id contains it, ignoring case. */
  lemma AsWrittenTextQueryContains(trains: seq<Train>, query: Option<string>)
    ensures !NoQuery(query) && !IsDigits(Strip(query.value)) ==>
      forall t :: t in TrackerSearchAsWritten(trains, query) <==>
        t in trains && ContainsIgnoringCase(t.id, Strip(query.value))
  {
    if !NoQuery(query) {
      SelectMembers(trains, SubstringIgnoringCase(Strip(query.value)));
    }
  }

  /** The input that shows it: searching "14" among a train "149" finds
      nothing, although some id contains the query and the corrected search
      returns that train. */
  lemma AsWrittenMissesFallback()
    ensures var trains := [Train("149", 61.0, 25.0, None, None, None, None)];
      && TrackerSearchAsWritten(trains, Some("14")) == []
      && ContainsIgnoringCase("149", "14")
      && TrackerSearch(trains, Some("14")) == trains
  {
    var t := Train("149", 61.0, 25.0, None, None, None, None);
    FallbackCaseAsWritten(t);
    FallbackCaseCorrected(t);
  }

  lemma StripFourteen()
    ensures Strip("14") == "14"
  {
    var q := "14";
    assert q[0] == '1' && q[|q| - 1] == '4';
    StripUnpadded(q);
  }

  lemma FallbackCaseAsWritten(t: Train)
    requires t.id == "149"
    ensures TrackerSearchAsWritten([t], Some("14")) == []
  {
    StripFourteen();
    SelectSingle(t, Exact("14"));
    assert Select([], WordAtStart("14")) == [];
    assert Select([], SubstringIgnoringCase("14")) == [];
  }

  lemma FallbackCaseCorrected(t: Train)
    requires t.id == "149"
    ensures ContainsIgnoringCase("149", "14")
    ensures TrackerSearch([t], Some("14")) == [t]
  {
    StripFourteen();
    assert ContainsIgnoringCase("149", "14") by {
      assert Lower("149") == "149" && Lower("14") == "14";
      assert IsPrefix("14", "149");
    }
    assert IsDigits("14");
    SelectSingle(t, Exact("14"));
    assert !Matches(WordAtStart("14"), "149") by {
      assert IsWordChar("149"[2]);
    }
    SelectSingle(t, WordAtStart("14"));
    SelectSingle(t, SubstringIgnoringCase("14"));
  }

  /** Selecting from a one-train list. */
  lemma SelectSingle(t: Train, p: Policy)
    ensures Select([t], p) == if Matches(p, t.id) then [t] else []
  {
    assert [t][1..] == [];
  }

  /** The tracker search as its comments describe it: no query keeps every
      train; otherwise the stripped query runs through the cascade. */
  function TrackerSearch(trains: seq<Train>, query: Option<string>): (r: seq<Train>)
    ensures |r| <= |trains|
  {
    if NoQuery(query) then trains else Cascade(trains, Strip(query.value))
  }

  /** The cascade with every fallback applied to the full list: exact match;
      for a short all-digit query with no exact match, the word-boundary
      match; and if that finds nothing, case-insensitive containment. A
      non-digit query goes straight to containment. */
  function Cascade(trains: seq<Train>, q: string): (r: seq<Train>)
    ensures |r| <= |trains|
  {
    if IsDigits(q) then
      var exact := Select(trains, Exact(q));
      if exact == [] && |q| <= 3 then
        var bounded := Select(trains, WordAtStart(q));
        if bounded == [] then Select(trains, SubstringIgnoringCase(q)) else bounded
      else exact
    else Select(trains, SubstringIgnoringCase(q))
  }

  /** Every train the cascade returns comes from the list, in order, and its
      id contains the query ignoring case: each step is narrower than the
      substring match it falls back to. */
  lemma CascadeSound(trains: seq<Train>, q: string)
    ensures IsSubsequence(Cascade(trains, q), trains)
    ensures forall t :: t in Cascade(trains, q) ==> t in trains && ContainsIgnoringCase(t.id, q)
  {
    SelectIsSubsequence(trains, Exact(q));
    SelectIsSubsequence(trains, WordAtStart(q));
    SelectIsSubsequence(trains, SubstringIgnoringCase(q));
    SelectMembers(trains, Exact(q));
    SelectMembers(trains, WordAtStart(q));
    SelectMembers(trains, SubstringIgnoringCase(q));
    ContainsTrivial(Lower(q));
    forall t | t in Cascade(trains, q)
      ensures ContainsIgnoringCase(t.id, q)
    {
      if Matches(WordAtStart(q), t.id) {
        assert IsPrefix(Lower(q), Lower(t.id));
      }
    }
  }

  /** The cascade falls back far enough: a non-digit query, or an all-digit
      query of at most three characters, finds something whenever some id
      contains it ignoring case; and an all-digit query with an exact match
      returns exactly the trains with that id. */
  lemma CascadeComplete(trains: seq<Train>, q: string)
    ensures (!IsDigits(q) || |q| <= 3) && (exists t :: t in trains && ContainsIgnoringCase(t.id, q)) ==>
      Cascade(trains, q) != []
    ensures IsDigits(q) && (exists t :: t in trains && t.id == q) ==>
      Cascade(trains, q) == Select(trains, Exact(q))
  {
    SelectMembers(trains, Exact(q));
    SelectMembers(trains, SubstringIgnoringCase(q));
    if exists t :: t in trains && ContainsIgnoringCase(t.id, q) {
      var t :| t in trains && ContainsIgnoringCase(t.id, q);
      assert t in Select(trains, SubstringIgnoringCase(q));
    }
    if exists t :: t in trains && t.id == q {
      var t :| t in trains && t.id == q;
      assert t in Select(trains, Exact(q));
    }
  }

  /** The corrected search, like the one as written, keeps exactly the trains
      whose id contains a query that is not all digits, ignoring case. */
  lemma TextQueryContains(trains: seq<Train>, query: Option<string>)
    ensures !NoQuery(query) && !IsDigits(Strip(query.value)) ==>
      forall t :: t in TrackerSearch(trains, query) <==>
        t in trains && ContainsIgnoringCase(t.id, Strip(query.value))
  {
    if !NoQuery(query) {
      SelectMembers(trains, SubstringIgnoringCase(Strip(query.value)));
    }
  }

  /** An absent or empty query returns the list itself; any other returns a
      subsequence of it. */
  lemma TrackerSearchMeaning(trains: seq<Train>, query: Option<string>)
    ensures IsSubsequence(TrackerSearch(trains, query), trains)
    ensures NoQuery(query) ==> TrackerSearch(trains, query) == trains
  {
    if NoQuery(query) {
      SubsequenceReflexive(trains);
    } else {
      CascadeSound(trains, Strip(query.value));
    }
  }

  // ---------------------------------------------------------------------
  // Ordering by id

  /** Every id is at most every later id. */
  predicate SortedById(s: seq<Train>) {
    forall i, j :: 0 <= i < j < |s| ==> LexLe(s[i].id, s[j].id)
  }

  /** Each id is at most the next one; the form the proofs work with. */
  predicate Ordered(s: seq<Train>)
    decreases |s|
  {
    |s| <= 1 || (LexLe(s[0].id, s[1].id) && Ordered(s[1..]))
  }

  lemma {:induction false} OrderedFirstLeast(s: seq<Train>)
    requires Ordered(s)
    ensures forall j :: 0 <= j < |s| ==> LexLe(s[0].id, s[j].id)
    decreases |s|
  {
    if |s| == 1 {
      LexLeTotal(s[0].id, s[0].id);
    } else if |s| > 1 {
      OrderedFirstLeast(s[1..]);
      forall j | 0 <= j < |s|
        ensures LexLe(s[0].id, s[j].id)
      {
        if j == 0 {
          LexLeTotal(s[0].id, s[0].id);
        } else {
          assert s[1..][0] == s[1] && s[1..][j - 1] == s[j];
          LexLeTransitive(s[0].id, s[1].id, s[j].id);
        }
      }
    }
  }

  lemma {:induction false} OrderedIsSorted(s: seq<Train>)
    requires Ordered(s)
    ensures SortedById(s)
    decreases |s|
  {
    if |s| > 1 {
      OrderedFirstLeast(s);
      OrderedIsSorted(s[1..]);
      forall i, j | 0 <= i < j < |s|
        ensures LexLe(s[i].id, s[j].id)
      {
        if i > 0 {
          assert s[1..][i - 1] == s[i] && s[1..][j - 1] == s[j];
        }
      }
    }
  }

  /** Places `x` after every train whose id is not greater than its own. */
  function Insert(s: seq<Train>, x: Train): (r: seq<Train>)
    ensures |r| == |s| + 1
  {
    if s == [] then [x]
    else if !LexLe(s[0].id, x.id) then [x] + s
    else [s[0]] + Insert(s[1..], x)
  }

  /** Inserting adds exactly that one train. */
  lemma {:induction false} InsertPermutes(s: seq<Train>, x: Train)
    ensures multiset(Insert(s, x)) == multiset(s) + multiset{x}
  {
    if s != [] {
      assert s == [s[0]] + s[1..];
      if LexLe(s[0].id, x.id) {
        InsertPermutes(s[1..], x);
      }
    }
  }

  /** `sorted(trains, key=lambda t: str(t['id']))`: a stable sort by id. */
  function SortById(s: seq<Train>): (r: seq<Train>)
    ensures |r| == |s|
  {
    if s == [] then [] else Insert(SortById(s[..|s| - 1]), s[|s| - 1])
  }

  lemma {:induction false} InsertOrdered(s: seq<Train>, x: Train)
    requires Ordered(s)
    ensures Ordered(Insert(s, x))
    ensures Insert(s, x)[0] == if s == [] || !LexLe(s[0].id, x.id) then x else s[0]
  {
    if s != [] {
      if !LexLe(s[0].id, x.id) {
        LexLeTotal(s[0].id, x.id);
        assert ([x] + s)[1..] == s;
      } else {
        var r := Insert(s[1..], x);
        InsertOrdered(s[1..], x);
        assert Insert(s, x) == [s[0]] + r;
        assert ([s[0]] + r)[1..] == r;
      }
    }
  }

  /** In an ordered list whose first id is greater than `id`, no train has
      id `id`. */
  lemma NoneBelowFirst(s: seq<Train>, id: string)
    requires Ordered(s) && s != [] && !LexLe(s[0].id, id)
    ensures Select(s, Exact(id)) == []
  {
    SelectMembers(s, Exact(id));
    if Select(s, Exact(id)) != [] {
      var y := Select(s, Exact(id))[0];
      assert y in Select(s, Exact(id));
      var j :| 0 <= j < |s| && s[j] == y;
      OrderedFirstLeast(s);
    }
  }

  lemma {:induction false} InsertStable(s: seq<Train>, x: Train, id: string)
    requires Ordered(s)
    ensures Select(Insert(s, x), Exact(id)) == Select(s, Exact(id)) + if x.id == id then [x] else []
    decreases |s|
  {
    var ex := Exact(id);
    var added := if x.id == id then [x] else [];
    if s == [] || !LexLe(s[0].id, x.id) {
      assert Insert(s, x) == [x] + s;
      SelectCons(x, s, ex);
      if x.id == id {
        if s != [] {
          NoneBelowFirst(s, id);
        }
        assert Select(s, ex) == [];
      }
    } else {
      var rest := Insert(s[1..], x);
      var head := if s[0].id == id then [s[0]] else [];
      assert Insert(s, x) == [s[0]] + rest;
      SelectCons(s[0], rest, ex);
      assert s == [s[0]] + s[1..];
      SelectCons(s[0], s[1..], ex);
      InsertStable(s[1..], x, id);
      ConcatAssociative(head, Select(s[1..], ex), added);
    }
  }

  lemma ConcatAssociative(a: seq<Train>, b: seq<Train>, c: seq<Train>)
    ensures a + (b + c) == (a + b) + c
  {
  }

  /** Selecting from a list with a train in front. */
  lemma SelectCons(x: Train, s: seq<Train>, p: Policy)
    ensures Select([x] + s, p) == (if Matches(p, x.id) then [x] else []) + Select(s, p)
  {
    assert ([x] + s)[0] == x && ([x] + s)[1..] == s;
  }

  lemma {:induction false} SortByIdOrdered(s: seq<Train>)
    ensures Ordered(SortById(s))
  {
    if s != [] {
      SortByIdOrdered(s[..|s| - 1]);
      InsertOrdered(SortById(s[..|s| - 1]), s[|s| - 1]);
    }
  }

  /** Sorting keeps, for every id, the trains with that id in their
      original relative order. */
  lemma {:induction false} SortByIdStable(s: seq<Train>, id: string)
    ensures Select(SortById(s), Exact(id)) == Select(s, Exact(id))
  {
    if s != [] {
      var init, last := s[..|s| - 1], s[|s| - 1];
      var extra := if last.id == id then [last] else [];
      assert Select(SortById(s), Exact(id)) == Select(init, Exact(id)) + extra by {
        SortByIdStable(init, id);
        SortByIdOrdered(init);
        InsertStable(SortById(init), last, id);
      }
      SelectLast(s, Exact(id));
    }
  }

  /** The displayed order: sorted ascending by id, a permutation of its
      input, and stable — the trains sharing an id appear in their original
      relative order. */
  lemma SortByIdCorrect(s: seq<Train>)
    ensures SortedById(SortById(s))
    ensures multiset(SortById(s)) == multiset(s)
    ensures forall id :: Select(SortById(s), Exact(id)) == Select(s, Exact(id))
  {
    SortByIdOrdered(s);
    OrderedIsSorted(SortById(s));
    SortByIdPermutes(s);
    forall id
      ensures Select(SortById(s), Exact(id)) == Select(s, Exact(id))
    {
      SortByIdStable(s, id);
    }
  }

  lemma {:induction false} SortByIdPermutes(s: seq<Train>)
    ensures multiset(SortById(s)) == multiset(s)
  {
    if s != [] {
      SortByIdPermutes(s[..|s| - 1]);
      InsertPermutes(SortById(s[..|s| - 1]), s[|s| - 1]);
      assert s == s[..|s| - 1] + [s[|s| - 1]];
    }
  }
}
