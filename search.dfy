/**
 * The public listing page: the search filter recomputed whenever the
 * (debounced) query or the list of records changes, and the cover image and
 * "+N more" badge of each card.
 */
module PublicSearch {
  import opened Wrappers
  import opened Text
  import opened Records

  /** Lowercases every string of a list, keeping positions. */
  function LowerAll(xs: seq<string>): (r: seq<string>)
    ensures |r| == |xs|
    ensures forall i :: 0 <= i < |xs| ==> r[i] == Lower(xs[i])
  {
    if xs == [] then [] else [Lower(xs[0])] + LowerAll(xs[1..])
  }

  /** The strings a query is looked up in: the lowercased title, search terms and category, in that order. */
  function Candidates(m: Measurement): seq<string>
  {
    [Lower(m.data.title)] + LowerAll(m.data.searchTerms) + [Lower(m.data.category)]
  }

  /** Some candidate string of `m` includes the lowercased query. */
  predicate Matches(m: Measurement, query: string)
  {
    var c := Candidates(m);
    exists i :: 0 <= i < |c| && Contains(c[i], Lower(query))
  }

  /** `measurements.filter(...)`: the records that match, in their original order. */
  function Filter(records: seq<Measurement>, query: string): (r: seq<Measurement>)
    ensures |r| <= |records|
    ensures forall m :: m in r <==> m in records && Matches(m, query)
  {
    if records == [] then []
    else (if Matches(records[0], query) then [records[0]] else []) + Filter(records[1..], query)
  }

  /** `a` can be obtained from `b` by deleting elements: the order of what is kept is unchanged. */
  ghost predicate IsSubsequence<T>(a: seq<T>, b: seq<T>)
    decreases |b|
  {
    if a == [] then true
    else if b == [] then false
    else (a[0] == b[0] && IsSubsequence(a[1..], b[1..])) || IsSubsequence(a, b[1..])
  }

  /** The candidate strings of `m`, position by position. */
  lemma CandidatesAt(m: Measurement)
    ensures |Candidates(m)| == |m.data.searchTerms| + 2
    ensures Candidates(m)[0] == Lower(m.data.title)
    ensures Candidates(m)[|m.data.searchTerms| + 1] == Lower(m.data.category)
    ensures forall j :: 0 <= j < |m.data.searchTerms| ==> Candidates(m)[j + 1] == Lower(m.data.searchTerms[j])
  {
  }

  /** A search term that includes the query makes the record match. */
  lemma TermMakesMatch(m: Measurement, query: string, t: string)
    requires t in m.data.searchTerms && Contains(Lower(t), Lower(query))
    ensures Matches(m, query)
  {
    CandidatesAt(m);
    var j :| 0 <= j < |m.data.searchTerms| && m.data.searchTerms[j] == t;
    assert Contains(Candidates(m)[j + 1], Lower(query));
  }

  /** A matching candidate is the title, the category or one of the search terms. */
  lemma MatchComesFromField(m: Measurement, query: string, i: int)
    requires 0 <= i < |Candidates(m)| && Contains(Candidates(m)[i], Lower(query))
    ensures Contains(Lower(m.data.title), Lower(query)) ||
            Contains(Lower(m.data.category), Lower(query)) ||
            exists t :: t in m.data.searchTerms && Contains(Lower(t), Lower(query))
  {
    CandidatesAt(m);
    var terms := m.data.searchTerms;
    if 0 < i <= |terms| {
      assert terms[i - 1] in terms && Contains(Lower(terms[i - 1]), Lower(query));
    }
  }

  /** Matching in terms of the record's own fields: title, category, or one of the search terms. */
  lemma MatchesIff(m: Measurement, query: string)
    ensures Matches(m, query) <==>
      Contains(Lower(m.data.title), Lower(query)) ||
      Contains(Lower(m.data.category), Lower(query)) ||
      exists t :: t in m.data.searchTerms && Contains(Lower(t), Lower(query))
  {
    var c := Candidates(m);
    var q := Lower(query);
    CandidatesAt(m);
    if t :| t in m.data.searchTerms && Contains(Lower(t), q) {
      TermMakesMatch(m, query, t);
    }
    if i :| 0 <= i < |c| && Contains(c[i], q) {
      MatchComesFromField(m, query, i);
    }
    assert Contains(Lower(m.data.title), q) ==> Contains(c[0], q);
    assert Contains(Lower(m.data.category), q) ==> Contains(c[|c| - 1], q);
  }

  /** The result is the input with some records deleted: relative order is preserved. */
  lemma {:induction false} FilterIsSubsequence(records: seq<Measurement>, query: string)
    ensures IsSubsequence(Filter(records, query), records)
  {
    if records != [] {
      FilterIsSubsequence(records[1..], query);
      var r := Filter(records, query);
      if Matches(records[0], query) {
        assert r[0] == records[0];
        assert r[1..] == Filter(records[1..], query);
      } else {
        assert r == Filter(records[1..], query);
      }
    }
  }

  /** Filtering a concatenation filters each part: the kept records stay in input order. */
  lemma {:induction false} FilterAppend(xs: seq<Measurement>, ys: seq<Measurement>, query: string)
    ensures Filter(xs + ys, query) == Filter(xs, query) + Filter(ys, query)
  {
    if xs != [] {
      assert (xs + ys)[0] == xs[0];
      assert (xs + ys)[1..] == xs[1..] + ys;
      FilterAppend(xs[1..], ys, query);
      var head := if Matches(xs[0], query) then [xs[0]] else [];
      calc {
        Filter(xs + ys, query);
        head + Filter((xs + ys)[1..], query);
        head + Filter(xs[1..] + ys, query);
        head + (Filter(xs[1..], query) + Filter(ys, query));
        (head + Filter(xs[1..], query)) + Filter(ys, query);
        Filter(xs, query) + Filter(ys, query);
      }
    } else {
      assert xs + ys == ys;
    }
  }

  /** The empty query keeps every record: every title includes "". */
  lemma {:induction false} FilterEmptyQuery(records: seq<Measurement>)
    ensures Filter(records, "") == records
  {
    if records != [] {
      var m := records[0];
      ContainsEmpty(Lower(m.data.title));
      assert Contains(Candidates(m)[0], Lower(""));
      FilterEmptyQuery(records[1..]);
    }
  }

  /** The query is lowercased before matching, so lowercasing it first changes nothing. */
  lemma {:induction false} FilterLowerQuery(records: seq<Measurement>, query: string)
    ensures Filter(records, Lower(query)) == Filter(records, query)
  {
    LowerIdempotent(query);
    if records != [] {
      FilterLowerQuery(records[1..], query);
    }
  }

  /** Filtering an already filtered list with the same query returns it unchanged. */
  lemma {:induction false} FilterIdempotent(records: seq<Measurement>, query: string)
    ensures Filter(Filter(records, query), query) == Filter(records, query)
  {
    if records != [] {
      FilterIdempotent(records[1..], query);
      var head := if Matches(records[0], query) then [records[0]] else [];
      FilterAppend(head, Filter(records[1..], query), query);
    }
  }

  /** Description, normal value, references, images and timestamps play no part in matching. */
  lemma MatchesOnlyOnTitleCategoryTerms(m: Measurement, m': Measurement, query: string)
    requires m.data.title == m'.data.title
    requires m.data.category == m'.data.category
    requires m.data.searchTerms == m'.data.searchTerms
    ensures Matches(m, query) <==> Matches(m', query)
  {
    assert Candidates(m) == Candidates(m');
  }

  /** Lowercasing neither creates nor removes spaces. */
  lemma LowerKeepsSpaceFree(s: string)
    requires ' ' !in s
    ensures ' ' !in Lower(s)
  {
    forall i | 0 <= i < |s|
      ensures Lower(s)[i] != ' '
    {
      assert s[i] != ' ';
    }
  }

  /** A string without a space does not include " ". */
  lemma SpaceFreeLacksSpace(s: string)
    requires ' ' !in s
    ensures !Contains(s, " ")
  {
    ContainsIffOccurs(s, " ");
    forall k | 0 <= k < |s|
      ensures !OccursAt(s, " ", k)
    {
      assert s[k..k + 1] == [s[k]] != " ";
    }
  }

  /** A record with no space in its title, its category or any search term does not match the query " ". */
  lemma SpaceFreeRecordMissesSpace(m: Measurement)
    requires ' ' !in m.data.title && ' ' !in m.data.category
    requires forall t :: t in m.data.searchTerms ==> ' ' !in t
    ensures !Matches(m, " ")
  {
    assert Lower(" ") == " ";
    LowerKeepsSpaceFree(m.data.title);
    LowerKeepsSpaceFree(m.data.category);
    SpaceFreeLacksSpace(Lower(m.data.title));
    SpaceFreeLacksSpace(Lower(m.data.category));
    forall t | t in m.data.searchTerms
      ensures !Contains(Lower(t), " ")
    {
      LowerKeepsSpaceFree(t);
      SpaceFreeLacksSpace(Lower(t));
    }
    MatchesIff(m, " ");
  }

  /** A query of spaces is not treated as empty: a record with no space in the searched fields is kept by "" and dropped by " ". */
  lemma SpaceQueryIsNotEmpty(m: Measurement)
    requires ' ' !in m.data.title && ' ' !in m.data.category
    requires forall t :: t in m.data.searchTerms ==> ' ' !in t
    ensures Filter([m], " ") == [] && Filter([m], "") == [m]
  {
    FilterEmptyQuery([m]);
    SpaceFreeRecordMissesSpace(m);
    assert [m][1..] == [];
  }

  /** The cover image of a card: the first image, when there is one. */
  function Cover(m: Measurement): (c: Option<Image>)
    ensures c.Some? <==> |m.data.images| > 0
    ensures c.Some? ==> c.value == m.data.images[0]
  {
    if |m.data.images| > 0 then Some(m.data.images[0]) else None
  }

  /** The "+k more" badge of a card: shown only beyond one image, counting the images not on the cover. */
  function MoreBadge(m: Measurement): (k: Option<nat>)
    ensures k.Some? <==> |m.data.images| > 1
    ensures k.Some? ==> k.value >= 1 && k.value == |m.data.images| - 1
  {
    if |m.data.images| > 1 then Some(|m.data.images| - 1) else None
  }

  /** A badge never appears without a cover, and the cover plus the badge account for every image. */
  lemma CoverAndBadgeAccount(m: Measurement)
    ensures MoreBadge(m).Some? ==> Cover(m).Some? && 1 + MoreBadge(m).value == |m.data.images|
    ensures MoreBadge(m).None? ==> |m.data.images| == (if Cover(m).Some? then 1 else 0)
  {
  }
}
