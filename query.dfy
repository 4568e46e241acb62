/** The search filters of the store and the bleve query that `buildBleveQuery`
    (domain/domain.go) constructs from them, as a query syntax tree.
    Boosts are kept as integer tenths: 10.0 is 100, 0.3 is 3. */
module TodoQuery {
  import opened Text
  import opened Seqs

  /** `SearchFilters`: which archive state to list, and the free text to match. */
  datatype SearchFilters = SearchFilters(archived: bool, textMatch: Bytes)

  /** The three fields of an indexed document. */
  datatype Field = TitleField | DescriptionField | ArchivedField

  datatype Query =
    | MatchPhrase(field: Field, phrase: Bytes, boost: nat)
    | Match(field: Field, text: Bytes, boost: nat)
    | Fuzzy(field: Field, term: Bytes, fuzziness: nat, boost: nat)
    | BoolField(field: Field, value: bool)
    | Conjunction(conjuncts: seq<Query>)
    | Disjunction(disjuncts: seq<Query>)
    | MatchAll

  /** The clause that keeps only documents indexed with `Archived == false`. */
  const NotArchived: Query := BoolField(ArchivedField, false)

  /** Terms long enough for fuzzy matching: more than three bytes. */
  predicate IsLong(term: Bytes) {
    |term| > 3
  }

  /** The long terms, in query order (a term given twice counts twice); that
      none is missed is `LongTermsComplete`, the order `LongTermsAppend`. */
  function LongTerms(terms: seq<Bytes>): (r: seq<Bytes>)
    ensures |r| <= |terms|
    ensures forall j :: 0 <= j < |r| ==> IsLong(r[j]) && r[j] in terms
    decreases |terms|
  {
    if terms == [] then []
    else
      var prev := LongTerms(terms[..|terms| - 1]);
      var last := terms[|terms| - 1];
      if IsLong(last) then prev + [last] else prev
  }

  /** Every term longer than three bytes is kept. */
  lemma {:induction false} LongTermsComplete(terms: seq<Bytes>, i: nat)
    requires i < |terms| && IsLong(terms[i])
    ensures terms[i] in LongTerms(terms)
    decreases |terms|
  {
    if i < |terms| - 1 {
      var init := terms[..|terms| - 1];
      assert init[i] == terms[i];
      LongTermsComplete(init, i);
    }
  }

  /** Selecting the long terms of two runs of terms one after the other keeps
      the long terms of the first run before those of the second. */
  lemma {:induction false} LongTermsAppend(a: seq<Bytes>, b: seq<Bytes>)
    ensures LongTerms(a + b) == LongTerms(a) + LongTerms(b)
    decreases |b|
  {
    if b == [] {
      assert a + b == a;
    } else {
      AppendInit(a, b);
      LongTermsAppend(a, b[..|b| - 1]);
    }
  }

  /** Strategy 2 of `buildBleveQuery`: per term, a title match (boost 3.0) and a
      description match (boost 1.0). */
  function TermClauses(terms: seq<Bytes>): (r: seq<Query>)
    ensures |r| == 2 * |terms|
    ensures forall i :: 0 <= i < |terms| ==>
              r[2 * i] == Match(TitleField, terms[i], 30) &&
              r[2 * i + 1] == Match(DescriptionField, terms[i], 10)
    decreases |terms|
  {
    if terms == [] then []
    else
      var last := terms[|terms| - 1];
      TermClauses(terms[..|terms| - 1]) + [Match(TitleField, last, 30), Match(DescriptionField, last, 10)]
  }

  /** Strategy 3: per long term, a title fuzzy match (boost 0.5) and a
      description fuzzy match (boost 0.3), both at edit distance 1. */
  function FuzzyClauses(terms: seq<Bytes>): (r: seq<Query>)
    ensures |r| == 2 * |LongTerms(terms)|
    ensures forall j :: 0 <= j < |LongTerms(terms)| ==>
              r[2 * j] == Fuzzy(TitleField, LongTerms(terms)[j], 1, 5) &&
              r[2 * j + 1] == Fuzzy(DescriptionField, LongTerms(terms)[j], 1, 3)
    decreases |terms|
  {
    if terms == [] then []
    else
      var last := terms[|terms| - 1];
      var prev := FuzzyClauses(terms[..|terms| - 1]);
      if IsLong(last) then prev + [Fuzzy(TitleField, last, 1, 5), Fuzzy(DescriptionField, last, 1, 3)]
      else prev
  }

  /** Strategy 1: the whole query as a phrase, on the title (boost 10.0) and on
      the description (boost 2.0). */
  function PhraseClauses(terms: seq<Bytes>): (r: seq<Query>)
    ensures |r| == 2 && r[0].MatchPhrase? && r[1].MatchPhrase?
    ensures r[0].field == TitleField && r[1].field == DescriptionField
    ensures r[0].phrase == r[1].phrase && r[0].boost == 5 * r[1].boost
  {
    var phrase := Join(terms);
    [MatchPhrase(TitleField, phrase, 100), MatchPhrase(DescriptionField, phrase, 20)]
  }

  /** The disjuncts of the content query: strategies 1, 2 and 3 in that order. */
  function ContentClauses(terms: seq<Bytes>): (cs: seq<Query>)
    ensures |cs| == 2 + 2 * |terms| + 2 * |LongTerms(terms)|
  {
    PhraseClauses(terms) + TermClauses(terms) + FuzzyClauses(terms)
  }

  /** The content clauses, clause by clause: the two phrase matches, then a
      title and a description match per term, then a title and a description
      fuzzy match per long term. */
  lemma ContentClausesShape(terms: seq<Bytes>)
    ensures var cs, n, k := ContentClauses(terms), |terms|, |LongTerms(terms)|;
            && |cs| == 2 + 2 * n + 2 * k
            && cs[0] == MatchPhrase(TitleField, Join(terms), 100)
            && cs[1] == MatchPhrase(DescriptionField, Join(terms), 20)
            && (forall i :: 0 <= i < n ==>
                  cs[2 + 2 * i] == Match(TitleField, terms[i], 30) &&
                  cs[3 + 2 * i] == Match(DescriptionField, terms[i], 10))
            && (forall j :: 0 <= j < k ==>
                  cs[2 + 2 * n + 2 * j] == Fuzzy(TitleField, LongTerms(terms)[j], 1, 5) &&
                  cs[3 + 2 * n + 2 * j] == Fuzzy(DescriptionField, LongTerms(terms)[j], 1, 3))
  {
    var ps, ts, fs := PhraseClauses(terms), TermClauses(terms), FuzzyClauses(terms);
    assert ps == [MatchPhrase(TitleField, Join(terms), 100), MatchPhrase(DescriptionField, Join(terms), 20)];
    ConcatIndex(ps, ts, fs);
  }

  /** `buildBleveQuery`: no terms gives `MatchAll`, or the archive filter alone;
      otherwise the disjunction of the content clauses, conjoined with the
      archive filter exactly when archived records are not wanted. */
  function BuildQuery(f: SearchFilters): (q: Query)
    ensures var terms := Fields(TrimSpace(f.textMatch));
            terms == [] ==> q == (if f.archived then MatchAll else Conjunction([NotArchived]))
    ensures var terms := Fields(TrimSpace(f.textMatch));
            terms != [] ==>
              q == (if f.archived then Disjunction(ContentClauses(terms))
                    else Conjunction([Disjunction(ContentClauses(terms)), NotArchived]))
  {
    var terms := Fields(TrimSpace(f.textMatch));
    if terms == [] then
      if !f.archived then Conjunction([NotArchived]) else MatchAll
    else
      var content := Disjunction(ContentClauses(terms));
      if !f.archived then Conjunction([content, NotArchived]) else content
  }

  /** The clauses of a built query with terms, counted and in order, with the
      archive filter present exactly when archived records are not wanted. */
  lemma BuildQueryClauses(f: SearchFilters, terms: seq<Bytes>)
    requires terms == Fields(TrimSpace(f.textMatch)) && terms != []
    ensures var q := BuildQuery(f);
            (f.archived ==> q.Disjunction?) &&
            (!f.archived ==> q.Conjunction? && |q.conjuncts| == 2 &&
                             q.conjuncts[0].Disjunction? && q.conjuncts[1] == NotArchived)
    ensures var q := BuildQuery(f);
            var n, k := |terms|, |LongTerms(terms)|;
            var cs := (if f.archived then q else q.conjuncts[0]).disjuncts;
            && |cs| == 2 + 2 * n + 2 * k
            && cs[0] == MatchPhrase(TitleField, Join(terms), 100)
            && cs[1] == MatchPhrase(DescriptionField, Join(terms), 20)
            && (forall i :: 0 <= i < n ==>
                  cs[2 + 2 * i] == Match(TitleField, terms[i], 30) &&
                  cs[3 + 2 * i] == Match(DescriptionField, terms[i], 10))
            && (forall j :: 0 <= j < k ==>
                  cs[2 + 2 * n + 2 * j] == Fuzzy(TitleField, LongTerms(terms)[j], 1, 5) &&
                  cs[3 + 2 * n + 2 * j] == Fuzzy(DescriptionField, LongTerms(terms)[j], 1, 3))
  {
    var q := BuildQuery(f);
    var cs := ContentClauses(terms);
    assert (if f.archived then q else q.conjuncts[0]).disjuncts == cs;
    ContentClausesShape(terms);
  }

  /** Every fuzzy clause of a built query is for a term longer than three bytes
      and allows one edit. */
  lemma {:induction false} FuzzyClausesAreLong(terms: seq<Bytes>, c: Query)
    requires c in FuzzyClauses(terms)
    ensures c.Fuzzy? && IsLong(c.term) && c.fuzziness == 1 && c.term in terms
    decreases |terms|
  {
    var last := terms[|terms| - 1];
    var prev := FuzzyClauses(terms[..|terms| - 1]);
    if c in prev {
      FuzzyClausesAreLong(terms[..|terms| - 1], c);
    }
  }

  /** The phrase of the phrase clauses splits back into exactly the query's terms. */
  lemma PhraseHasQueryTerms(f: SearchFilters)
    ensures var terms := Fields(TrimSpace(f.textMatch));
            var ps := PhraseClauses(terms);
            Fields(ps[0].phrase) == terms && Fields(ps[1].phrase) == terms
  {
    var text := TrimSpace(f.textMatch);
    PhraseOfFields(text);
  }

  /** The same for any text: the generic form keeps the proof small. */
  lemma PhraseOfFields(text: Bytes)
    ensures var ps := PhraseClauses(Fields(text));
            Fields(ps[0].phrase) == Fields(text) && Fields(ps[1].phrase) == Fields(text)
  {
    assert PhraseClauses(Fields(text))[0].phrase == Join(Fields(text));
    FieldsOfJoinedFields(text);
  }

  /** `Search` builds a query only when the trimmed text is not blank, so the
      `MatchAll` and lone-filter results of `BuildQuery` are never sent to the
      index by the store. */
  lemma SearchedQueriesHaveContent(f: SearchFilters)
    requires TrimSpace(f.textMatch) != []
    ensures Fields(TrimSpace(f.textMatch)) != []
    ensures BuildQuery(f) != MatchAll && BuildQuery(f) != Conjunction([NotArchived])
  {
    BlankIffNoFields(f.textMatch);
    FieldsOfTrimSpace(f.textMatch);
  }
}
