/**
 * The search index of an option (its `data-search-term` attribute) and the
 * normalised query the search box compares against it.
 */
module SearchTerms {
  import opened Text

  /**
   * `' ' + lower(name)` when searching text, then `' ' + lower(value)` when
   * searching values, trimmed.
   */
  function SearchTerm(name: string, value: string, searchText: bool, searchValue: bool): (term: string)
    ensures IsTrimmed(term) && NoUpper(term)
    ensures !searchText && !searchValue ==> term == []
  {
    var t := if searchText then " " + Lower(name) else [];
    var v := if searchValue then " " + Lower(value) else [];
    NoUpperAppend(" ", Lower(name));
    NoUpperAppend(" ", Lower(value));
    NoUpperAppend(t, v);
    TrimNoUpper(t + v);
    Trim(t + v)
  }

  /**
   * `$.trim(input.toLowerCase())`: the run of the input left once its
   * whitespace ends are cut, lower-cased character by character.
   */
  function NormalizeQuery(input: string): (q: string)
    ensures IsTrimmed(q) && NoUpper(q)
    ensures LoweredRunOf(input, q, LeadSpaces(Lower(input)))
  {
    TrimNoUpper(Lower(input));
    LoweredRun(input, Lower(input), LeadSpaces(Lower(input)), Trim(Lower(input)));
    Trim(Lower(input))
  }

  /** `q` is `input` from index `i` on, lower-cased, with only whitespace around it. */
  predicate LoweredRunOf(input: string, q: string, i: nat) {
    && i + |q| <= |input|
    && SpacesBetween(input, 0, i) && SpacesBetween(input, i + |q|, |input|)
    && forall j :: 0 <= j < |q| ==> q[j] == LowerChar(input[i + j])
  }

  lemma LoweredRun(input: string, l: string, i: nat, q: string)
    requires l == Lower(input) && TrimmedAt(l, q, i)
    ensures LoweredRunOf(input, q, i)
  {
    LowerSpaces(input, 0, i);
    LowerSpaces(input, i + |q|, |input|);
    forall j | 0 <= j < |q| ensures q[j] == LowerChar(input[i + j]) {
      assert q[j] == l[i..i + |q|][j] == l[i + j];
    }
  }

  /** Whether an option with search term `term` stays visible for query `q`. */
  predicate Matches(term: string, q: string) {
    q == [] || IsInfix(q, term)
  }

  lemma InfixWiden(q: string, mid: string, pre: string, post: string)
    requires IsInfix(q, mid)
    ensures IsInfix(q, pre + mid + post)
  {
    var k :| OccursAt(q, mid, k);
    assert OccursAt(q, mid, k);
    var w := pre + mid + post;
    assert w[|pre| + k..|pre| + k + |q|] == mid[k..k + |q|];
    assert OccursAt(q, w, |pre| + k);
  }

  lemma Reassociate(a: string, b: string, c: string)
    ensures a + b + c + [] == a + (b + c)
  {
  }

  /**
   * With text search on, a query found in the lower-cased name finds the
   * option, whatever its value.
   */
  lemma QueryInNameMatches(input: string, name: string, value: string, searchValue: bool)
    requires IsInfix(NormalizeQuery(input), Lower(name))
    ensures Matches(SearchTerm(name, value, true, searchValue), NormalizeQuery(input))
  {
    var q := NormalizeQuery(input);
    if q != [] {
      var post := if searchValue then " " + Lower(value) else [];
      InfixWiden(q, Lower(name), " ", post);
      assert " " + Lower(name) + post == (" " + Lower(name)) + post;
      TrimKeepsInfix(q, " " + Lower(name) + post);
    }
  }

  /**
   * With value search on, a query found in the lower-cased value finds the
   * option, whatever its name.
   */
  lemma QueryInValueMatches(input: string, name: string, value: string, searchText: bool)
    requires IsInfix(NormalizeQuery(input), Lower(value))
    ensures Matches(SearchTerm(name, value, searchText, true), NormalizeQuery(input))
  {
    var q := NormalizeQuery(input);
    if q != [] {
      var x := if searchText then " " + Lower(name) else [];
      InfixWiden(q, Lower(value), x + " ", []);
      Reassociate(x, " ", Lower(value));
      TrimKeepsInfix(q, x + (" " + Lower(value)));
    }
  }

  /**
   * A query found in the term was found in the untrimmed concatenation: the
   * term adds nothing that the name and value do not hold.
   */
  lemma MatchComesFromFields(q: string, name: string, value: string, searchText: bool, searchValue: bool)
    requires q != [] && Matches(SearchTerm(name, value, searchText, searchValue), q)
    ensures IsInfix(q, (if searchText then " " + Lower(name) else []) + (if searchValue then " " + Lower(value) else []))
  {
    var raw := (if searchText then " " + Lower(name) else []) + (if searchValue then " " + Lower(value) else []);
    InfixOfTrim(q, raw);
  }
}
