/**
 * The search box: which options a query hides, and which groups stay shown.
 */
module Filter {
  import opened Text
  import opened SearchTerms
  import opened Model

  /**
   * The `data-search-term` written when the option was added
   * (jquery.richselect.js:1041-1050); `st` and `sv` are the instance's
   * `searchText` and `searchValue` settings, which never change.
   */
  function TermOf(o: Opt, st: bool, sv: bool): string {
    SearchTerm(o.name, o.value, st, sv)
  }

  /** An option after query `q`: `rs-hidden` exactly when `q` is set and misses its term. */
  function Reveal(q: string, st: bool, sv: bool, o: Opt): Opt {
    o.(hidden := !Matches(TermOf(o, st, sv), q))
  }

  function RevealFn(q: string, st: bool, sv: bool): Opt -> Opt {
    o => Reveal(q, st, sv, o)
  }

  /** Some option of `ms` is not `rs-hidden`. */
  predicate AnyVisible(ms: seq<Opt>) {
    exists i | 0 <= i < |ms| :: !ms[i].hidden
  }

  /** Each group is shown exactly when one of its options is visible (jquery.richselect.js:374-383). */
  function ShowGroups(items: seq<Item>): (r: seq<Item>)
    ensures |r| == |items|
    ensures forall i :: 0 <= i < |items| ==> Members(r[i]) == Members(items[i])
  {
    seq(|items|, i requires 0 <= i < |items| =>
      if items[i].Group? then items[i].(shown := AnyVisible(items[i].members)) else items[i])
  }

  /** The list once the search fires with query `q` (jquery.richselect.js:363-383). */
  function FilterItems(items: seq<Item>, q: string, st: bool, sv: bool, showOptGroups: bool): seq<Item> {
    var marked := MapItems(RevealFn(q, st, sv), items);
    if showOptGroups then marked else ShowGroups(marked)
  }

  /**
   * Every option is hidden exactly when the query is non-empty and not a
   * substring of its search term; nothing else about an option changes.
   */
  lemma FilterHiddenIff(items: seq<Item>, q: string, st: bool, sv: bool, showOptGroups: bool)
    ensures var before := Options(items);
            var after := Options(FilterItems(items, q, st, sv, showOptGroups));
            && |after| == |before|
            && forall i :: 0 <= i < |before| ==>
                 && (after[i].hidden <==> q != [] && !IsInfix(q, TermOf(before[i], st, sv)))
                 && after[i] == before[i].(hidden := after[i].hidden)
  {
    var marked := MapItems(RevealFn(q, st, sv), items);
    OptionsMapItems(RevealFn(q, st, sv), items);
    if !showOptGroups {
      OptionsSameMembers(ShowGroups(marked), marked);
    }
  }

  /**
   * Without `showOptGroups` a group is shown exactly when one of its
   * options survives the query; with it, groups keep their state. The group
   * structure itself is unchanged.
   */
  lemma FilterGroups(items: seq<Item>, q: string, st: bool, sv: bool, showOptGroups: bool)
    ensures var r := FilterItems(items, q, st, sv, showOptGroups);
            && |r| == |items|
            && forall i :: 0 <= i < |items| && items[i].Group? ==>
                 && r[i].Group?
                 && r[i].groupLabel == items[i].groupLabel
                 && r[i].hasLink == items[i].hasLink && r[i].linkText == items[i].linkText
                 && |r[i].members| == |items[i].members|
                 && (showOptGroups ==> r[i].shown == items[i].shown)
                 && (!showOptGroups ==> (r[i].shown <==> exists j | 0 <= j < |items[i].members| ::
                                           Matches(TermOf(items[i].members[j], st, sv), q)))
  {
    var marked := MapItems(RevealFn(q, st, sv), items);
    forall i | 0 <= i < |items| && items[i].Group? && !showOptGroups
      ensures var ms := items[i].members;
              ShowGroups(marked)[i].shown <==> exists j | 0 <= j < |ms| :: Matches(TermOf(ms[j], st, sv), q)
    {
      var ms := items[i].members;
      assert marked[i].members == MapSeq(RevealFn(q, st, sv), ms);
      assert forall j :: 0 <= j < |ms| ==> (!marked[i].members[j].hidden <==> Matches(TermOf(ms[j], st, sv), q));
    }
  }

  /** Clearing the search shows every option again. */
  lemma EmptyQueryShowsAll(items: seq<Item>, st: bool, sv: bool, showOptGroups: bool)
    ensures var after := Options(FilterItems(items, [], st, sv, showOptGroups));
            forall i :: 0 <= i < |after| ==> !after[i].hidden
  {
    FilterHiddenIff(items, [], st, sv, showOptGroups);
  }
}
