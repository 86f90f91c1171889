/**
 * The select-all links: which options a click touches, what it does to
 * their `selected` mark and checkbox, what it writes into the native select,
 * and the text each link shows.
 */
module Bulk {
  import opened Model

  /** Where a select-all link sits: above the whole list, or in the group at `index`. */
  datatype Scope = Global | InGroup(index: nat)

  /** `li:not(.optgroup, .selected, .rs-hidden)` finds something among `os`. */
  predicate HasVisibleUnselected(os: seq<Opt>) {
    exists i | 0 <= i < |os| :: !os[i].selected && !os[i].hidden
  }

  predicate HasVisible(os: seq<Opt>) {
    exists i | 0 <= i < |os| :: !os[i].hidden
  }

  /** The text of a select-all link over `os` (jquery.richselect.js:885-888). */
  function LinkText(os: seq<Opt>, texts: Texts): string {
    if HasVisibleUnselected(os) then texts.selectAll else texts.unselectAll
  }

  /**
   * One option under a bulk click that takes the select branch (`select`)
   * or the unselect branch. Visible options take the branch's mark, hidden
   * ones keep theirs; only enabled checkboxes are ticked or cleared.
   */
  function Mark(select: bool, o: Opt): Opt {
    if select then
      var sel := o.selected || !o.hidden;
      o.(selected := sel, checked := if sel && !o.disabled then true else o.checked)
    else
      var sel := o.selected && o.hidden;
      o.(selected := sel, checked := if !o.hidden && !sel && !o.disabled then false else o.checked)
  }

  function MarkFn(select: bool): Opt -> Opt {
    o => Mark(select, o)
  }

  /** The link is there: the global one, or one inside a group. */
  predicate ScopeOk(items: seq<Item>, scope: Scope) {
    scope.InGroup? ==> scope.index < |items| && items[scope.index].Group?
  }

  /** The options a link governs: all of them, or its group's. */
  function ScopeOptions(items: seq<Item>, scope: Scope): seq<Opt>
    requires ScopeOk(items, scope)
  {
    match scope
    case Global => Options(items)
    case InGroup(g) => items[g].members
  }

  /** The list after a click on the select-all link of `scope` (jquery.richselect.js:403-429). */
  function BulkItems(items: seq<Item>, scope: Scope): (r: seq<Item>)
    requires ScopeOk(items, scope)
    ensures |r| == |items| && ScopeOk(r, scope)
    ensures scope.InGroup? ==> forall j :: 0 <= j < |items| && j != scope.index ==> r[j] == items[j]
    ensures scope.InGroup? ==> r[scope.index] == items[scope.index].(members := r[scope.index].members)
  {
    var select := HasVisibleUnselected(ScopeOptions(items, scope));
    match scope
    case Global => MapItems(MarkFn(select), items)
    case InGroup(g) => items[g := items[g].(members := MapSeq(MarkFn(select), items[g].members))]
  }

  /** The options in scope after the click, position by position. */
  lemma BulkScopeAfter(items: seq<Item>, scope: Scope)
    requires ScopeOk(items, scope)
    ensures ScopeOptions(BulkItems(items, scope), scope)
         == MapSeq(MarkFn(HasVisibleUnselected(ScopeOptions(items, scope))), ScopeOptions(items, scope))
  {
    if scope.Global? {
      OptionsMapItems(MarkFn(HasVisibleUnselected(Options(items))), items);
    }
  }

  /**
   * The two-branch rule. If some visible option in scope was unselected,
   * every visible option in scope ends selected; otherwise every visible
   * one ends unselected. Hidden options keep their mark; disabled
   * checkboxes are never touched, enabled visible ones follow the mark;
   * nothing else about an option changes.
   */
  lemma BulkEffect(items: seq<Item>, scope: Scope)
    requires ScopeOk(items, scope)
    ensures var before := ScopeOptions(items, scope);
            var after := ScopeOptions(BulkItems(items, scope), scope);
            && |after| == |before|
            && forall i :: 0 <= i < |before| ==>
                 && (before[i].hidden ==> after[i].selected == before[i].selected)
                 && (!before[i].hidden ==> after[i].selected == HasVisibleUnselected(before))
                 && (before[i].disabled ==> after[i].checked == before[i].checked)
                 && (!before[i].disabled && !before[i].hidden ==> after[i].checked == after[i].selected)
                 && after[i].(selected := before[i].selected, checked := before[i].checked) == before[i]
  {
    BulkScopeAfter(items, scope);
  }

  /**
   * Over the whole list, a click changes only marks and checkboxes: every
   * option keeps its place, id, value and everything else, and outside the
   * clicked group nothing changes at all.
   */
  lemma BulkOnlyMarks(items: seq<Item>, scope: Scope)
    requires ScopeOk(items, scope)
    ensures var before := Options(items);
            var after := Options(BulkItems(items, scope));
            && |after| == |before|
            && forall i :: 0 <= i < |before| ==>
                 after[i].(selected := before[i].selected, checked := before[i].checked) == before[i]
  {
    BulkEffect(items, scope);
    if scope.InGroup? {
      var g := scope.index;
      var r := BulkItems(items, scope);
      assert r == items[g := r[g]];
      OptionsUpdate(items, g, r[g]);
      SpliceMarks(Options(items[..g]), items[g].members, r[g].members, Options(items[g + 1..]));
    }
  }

  lemma SpliceMarks(a: seq<Opt>, m: seq<Opt>, m': seq<Opt>, c: seq<Opt>)
    requires |m'| == |m|
    requires forall i :: 0 <= i < |m| ==> m'[i].(selected := m[i].selected, checked := m[i].checked) == m[i]
    ensures var before := a + m + c;
            var after := a + m' + c;
            && |after| == |before|
            && forall i :: 0 <= i < |before| ==>
                 after[i].(selected := before[i].selected, checked := before[i].checked) == before[i]
  {
    var before := a + m + c;
    var after := a + m' + c;
    forall i | 0 <= i < |before|
      ensures after[i].(selected := before[i].selected, checked := before[i].checked) == before[i]
    {
      if i < |a| {
      } else if i < |a| + |m| {
        assert after[i] == m'[i - |a|] && before[i] == m[i - |a|];
      } else {
        assert after[i] == c[i - |a| - |m|] && before[i] == c[i - |a| - |m|];
      }
    }
  }

  /**
   * Clicks alternate: after a click that selected, the link reads
   * `unselectAll`; after one that unselected a scope with a visible option,
   * it reads `selectAll`.
   */
  lemma BulkAlternates(items: seq<Item>, scope: Scope, texts: Texts)
    requires ScopeOk(items, scope)
    ensures var before := ScopeOptions(items, scope);
            var after := ScopeOptions(BulkItems(items, scope), scope);
            && (HasVisibleUnselected(before) ==> LinkText(after, texts) == texts.unselectAll)
            && (!HasVisibleUnselected(before) && HasVisible(before) ==> LinkText(after, texts) == texts.selectAll)
  {
    BulkEffect(items, scope);
    var before := ScopeOptions(items, scope);
    var after := ScopeOptions(BulkItems(items, scope), scope);
    if !HasVisibleUnselected(before) && HasVisible(before) {
      var i :| 0 <= i < |before| && !before[i].hidden;
      assert !after[i].selected && !after[i].hidden;
    }
  }

  /**
   * The values that `select.val(...)` receives after a click: the values of
   * every option marked selected, disabled ones included, in list order
   * (jquery.richselect.js:431-435).
   */
  function BulkValues(items: seq<Item>): seq<string> {
    SelectedOptValues(Options(items))
  }

  lemma {:induction false} InSelectedOptValues(os: seq<Opt>, v: string)
    ensures v in SelectedOptValues(os) <==> exists i | 0 <= i < |os| :: os[i].selected && os[i].value == v
  {
    if os != [] {
      var n := |os| - 1;
      InSelectedOptValues(os[..n], v);
      if v in SelectedOptValues(os[..n]) {
        var i :| 0 <= i < n && os[..n][i].selected && os[..n][i].value == v;
        assert os[i] == os[..n][i];
      }
      if exists i | 0 <= i < |os| :: os[i].selected && os[i].value == v {
        var i :| 0 <= i < |os| && os[i].selected && os[i].value == v;
        if i < n { assert os[..n][i] == os[i]; }
      }
    }
  }

  /** The native select holds the list's options one for one, with distinct values. */
  ghost predicate Mirrors(os: seq<Opt>, es: seq<Entry>) {
    && |os| == |es|
    && (forall i :: 0 <= i < |os| ==> os[i].value == es[i].value)
    && (forall i, j :: 0 <= i < j < |es| ==> es[i].value != es[j].value)
  }

  lemma {:induction false} SameMarksSameValues(os: seq<Opt>, es: seq<Entry>)
    requires |os| == |es|
    requires forall i :: 0 <= i < |os| ==> os[i].value == es[i].value && os[i].selected == es[i].selected
    ensures SelectedValues(es) == SelectedOptValues(os)
  {
    if os != [] {
      SameMarksSameValues(os[..|os| - 1], es[..|es| - 1]);
    }
  }

  /**
   * When the native select mirrors the list, writing the bulk values makes
   * each entry's selected flag follow its option's mark, and the select's
   * value list is exactly the list's selected values, in order.
   */
  lemma BulkWriteMirrors(os: seq<Opt>, es: seq<Entry>)
    requires Mirrors(os, es)
    ensures var written := StampSeq(SetVals(SelectedOptValues(os)), es, 0);
            && (forall i :: 0 <= i < |es| ==> written[i].selected == os[i].selected)
            && SelectedValues(written) == SelectedOptValues(os)
  {
    var vals := SelectedOptValues(os);
    var written := StampSeq(SetVals(vals), es, 0);
    forall i | 0 <= i < |es| ensures written[i].selected == os[i].selected {
      InSelectedOptValues(os, es[i].value);
      if es[i].value in vals {
        var j :| 0 <= j < |os| && os[j].selected && os[j].value == es[i].value;
        assert j == i;
      }
    }
    SameMarksSameValues(os, written);
  }

  /** Options that differ only in marks keep a mirroring select mirrored. */
  lemma MarksKeepMirror(before: seq<Opt>, after: seq<Opt>, es: seq<Entry>)
    requires Mirrors(before, es) && |after| == |before|
    requires forall i :: 0 <= i < |before| ==>
               after[i].(selected := before[i].selected, checked := before[i].checked) == before[i]
    ensures Mirrors(after, es)
  {
    forall i | 0 <= i < |before| ensures after[i].value == before[i].value {
      assert after[i].(selected := before[i].selected, checked := before[i].checked).value == after[i].value;
    }
  }

  /**
   * When the native select mirrors the list, after a click and the write of
   * its values the select's value list is the values of every option then
   * marked selected, disabled ones included, in list order.
   */
  lemma BulkWriteSelects(items: seq<Item>, b: seq<BItem>, scope: Scope)
    requires ScopeOk(items, scope) && Mirrors(Options(items), Entries(b))
    ensures var after := BulkItems(items, scope);
            SelectedValues(Entries(Restamp(SetVals(BulkValues(after)), b))) == BulkValues(after)
  {
    var after := BulkItems(items, scope);
    BulkOnlyMarks(items, scope);
    MarksKeepMirror(Options(items), Options(after), Entries(b));
    EntriesRestamp(SetVals(BulkValues(after)), b);
    BulkWriteMirrors(Options(after), Entries(b));
  }

  /** `_updateSelectAllText` on the group links: each reads what its group's next click does. */
  function Relabel(items: seq<Item>, texts: Texts): (r: seq<Item>)
    ensures |r| == |items|
    ensures forall i :: 0 <= i < |items| ==> Members(r[i]) == Members(items[i])
    ensures forall i :: 0 <= i < |items| && items[i].Group? && items[i].hasLink ==>
              r[i] == items[i].(linkText := LinkText(items[i].members, texts))
    ensures forall i :: 0 <= i < |items| && !(items[i].Group? && items[i].hasLink) ==> r[i] == items[i]
  {
    seq(|items|, i requires 0 <= i < |items| =>
      if items[i].Group? && items[i].hasLink then items[i].(linkText := LinkText(items[i].members, texts))
      else items[i])
  }

  lemma RelabelKeepsOptions(items: seq<Item>, texts: Texts)
    ensures Options(Relabel(items, texts)) == Options(items)
  {
    OptionsSameMembers(Relabel(items, texts), items);
  }
}
