/**
 * A click on one option's checkbox or radio button: the list item's mark,
 * the inputs' checked state and the write into the native select.
 */
module Toggle {
  import opened Wrappers
  import opened Model

  /** Where an option sits: a top-level option, or option `member` of the group at `group`. */
  datatype OptRef = TopAt(index: nat) | MemberAt(group: nat, member: nat)

  predicate RefOk(items: seq<Item>, r: OptRef) {
    match r
    case TopAt(i) => i < |items| && items[i].Single?
    case MemberAt(g, j) => g < |items| && items[g].Group? && j < |items[g].members|
  }

  function At(items: seq<Item>, r: OptRef): Opt
    requires RefOk(items, r)
  {
    match r
    case TopAt(i) => items[i].opt
    case MemberAt(g, j) => items[g].members[j]
  }

  /** The index of the referenced option among all options of the list. */
  function Position(items: seq<Item>, r: OptRef): nat
    requires RefOk(items, r)
  {
    match r
    case TopAt(i) => |Options(items[..i])|
    case MemberAt(g, j) => |Options(items[..g])| + j
  }

  /** The list with the referenced option replaced by `o`. */
  function UpdateAt(items: seq<Item>, r: OptRef, o: Opt): (u: seq<Item>)
    requires RefOk(items, r)
    ensures |u| == |items| && RefOk(u, r) && At(u, r) == o
  {
    match r
    case TopAt(i) => items[i := Single(o)]
    case MemberAt(g, j) => items[g := items[g].(members := items[g].members[j := o])]
  }

  /** Overwriting position `|a| + j` of `a + m + c` overwrites position `j` of `m`. */
  lemma SpliceAt(a: seq<Opt>, m: seq<Opt>, c: seq<Opt>, j: nat, o: Opt)
    requires j < |m|
    ensures (a + m + c)[|a| + j] == m[j]
    ensures (a + m + c)[|a| + j := o] == a + m[j := o] + c
  {
  }

  /** Replacing the referenced option replaces it, and only it, in the option list. */
  lemma UpdateAtOptions(items: seq<Item>, r: OptRef, o: Opt)
    requires RefOk(items, r)
    ensures Position(items, r) < |Options(items)|
    ensures Options(items)[Position(items, r)] == At(items, r)
    ensures Options(UpdateAt(items, r, o)) == Options(items)[Position(items, r) := o]
    ensures Position(UpdateAt(items, r, o), r) == Position(items, r)
  {
    var g := match r case TopAt(i) => i case MemberAt(g, _) => g;
    var j := match r case TopAt(_) => 0 case MemberAt(_, j) => j;
    var u := UpdateAt(items, r, o);
    assert u == items[g := u[g]] && u[..g] == items[..g];
    assert Members(u[g]) == Members(items[g])[j := o];
    UpdateOneOptions(items, g, u[g], j, o, u, Position(items, r));
  }

  /** Replacing item `g` by one whose options differ only at `j` replaces one option of the list. */
  lemma UpdateOneOptions(items: seq<Item>, g: nat, it: Item, j: nat, o: Opt, u: seq<Item>, p: nat)
    requires g < |items| && j < |Members(items[g])| && Members(it) == Members(items[g])[j := o]
    requires u == items[g := it] && p == |Options(items[..g])| + j
    ensures p < |Options(items)| && Options(items)[p] == Members(items[g])[j]
    ensures Options(u) == Options(items)[p := o]
  {
    var a, m, c := Options(items[..g]), Members(items[g]), Options(items[g + 1..]);
    OptionsUpdate(items, g, it);
    assert Options(items) == a + m + c;
    SpliceAt(a, m, c, j, o);
  }

  lemma UpdateAtTwice(items: seq<Item>, r: OptRef, o1: Opt, o2: Opt)
    requires RefOk(items, r)
    ensures UpdateAt(UpdateAt(items, r, o1), r, o2) == UpdateAt(items, r, o2)
  {
    if r.MemberAt? {
      var ms := items[r.group].members;
      assert ms[r.member := o1][r.member := o2] == ms[r.member := o2];
    }
  }

  lemma UpdateAtSame(items: seq<Item>, r: OptRef)
    requires RefOk(items, r)
    ensures UpdateAt(items, r, At(items, r)) == items
  {
    var u := UpdateAt(items, r, At(items, r));
    forall k | 0 <= k < |items| ensures u[k] == items[k] {
      if r.MemberAt? && k == r.group {
        assert items[k].members[r.member := At(items, r)] == items[k].members;
      }
    }
  }

  /** A change applied to every option keeps every reference and its position. */
  lemma PositionMap(f: Opt -> Opt, items: seq<Item>, r: OptRef)
    requires RefOk(items, r)
    ensures RefOk(MapItems(f, items), r)
    ensures At(MapItems(f, items), r) == f(At(items, r))
    ensures Position(MapItems(f, items), r) == Position(items, r)
  {
    var g := match r case TopAt(i) => i case MemberAt(g, _) => g;
    assert MapItems(f, items)[..g] == MapItems(f, items[..g]);
    OptionsMapItems(f, items[..g]);
  }

  /** A checkbox click: the item's mark and the box both flip. */
  function Flip(o: Opt): Opt {
    o.(selected := !o.selected, checked := !o.checked)
  }

  function UncheckFn(): Opt -> Opt {
    (o: Opt) => o.(checked := false)
  }

  /**
   * The list after a click on the input of `r` (jquery.richselect.js:532-541).
   * A disabled input takes no click. In radio mode the buttons share one
   * name, so the clicked one ends checked and every other one unchecked;
   * only the clicked item's mark toggles.
   */
  function ClickItems(items: seq<Item>, r: OptRef, mode: Mode): (u: seq<Item>)
    requires RefOk(items, r)
    ensures |u| == |items| && RefOk(u, r)
    ensures At(items, r).disabled ==> u == items
  {
    var o := At(items, r);
    if o.disabled then items
    else match mode
      case Checkbox => UpdateAt(items, r, Flip(o))
      case Radio =>
        var cleared := MapItems(UncheckFn(), items);
        assert RefOk(cleared, r);
        UpdateAt(cleared, r, o.(selected := !o.selected, checked := true))
  }

  /**
   * A checkbox click flips the clicked option's mark and box and leaves
   * every other option as it was.
   */
  lemma CheckboxClickEffect(items: seq<Item>, r: OptRef)
    requires RefOk(items, r) && !At(items, r).disabled
    ensures var before := Options(items);
            var after := Options(ClickItems(items, r, Checkbox));
            var p := Position(items, r);
            && |after| == |before| && p < |before|
            && after[p].selected == !before[p].selected
            && after[p].checked == !before[p].checked
            && after[p].(selected := before[p].selected, checked := before[p].checked) == before[p]
            && forall k :: 0 <= k < |before| && k != p ==> after[k] == before[k]
  {
    UpdateAtOptions(items, r, Flip(At(items, r)));
  }

  /** Two checkbox clicks on the same option restore the list. */
  lemma CheckboxClickTwice(items: seq<Item>, r: OptRef)
    requires RefOk(items, r)
    ensures ClickItems(ClickItems(items, r, Checkbox), r, Checkbox) == items
  {
    var o := At(items, r);
    if !o.disabled {
      UpdateAtTwice(items, r, Flip(o), Flip(Flip(o)));
      assert Flip(Flip(o)) == o;
      UpdateAtSame(items, r);
    }
  }

  /**
   * A radio click leaves exactly the clicked option checked, toggles its
   * mark and keeps every other option's mark.
   */
  lemma RadioClickEffect(items: seq<Item>, r: OptRef)
    requires RefOk(items, r) && !At(items, r).disabled
    ensures var before := Options(items);
            var after := Options(ClickItems(items, r, Radio));
            var p := Position(items, r);
            && |after| == |before| && p < |before|
            && (forall k :: 0 <= k < |after| ==> (after[k].checked <==> k == p))
            && after[p].selected == !before[p].selected
            && (forall k :: 0 <= k < |before| && k != p ==> after[k].selected == before[k].selected)
            && forall k :: 0 <= k < |before| ==> after[k].(selected := before[k].selected, checked := before[k].checked) == before[k]
  {
    var o := At(items, r);
    var o' := o.(selected := !o.selected, checked := true);
    UpdateAtOptions(items, r, o);
    RadioClickOptions(items, r);
    RadioShape(Options(items), MapSeq(UncheckFn(), Options(items)), Position(items, r), o');
  }

  /** The options after a radio click: all unchecked, then the clicked one replaced. */
  lemma RadioClickOptions(items: seq<Item>, r: OptRef)
    requires RefOk(items, r) && !At(items, r).disabled
    ensures var o := At(items, r);
            var p := Position(items, r);
            && p < |Options(items)|
            && Options(ClickItems(items, r, Radio)) == MapSeq(UncheckFn(), Options(items))[p := o.(selected := !o.selected, checked := true)]
  {
    var o := At(items, r);
    var o' := o.(selected := !o.selected, checked := true);
    var cleared := MapItems(UncheckFn(), items);
    OptionsMapItems(UncheckFn(), items);
    PositionMap(UncheckFn(), items, r);
    UpdateAtOptions(items, r, o);
    UpdateAtOptions(cleared, r, o');
  }

  lemma RadioShape(before: seq<Opt>, mid: seq<Opt>, p: nat, o': Opt)
    requires p < |before| && mid == MapSeq(UncheckFn(), before)
    requires o' == before[p].(selected := !before[p].selected, checked := true)
    ensures var after := mid[p := o'];
            && |after| == |before|
            && (forall k :: 0 <= k < |after| ==> (after[k].checked <==> k == p))
            && after[p].selected == !before[p].selected
            && (forall k :: 0 <= k < |before| && k != p ==> after[k].selected == before[k].selected)
            && forall k :: 0 <= k < |before| ==> after[k].(selected := before[k].selected, checked := before[k].checked) == before[k]
  {
    assert forall k :: 0 <= k < |mid| ==> mid[k] == before[k].(checked := false);
  }

  /** What the click writes into the native select (jquery.richselect.js:545-547). */
  function ClickWrite(items: seq<Item>, r: OptRef, mode: Mode, b: seq<BItem>): (w: seq<BItem>)
    requires RefOk(items, r)
    ensures |w| == |b|
  {
    var o := At(items, r);
    if o.disabled then b
    else match mode
      case Checkbox => Restamp(SetValue(o.value, !o.checked), b)
      case Radio =>
        match LastIndexOf(Entries(b), o.value)
        case Some(k) => Restamp(SelectOnly(k), b)
        case None => b
  }

  /**
   * In a multiple select every entry carrying the clicked value takes the
   * new checked state of the box; every other entry is untouched.
   */
  lemma CheckboxWriteEffect(items: seq<Item>, r: OptRef, b: seq<BItem>)
    requires RefOk(items, r) && !At(items, r).disabled
    ensures var es := Entries(b);
            var ws := Entries(ClickWrite(items, r, Checkbox, b));
            var now := At(ClickItems(items, r, Checkbox), r).checked;
            && |ws| == |es|
            && forall k :: 0 <= k < |es| ==>
                 ws[k] == (if es[k].value == At(items, r).value then es[k].(selected := now) else es[k])
  {
    var o := At(items, r);
    var w := SetValue(o.value, !o.checked);
    assert At(ClickItems(items, r, Checkbox), r).checked == !o.checked;
    assert ClickWrite(items, r, Checkbox, b) == Restamp(w, b);
    EntriesRestamp(w, b);
  }

  /** Exactly one entry selected: the select's value list is that entry's value. */
  lemma {:induction false} SelectedValuesSingle(es: seq<Entry>, k: nat)
    requires k < |es|
    requires forall j :: 0 <= j < |es| ==> (es[j].selected <==> j == k)
    ensures SelectedValues(es) == [es[k].value]
  {
    var n := |es| - 1;
    if k < n {
      SelectedValuesSingle(es[..n], k);
    } else {
      SelectedValuesNone(es[..n]);
    }
  }

  lemma {:induction false} SelectedValuesNone(es: seq<Entry>)
    requires forall j :: 0 <= j < |es| ==> !es[j].selected
    ensures SelectedValues(es) == []
  {
    if es != [] {
      SelectedValuesNone(es[..|es| - 1]);
    }
  }

  /**
   * In a single select whose entries include the clicked value, the click
   * leaves that value, and only it, selected (the last entry carrying it).
   */
  lemma RadioWriteSelectsValue(items: seq<Item>, r: OptRef, b: seq<BItem>)
    requires RefOk(items, r) && !At(items, r).disabled
    requires exists j | 0 <= j < |Entries(b)| :: Entries(b)[j].value == At(items, r).value
    ensures SelectedValues(Entries(ClickWrite(items, r, Radio, b))) == [At(items, r).value]
  {
    var v := At(items, r).value;
    var es := Entries(b);
    LastIndexOfIsLast(es, v);
    var k := LastIndexOf(es, v).value;
    EntriesRestamp(SelectOnly(k), b);
    SelectedValuesSingle(Entries(ClickWrite(items, r, Radio, b)), k);
  }
}
