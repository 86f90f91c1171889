/**
 * The state the widget keeps in the DOM, made explicit: the list of options
 * and groups it shows, and the native `<select>` behind it.
 */
module Model {
  import opened Wrappers

  /** `radio` unless the native select carries `multiple` (jquery.richselect.js:121-125). */
  datatype Mode = Radio | Checkbox

  /** The display strings the engine writes. */
  datatype Texts = Texts(placeholder: string, selectedOptions: string, selectAll: string, unselectAll: string)

  /**
   * The settings the engine reads. `copyDisabled` says whether `disabled` is
   * among `optionAttributes`, the only attribute with an effect on selection.
   */
  datatype Config = Config(
    search: bool, searchText: bool, searchValue: bool, showOptGroups: bool,
    selectAll: bool, selectGroup: bool, maxPlaceholderOpts: int, copyDisabled: bool,
    texts: Texts)

  /** The plugin defaults. */
  const Defaults: Config :=
    Config(false, true, false, false, false, false, 10, false,
           Texts("Select options", " selected", "Select all", "Unselect all"))

  /**
   * One option of the list (an `li` and its input): `selected` is the `li`'s
   * class, `checked` the input's property, `hidden` the `rs-hidden` class,
   * `disabled` the input's disabled attribute. Its search term is a
   * function of `name` and `value` (see `Filter.TermOf`).
   */
  datatype Opt = Opt(
    id: nat, value: string, name: string, html: string,
    selected: bool, checked: bool, hidden: bool, disabled: bool)

  /**
   * A top-level entry of the list: an option, or a group with its label, its
   * options, whether it carries a select-all link and that link's text, and
   * whether it is shown.
   */
  datatype Item =
    | Single(opt: Opt)
    | Group(groupLabel: string, members: seq<Opt>, hasLink: bool, linkText: string, shown: bool)

  function Members(it: Item): seq<Opt> {
    match it
    case Single(o) => [o]
    case Group(_, ms, _, _, _) => ms
  }

  /** Every option of the list, in document order. */
  function Options(items: seq<Item>): seq<Opt> {
    if items == [] then []
    else Options(items[..|items| - 1]) + Members(items[|items| - 1])
  }

  lemma {:induction false} OptionsConcat(a: seq<Item>, b: seq<Item>)
    ensures Options(a + b) == Options(a) + Options(b)
  {
    if b != [] {
      assert (a + b)[..|a + b| - 1] == a + b[..|b| - 1];
      OptionsConcat(a, b[..|b| - 1]);
    } else {
      assert a + b == a;
    }
  }

  lemma OptionsSnoc(items: seq<Item>, it: Item)
    ensures Options(items + [it]) == Options(items) + Members(it)
  {
    assert (items + [it])[..|items|] == items;
  }

  lemma OptionsOne(it: Item)
    ensures Options([it]) == Members(it)
  {
    assert [it][..0] == [];
  }

  /** Replacing one entry replaces its options in place. */
  lemma OptionsUpdate(items: seq<Item>, g: nat, it: Item)
    requires g < |items|
    ensures Options(items) == Options(items[..g]) + Members(items[g]) + Options(items[g + 1..])
    ensures Options(items[g := it]) == Options(items[..g]) + Members(it) + Options(items[g + 1..])
  {
    var a := items[..g];
    var c := items[g + 1..];
    assert items == a + [items[g]] + c;
    OptionsSplice(a, items[g], c);
    assert items[g := it] == a + [it] + c;
    OptionsSplice(a, it, c);
  }

  lemma OptionsSplice(a: seq<Item>, x: Item, c: seq<Item>)
    ensures Options(a + [x] + c) == Options(a) + Members(x) + Options(c)
  {
    OptionsConcat(a + [x], c);
    OptionsSnoc(a, x);
  }

  /** Entries with the same options, position by position, give the same option list. */
  lemma {:induction false} OptionsSameMembers(a: seq<Item>, b: seq<Item>)
    requires |a| == |b| && forall i :: 0 <= i < |a| ==> Members(a[i]) == Members(b[i])
    ensures Options(a) == Options(b)
  {
    if a != [] {
      OptionsSameMembers(a[..|a| - 1], b[..|b| - 1]);
    }
  }

  function MapSeq(f: Opt -> Opt, os: seq<Opt>): (r: seq<Opt>)
    ensures |r| == |os|
  {
    seq(|os|, i requires 0 <= i < |os| => f(os[i]))
  }

  /** The same per-option change applied to every option of one entry. */
  function MapItem(f: Opt -> Opt, it: Item): Item {
    match it
    case Single(o) => Single(f(o))
    case Group(l, ms, h, t, s) => Group(l, MapSeq(f, ms), h, t, s)
  }

  /** The same per-option change applied to every option of the list. */
  function MapItems(f: Opt -> Opt, items: seq<Item>): (r: seq<Item>)
    ensures |r| == |items|
  {
    seq(|items|, i requires 0 <= i < |items| => MapItem(f, items[i]))
  }

  lemma {:induction false} OptionsMapItems(f: Opt -> Opt, items: seq<Item>)
    ensures Options(MapItems(f, items)) == MapSeq(f, Options(items))
  {
    if items != [] {
      var n := |items| - 1;
      assert MapItems(f, items)[..n] == MapItems(f, items[..n]);
      OptionsMapItems(f, items[..n]);
      assert Members(MapItem(f, items[n])) == MapSeq(f, Members(items[n]));
    }
  }

  /** Option ids are below the counter and pairwise distinct. */
  ghost predicate IdsFresh(os: seq<Opt>, next: nat) {
    && (forall i :: 0 <= i < |os| ==> os[i].id < next)
    && (forall i, j :: 0 <= i < j < |os| ==> os[i].id != os[j].id)
  }

  /** Options that keep their ids position by position keep them fresh. */
  lemma IdsFreshKept(before: seq<Opt>, after: seq<Opt>, next: nat)
    requires IdsFresh(before, next) && |after| == |before|
    requires forall i :: 0 <= i < |before| ==> after[i].id == before[i].id
    ensures IdsFresh(after, next)
  {
  }

  /** The values of the options marked selected, in document order. */
  function SelectedOptValues(os: seq<Opt>): seq<string> {
    if os == [] then []
    else SelectedOptValues(os[..|os| - 1]) + (if os[|os| - 1].selected then [os[|os| - 1].value] else [])
  }

  /** An entry of the native select: an `option` element. */
  datatype Entry = Entry(value: string, text: string, selected: bool, disabled: bool)

  /** A child of the native select: an `option`, or an `optgroup` with its options. */
  datatype BItem = BOpt(entry: Entry) | BGroup(groupLabel: string, entries: seq<Entry>)

  function BEntries(b: BItem): seq<Entry> {
    match b
    case BOpt(e) => [e]
    case BGroup(_, es) => es
  }

  /** The native select's options in document order. */
  function Entries(b: seq<BItem>): seq<Entry> {
    if b == [] then []
    else Entries(b[..|b| - 1]) + BEntries(b[|b| - 1])
  }

  lemma {:induction false} EntriesConcat(a: seq<BItem>, b: seq<BItem>)
    ensures Entries(a + b) == Entries(a) + Entries(b)
  {
    if b != [] {
      assert (a + b)[..|a + b| - 1] == a + b[..|b| - 1];
      EntriesConcat(a, b[..|b| - 1]);
    } else {
      assert a + b == a;
    }
  }

  /** The values of the selected entries, in document order. */
  function SelectedValues(es: seq<Entry>): seq<string> {
    if es == [] then []
    else SelectedValues(es[..|es| - 1]) + (if es[|es| - 1].selected then [es[|es| - 1].value] else [])
  }

  /** The index of the last entry whose value is `v`. */
  function LastIndexOf(es: seq<Entry>, v: string): (r: Option<nat>)
    ensures r.Some? ==> r.value < |es| && es[r.value].value == v
  {
    if es == [] then None
    else if es[|es| - 1].value == v then Some(|es| - 1)
    else LastIndexOf(es[..|es| - 1], v)
  }

  /** The index found is the last with that value, and one is found whenever the value occurs. */
  lemma {:induction false} LastIndexOfIsLast(es: seq<Entry>, v: string)
    ensures LastIndexOf(es, v).Some? ==> forall j :: LastIndexOf(es, v).value < j < |es| ==> es[j].value != v
    ensures LastIndexOf(es, v).None? ==> forall j :: 0 <= j < |es| ==> es[j].value != v
  {
    if es != [] && es[|es| - 1].value != v {
      var n := |es| - 1;
      LastIndexOfIsLast(es[..n], v);
      assert forall j :: 0 <= j < n ==> es[..n][j] == es[j];
    }
  }

  /** A write to the selected flags of the native select. */
  datatype Write =
    | SetValue(v: string, sel: bool)   // `option[value=v]`.prop('selected', sel) in a multiple select
    | SelectOnly(k: nat)               // the entry at index k selected in a single select, the rest not
    | SetVals(vals: seq<string>)       // `select.val(vals)`

  function Stamp(w: Write, k: nat, e: Entry): Entry {
    match w
    case SetValue(v, sel) => if e.value == v then e.(selected := sel) else e
    case SelectOnly(j) => e.(selected := k == j)
    case SetVals(vs) => e.(selected := e.value in vs)
  }

  /** Entries `from`, `from + 1`, ... of the select after the write. */
  function StampSeq(w: Write, es: seq<Entry>, from: nat): (r: seq<Entry>)
    ensures |r| == |es|
  {
    seq(|es|, i requires 0 <= i < |es| => Stamp(w, from + i, es[i]))
  }

  function StampItem(w: Write, b: BItem, from: nat): BItem {
    match b
    case BOpt(e) => BOpt(Stamp(w, from, e))
    case BGroup(l, es) => BGroup(l, StampSeq(w, es, from))
  }

  /** The native select after the write: structure kept, selected flags rewritten. */
  function Restamp(w: Write, b: seq<BItem>): (r: seq<BItem>)
    ensures |r| == |b|
  {
    seq(|b|, i requires 0 <= i < |b| => StampItem(w, b[i], |Entries(b[..i])|))
  }

  lemma StampSeqConcat(w: Write, a: seq<Entry>, c: seq<Entry>, from: nat)
    ensures StampSeq(w, a + c, from) == StampSeq(w, a, from) + StampSeq(w, c, from + |a|)
  {
    var l := StampSeq(w, a + c, from);
    var r := StampSeq(w, a, from) + StampSeq(w, c, from + |a|);
    forall i | 0 <= i < |l| ensures l[i] == r[i] {
      if i < |a| {
        assert (a + c)[i] == a[i];
      } else {
        assert (a + c)[i] == c[i - |a|];
      }
    }
  }

  lemma RestampPrefix(w: Write, b: seq<BItem>, n: nat)
    requires n <= |b|
    ensures Restamp(w, b)[..n] == Restamp(w, b[..n])
  {
    forall i | 0 <= i < n ensures Restamp(w, b)[..n][i] == Restamp(w, b[..n])[i] {
      assert b[..n][..i] == b[..i];
      assert b[..n][i] == b[i];
    }
  }

  lemma {:induction false} EntriesRestamp(w: Write, b: seq<BItem>)
    ensures Entries(Restamp(w, b)) == StampSeq(w, Entries(b), 0)
  {
    if b != [] {
      var n := |b| - 1;
      EntriesRestamp(w, b[..n]);
      RestampLast(w, b);
      EntriesSnoc(b);
      StampJoin(w, Entries(Restamp(w, b)), Entries(Restamp(w, b[..n])), Entries(b), Entries(b[..n]), BEntries(b[n]));
    }
  }

  /** Stamping a prefix, then the rest from the prefix's length on, stamps the whole. */
  lemma StampJoin(w: Write, r: seq<Entry>, rp: seq<Entry>, e: seq<Entry>, a: seq<Entry>, x: seq<Entry>)
    requires rp == StampSeq(w, a, 0) && r == rp + StampSeq(w, x, |a|) && e == a + x
    ensures r == StampSeq(w, e, 0)
  {
    StampSeqConcat(w, a, x, 0);
  }

  /** The rewritten select's entries: those of the rewritten prefix, then the last child's. */
  lemma RestampLast(w: Write, b: seq<BItem>)
    requires b != []
    ensures var n := |b| - 1;
            Entries(Restamp(w, b)) == Entries(Restamp(w, b[..n])) + StampSeq(w, BEntries(b[n]), |Entries(b[..n])|)
  {
    var n := |b| - 1;
    var r := Restamp(w, b);
    RestampPrefix(w, b, n);
    assert r[n] == StampItem(w, b[n], |Entries(b[..n])|);
    StampItemEntries(w, b[n], |Entries(b[..n])|);
    EntriesSnoc(r);
  }

  lemma StampItemEntries(w: Write, x: BItem, from: nat)
    ensures BEntries(StampItem(w, x, from)) == StampSeq(w, BEntries(x), from)
  {
    if x.BOpt? {
      assert StampSeq(w, [x.entry], from) == [Stamp(w, from, x.entry)];
    }
  }

  lemma EntriesSnoc(b: seq<BItem>)
    requires b != []
    ensures Entries(b) == Entries(b[..|b| - 1]) + BEntries(b[|b| - 1])
  {
  }

  /** The entry at index `k` of the rewritten select. */
  lemma RestampAt(w: Write, b: seq<BItem>, k: nat)
    requires k < |Entries(b)|
    ensures |Entries(Restamp(w, b))| == |Entries(b)|
    ensures Entries(Restamp(w, b))[k] == Stamp(w, k, Entries(b)[k])
  {
    EntriesRestamp(w, b);
  }
}
