/**
 * Building the list: `loadOptions` folds a sequence of option and group
 * descriptions into the list and, optionally, the native select; `load`
 * first gathers those descriptions from the native select itself.
 */
module Load {
  import opened Wrappers
  import opened Markup
  import opened Model

  /**
   * One entry handed to `loadOptions`. `value` and `options` are present or
   * absent as the object's own keys; `disabled` is whether its attributes
   * carry `disabled`.
   */
  datatype Desc = Desc(
    value: Option<string>, name: string, html: string, checked: bool, disabled: bool,
    groupLabel: string, options: Option<seq<Desc>>)

  /**
   * The list item `_addOption` builds for an entry, numbered `id`
   * (jquery.richselect.js:976-1053); it is only ever applied to an entry
   * that carries a value.
   */
  function MakeOpt(d: Desc, id: nat): Opt {
    Opt(id, d.value.GetOr([]), d.name, d.html, d.checked, d.checked, false, d.disabled)
  }

  /** The `option` element written into the native select for an entry (jquery.richselect.js:636-648). */
  function MakeEntry(d: Desc): Entry {
    Entry(d.value.GetOr([]), d.name, d.checked, d.disabled)
  }

  /** The children of a group entry that carry a value; the others are skipped (jquery.richselect.js:702-704). */
  function Valued(cs: seq<Desc>): (vs: seq<Desc>)
    ensures |vs| <= |cs|
    ensures forall i :: 0 <= i < |vs| ==> vs[i].value.Some?
  {
    if cs == [] then []
    else Valued(cs[..|cs| - 1]) + (if cs[|cs| - 1].value.Some? then [cs[|cs| - 1]] else [])
  }

  /** The valued children are exactly the children that carry a value. */
  lemma {:induction false} ValuedMembers(cs: seq<Desc>)
    ensures forall d :: d in Valued(cs) <==> d in cs && d.value.Some?
  {
    if cs != [] {
      var n := |cs| - 1;
      ValuedMembers(cs[..n]);
      assert cs == cs[..n] + [cs[n]];
    }
  }

  lemma {:induction false} ValuedAll(cs: seq<Desc>)
    requires forall i :: 0 <= i < |cs| ==> cs[i].value.Some?
    ensures Valued(cs) == cs
  {
    if cs != [] {
      var n := |cs| - 1;
      ValuedAll(cs[..n]);
      assert cs == cs[..n] + [cs[n]];
    }
  }

  /** The options made from valued children, numbered from `next` on. */
  function MakeOpts(vs: seq<Desc>, next: nat): (os: seq<Opt>)
    ensures |os| == |vs|
  {
    seq(|vs|, i requires 0 <= i < |vs| => MakeOpt(vs[i], next + i))
  }

  function MakeEntries(vs: seq<Desc>): (es: seq<Entry>)
    ensures |es| == |vs|
  {
    seq(|vs|, i requires 0 <= i < |vs| => MakeEntry(vs[i]))
  }

  lemma MakeOptsSnoc(vs: seq<Desc>, d: Desc, next: nat)
    ensures MakeOpts(vs + [d], next) == MakeOpts(vs, next) + [MakeOpt(d, next + |vs|)]
  {
  }

  lemma MakeEntriesSnoc(vs: seq<Desc>, d: Desc)
    ensures MakeEntries(vs + [d]) == MakeEntries(vs) + [MakeEntry(d)]
  {
  }

  predicate IsGroup(it: Item, l: string) {
    it.Group? && it.groupLabel == l
  }

  /** The last group of `items` labelled `l`: the `.each` at jquery.richselect.js:656-661 keeps the last match. */
  function LastGroupWith(items: seq<Item>, l: string): (r: Option<nat>)
    ensures r.Some? ==> r.value < |items| && IsGroup(items[r.value], l)
  {
    if items == [] then None
    else if IsGroup(items[|items| - 1], l) then Some(|items| - 1)
    else LastGroupWith(items[..|items| - 1], l)
  }

  predicate IsBGroup(b: BItem, l: string) {
    b.BGroup? && b.groupLabel == l
  }

  /**
   * The native select after a group entry labelled `l` with options `es`:
   * they go into every optgroup with that label, or into a new optgroup at
   * the end (jquery.richselect.js:664-671, 711-726).
   */
  function AddToGroups(b: seq<BItem>, l: string, es: seq<Entry>): seq<BItem> {
    if exists i | 0 <= i < |b| :: IsBGroup(b[i], l) then
      seq(|b|, i requires 0 <= i < |b| => if IsBGroup(b[i], l) then b[i].(entries := b[i].entries + es) else b[i])
    else b + [BGroup(l, es)]
  }

  /**
   * Progress through `loadOptions`: the groups already in the list (which
   * entries may join), the new containers to append at the end, the native
   * select, and the option counter.
   */
  datatype LoadState = LoadState(attached: seq<Item>, pending: seq<Item>, backing: seq<BItem>, next: nat)

  /** The list this state stands for once the new containers are appended. */
  function Loaded(s: LoadState): seq<Item> {
    s.attached + s.pending
  }

  /**
   * One entry of `options` (jquery.richselect.js:617-737). An entry with a
   * value is an option, even if it has children; else an entry with
   * children is a group, which joins the last group of that label already
   * in the list or becomes a new one; anything else is skipped.
   */
  function Step(s: LoadState, d: Desc, cfg: Config, updateSelect: bool): LoadState {
    if d.value.Some? then
      s.(pending := s.pending + [Single(MakeOpt(d, s.next))],
         backing := if updateSelect then s.backing + [BOpt(MakeEntry(d))] else s.backing,
         next := s.next + 1)
    else if d.options.Some? then
      var vs := Valued(d.options.value);
      var os := MakeOpts(vs, s.next);
      var b := if updateSelect then AddToGroups(s.backing, d.groupLabel, MakeEntries(vs)) else s.backing;
      match LastGroupWith(s.attached, d.groupLabel)
      case Some(g) =>
        s.(attached := s.attached[g := s.attached[g].(members := s.attached[g].members + os)],
           backing := b, next := s.next + |vs|)
      case None =>
        s.(pending := s.pending + [Group(d.groupLabel, os, cfg.selectGroup, cfg.texts.selectAll, true)],
           backing := b, next := s.next + |vs|)
    else s
  }

  /** The entries of `ds` taken in order. */
  function Fold(s: LoadState, ds: seq<Desc>, cfg: Config, updateSelect: bool): LoadState {
    if ds == [] then s
    else Step(Fold(s, ds[..|ds| - 1], cfg, updateSelect), ds[|ds| - 1], cfg, updateSelect)
  }

  /** Before the first entry: `overwrite` empties the list, and the select too when it is to be updated. */
  function Start(items: seq<Item>, backing: seq<BItem>, next: nat, overwrite: bool, updateSelect: bool): LoadState {
    LoadState(if overwrite then [] else items, [], if overwrite && updateSelect then [] else backing, next)
  }

  ghost predicate IdsAtLeast(os: seq<Opt>, lo: nat) {
    forall i :: 0 <= i < |os| ==> lo <= os[i].id
  }

  /** Options numbered from `n` on, inserted anywhere into a list numbered below `n`, keep ids distinct. */
  lemma InsertFresh(a: seq<Opt>, m: seq<Opt>, b: seq<Opt>, n: nat, lo: nat)
    requires IdsFresh(a + b, n) && IdsAtLeast(a + b, lo) && lo <= n
    requires forall i :: 0 <= i < |m| ==> m[i].id == n + i
    ensures IdsFresh(a + m + b, n + |m|) && IdsAtLeast(a + m + b, lo)
    ensures |a + m + b| == |a + b| + |m|
  {
    var c := a + m + b;
    var ab := a + b;
    assert forall x :: 0 <= x < |a| ==> c[x] == ab[x];
    assert forall x :: |a| + |m| <= x < |c| ==> c[x] == ab[x - |m|];
    assert forall x :: |a| <= x < |a| + |m| ==> c[x] == m[x - |a|];
  }

  lemma StepOption(s: LoadState, d: Desc, cfg: Config, us: bool)
    requires d.value.Some?
    ensures Step(s, d, cfg, us).attached == s.attached
    ensures Step(s, d, cfg, us).pending == s.pending + [Single(MakeOpt(d, s.next))]
    ensures Step(s, d, cfg, us).next == s.next + 1
    ensures Step(s, d, cfg, us).backing == if us then s.backing + [BOpt(MakeEntry(d))] else s.backing
  {
  }

  /**
   * An entry with a value adds one option at the end of the list, even
   * when it also has children: selected and ticked exactly when the entry
   * is `checked`, visible, numbered by the counter; with `updateSelect` the
   * native select gains the matching entry at its end.
   */
  lemma OptionEntryAdds(s: LoadState, d: Desc, cfg: Config, us: bool)
    requires d.value.Some?
    ensures var t := Step(s, d, cfg, us);
            var os := Options(Loaded(t));
            && os == Options(Loaded(s)) + [os[|os| - 1]]
            && os[|os| - 1].value == d.value.value && os[|os| - 1].id == s.next
            && os[|os| - 1].selected == d.checked && os[|os| - 1].checked == d.checked
            && !os[|os| - 1].hidden
            && (us ==> Entries(t.backing) == Entries(s.backing) + [Entry(d.value.value, d.name, d.checked, d.disabled)])
            && (!us ==> t.backing == s.backing)
  {
    var t := Step(s, d, cfg, us);
    StepOption(s, d, cfg, us);
    assert Loaded(t) == Loaded(s) + [Single(MakeOpt(d, s.next))];
    OptionsSnoc(Loaded(s), Single(MakeOpt(d, s.next)));
    if us {
      EntriesSnoc(t.backing);
      assert t.backing[..|t.backing| - 1] == s.backing;
    }
  }

  /** An entry with neither a value nor children is skipped. */
  lemma MalformedSkipped(s: LoadState, d: Desc, cfg: Config, us: bool)
    requires d.value.None? && d.options.None?
    ensures Step(s, d, cfg, us) == s
  {
  }

  lemma StepGroupBacking(s: LoadState, d: Desc, cfg: Config, us: bool)
    requires d.value.None? && d.options.Some?
    ensures Step(s, d, cfg, us).backing
         == if us then AddToGroups(s.backing, d.groupLabel, MakeEntries(Valued(d.options.value))) else s.backing
  {
  }

  lemma FoldOne(s: LoadState, d: Desc, cfg: Config, us: bool)
    ensures Fold(s, [d], cfg, us) == Step(s, d, cfg, us)
  {
    assert [d][..0] == [];
  }

  lemma FoldTwo(s: LoadState, d1: Desc, d2: Desc, cfg: Config, us: bool)
    ensures Fold(s, [d1, d2], cfg, us) == Step(Step(s, d1, cfg, us), d2, cfg, us)
  {
    assert [d1, d2][..1] == [d1];
    FoldOne(s, d1, cfg, us);
  }

  /** A state without the native select. */
  function ListPart(s: LoadState): LoadState {
    s.(backing := [])
  }

  lemma StepListPart(s: LoadState, d: Desc, cfg: Config, us: bool)
    ensures ListPart(Step(s, d, cfg, us)) == ListPart(Step(ListPart(s), d, cfg, false))
  {
  }

  lemma {:induction false} FoldListPart(s: LoadState, ds: seq<Desc>, cfg: Config, us: bool)
    ensures ListPart(Fold(s, ds, cfg, us)) == ListPart(Fold(ListPart(s), ds, cfg, false))
  {
    if ds != [] {
      var n := |ds| - 1;
      FoldListPart(s, ds[..n], cfg, us);
      StepListPart(Fold(s, ds[..n], cfg, us), ds[n], cfg, us);
      StepListPart(Fold(ListPart(s), ds[..n], cfg, false), ds[n], cfg, false);
    }
  }

  /**
   * The list `loadOptions` builds, and the ids it uses, are the same
   * whatever the native select holds and whether it is updated or not.
   */
  lemma FoldLoadedWithoutSelect(s: LoadState, ds: seq<Desc>, cfg: Config, us: bool)
    ensures Loaded(Fold(s, ds, cfg, us)) == Loaded(Fold(ListPart(s), ds, cfg, false))
    ensures Fold(s, ds, cfg, us).next == Fold(ListPart(s), ds, cfg, false).next
  {
    FoldListPart(s, ds, cfg, us);
  }

  lemma StepJoin(s: LoadState, d: Desc, cfg: Config, us: bool, g: nat)
    requires d.value.None? && d.options.Some? && LastGroupWith(s.attached, d.groupLabel) == Some(g)
    ensures var os := MakeOpts(Valued(d.options.value), s.next);
            && Step(s, d, cfg, us).attached == s.attached[g := s.attached[g].(members := s.attached[g].members + os)]
            && Step(s, d, cfg, us).pending == s.pending
            && Step(s, d, cfg, us).next == s.next + |os|
  {
  }

  lemma StepNew(s: LoadState, d: Desc, cfg: Config, us: bool)
    requires d.value.None? && d.options.Some? && LastGroupWith(s.attached, d.groupLabel).None?
    ensures var os := MakeOpts(Valued(d.options.value), s.next);
            && Step(s, d, cfg, us).attached == s.attached
            && Step(s, d, cfg, us).pending == s.pending + [NewGroup(d.groupLabel, os, cfg)]
            && Step(s, d, cfg, us).next == s.next + |os|
  {
  }

  /** The number of groups labelled `l` in the list. */
  function GroupCount(items: seq<Item>, l: string): nat {
    if items == [] then 0
    else GroupCount(items[..|items| - 1], l) + (if IsGroup(items[|items| - 1], l) then 1 else 0)
  }

  lemma GroupCountSnoc(items: seq<Item>, x: Item, l: string)
    ensures GroupCount(items + [x], l) == GroupCount(items, l) + (if IsGroup(x, l) then 1 else 0)
  {
    assert (items + [x])[..|items|] == items;
  }

  lemma {:induction false} GroupCountUpdate(items: seq<Item>, g: nat, x: Item, l: string)
    requires g < |items| && (IsGroup(items[g], l) <==> IsGroup(x, l))
    ensures GroupCount(items[g := x], l) == GroupCount(items, l)
  {
    var n := |items| - 1;
    var u := items[g := x];
    if g < n {
      assert u[..n] == items[..n][g := x];
      GroupCountUpdate(items[..n], g, x, l);
      assert u[n] == items[n];
    } else {
      assert u[..n] == items[..n];
    }
  }

  /** Growing the group at `g` puts the new options right after its old ones. */
  lemma GrowGroup(before: seq<Item>, g: nat, os: seq<Opt>, l: string, after: seq<Item>)
    requires g < |before| && IsGroup(before[g], l)
    requires after == before[g := before[g].(members := before[g].members + os)]
    ensures Options(after) == Options(before[..g + 1]) + os + Options(before[g + 1..])
    ensures GroupCount(after, l) == GroupCount(before, l)
  {
    var grown := before[g].(members := before[g].members + os);
    OptionsUpdate(before, g, grown);
    assert before[..g + 1] == before[..g] + [before[g]];
    OptionsSnoc(before[..g], before[g]);
    Regroup(Options(before[..g]), Members(before[g]), os, Options(before[g + 1..]));
    GroupCountUpdate(before, g, grown, l);
  }

  /**
   * A group entry whose label is already in the list changes only the last
   * group so labelled: its options grow by the entry's valued children,
   * which appear in the list right after that group's old options; the
   * number of groups with that label stays the same.
   */
  lemma StepJoinEffect(s: LoadState, d: Desc, cfg: Config, us: bool, g: nat)
    requires d.value.None? && d.options.Some? && LastGroupWith(s.attached, d.groupLabel) == Some(g)
    ensures var t := Step(s, d, cfg, us);
            var os := MakeOpts(Valued(d.options.value), s.next);
            var before := Loaded(s);
            && g < |before| && IsGroup(before[g], d.groupLabel)
            && Loaded(t) == before[g := before[g].(members := before[g].members + os)]
            && Options(Loaded(t)) == Options(before[..g + 1]) + os + Options(before[g + 1..])
            && GroupCount(Loaded(t), d.groupLabel) == GroupCount(before, d.groupLabel)
            && t.next == s.next + |os|
  {
    var t := Step(s, d, cfg, us);
    var os := MakeOpts(Valued(d.options.value), s.next);
    StepJoin(s, d, cfg, us, g);
    LoadedUpdate(s, t, g);
    assert Loaded(s)[g] == s.attached[g];
    GrowGroup(Loaded(s), g, os, d.groupLabel, Loaded(t));
  }

  /**
   * A group entry with a label not yet in the list appends one new group
   * holding its valued children: the list's options grow at the end, and
   * there is one more group with that label.
   */
  lemma StepNewEffect(s: LoadState, d: Desc, cfg: Config, us: bool)
    requires d.value.None? && d.options.Some? && LastGroupWith(s.attached, d.groupLabel).None?
    ensures var t := Step(s, d, cfg, us);
            var os := MakeOpts(Valued(d.options.value), s.next);
            && Loaded(t) == Loaded(s) + [NewGroup(d.groupLabel, os, cfg)]
            && Options(Loaded(t)) == Options(Loaded(s)) + os
            && GroupCount(Loaded(t), d.groupLabel) == GroupCount(Loaded(s), d.groupLabel) + 1
            && t.next == s.next + |os|
  {
    var t := Step(s, d, cfg, us);
    var x := NewGroup(d.groupLabel, MakeOpts(Valued(d.options.value), s.next), cfg);
    StepNew(s, d, cfg, us);
    assert Loaded(t) == Loaded(s) + [x];
    OptionsSnoc(Loaded(s), x);
    GroupCountSnoc(Loaded(s), x, d.groupLabel);
  }

  /** Appending an entry whose options are numbered from the counter on. */
  lemma AppendInvariant(s: LoadState, t: LoadState, it: Item, lo: nat)
    requires IdsFresh(Options(Loaded(s)), s.next) && IdsAtLeast(Options(Loaded(s)), lo) && lo <= s.next
    requires Loaded(t) == Loaded(s) + [it] && t.next == s.next + |Members(it)|
    requires forall i :: 0 <= i < |Members(it)| ==> Members(it)[i].id == s.next + i
    ensures IdsFresh(Options(Loaded(t)), t.next) && IdsAtLeast(Options(Loaded(t)), lo)
    ensures |Options(Loaded(t))| == |Options(Loaded(s))| + (t.next - s.next)
  {
    OptionsConcat(Loaded(s), [it]);
    OptionsOne(it);
    InsertFresh(Options(Loaded(s)), Members(it), [], s.next, lo);
    assert Options(Loaded(s)) + Members(it) + [] == Options(Loaded(t));
  }

  /** Growing the group at `g` by options numbered from the counter on. */
  lemma JoinInvariant(s: LoadState, t: LoadState, g: nat, os: seq<Opt>, lo: nat)
    requires IdsFresh(Options(Loaded(s)), s.next) && IdsAtLeast(Options(Loaded(s)), lo) && lo <= s.next
    requires g < |s.attached| && s.attached[g].Group?
    requires t.attached == s.attached[g := s.attached[g].(members := s.attached[g].members + os)]
    requires t.pending == s.pending && t.next == s.next + |os|
    requires forall i :: 0 <= i < |os| ==> os[i].id == s.next + i
    ensures IdsFresh(Options(Loaded(t)), t.next) && IdsAtLeast(Options(Loaded(t)), lo)
    ensures |Options(Loaded(t))| == |Options(Loaded(s))| + (t.next - s.next)
  {
    var grp := t.attached[g];
    LoadedUpdate(s, t, g);
    OptionsUpdate(Loaded(s), g, grp);
    var m := s.attached[g].members;
    var a := Options(Loaded(s)[..g]);
    var c := Options(Loaded(s)[g + 1..]);
    Regroup(a, m, os, c);
    InsertFresh(a + m, os, c, s.next, lo);
  }

  lemma LoadedUpdate(s: LoadState, t: LoadState, g: nat)
    requires g < |s.attached| && |t.attached| == |s.attached| && t.pending == s.pending
    requires forall j :: 0 <= j < |s.attached| && j != g ==> t.attached[j] == s.attached[j]
    ensures Loaded(t) == Loaded(s)[g := t.attached[g]]
  {
  }

  lemma Regroup<T>(a: seq<T>, m: seq<T>, os: seq<T>, c: seq<T>)
    ensures a + (m + os) + c == (a + m) + os + c
  {
  }

  /**
   * One entry keeps the option ids distinct and below the counter, keeps
   * them at or above `lo`, and advances the counter by exactly the number
   * of options it adds.
   */
  lemma StepInvariant(s: LoadState, d: Desc, cfg: Config, us: bool, lo: nat)
    requires IdsFresh(Options(Loaded(s)), s.next) && IdsAtLeast(Options(Loaded(s)), lo) && lo <= s.next
    ensures var t := Step(s, d, cfg, us);
            && IdsFresh(Options(Loaded(t)), t.next) && IdsAtLeast(Options(Loaded(t)), lo) && s.next <= t.next
            && |Options(Loaded(t))| == |Options(Loaded(s))| + (t.next - s.next)
  {
    if d.value.Some? {
      OptionInvariant(s, d, cfg, us, lo);
    } else if d.options.Some? {
      GroupInvariant(s, d, cfg, us, lo);
    } else {
      assert Step(s, d, cfg, us) == s;
    }
  }

  lemma OptionInvariant(s: LoadState, d: Desc, cfg: Config, us: bool, lo: nat)
    requires d.value.Some?
    requires IdsFresh(Options(Loaded(s)), s.next) && IdsAtLeast(Options(Loaded(s)), lo) && lo <= s.next
    ensures var t := Step(s, d, cfg, us);
            && IdsFresh(Options(Loaded(t)), t.next) && IdsAtLeast(Options(Loaded(t)), lo) && s.next <= t.next
            && |Options(Loaded(t))| == |Options(Loaded(s))| + (t.next - s.next)
  {
    StepOption(s, d, cfg, us);
    AppendInvariant(s, Step(s, d, cfg, us), Single(MakeOpt(d, s.next)), lo);
  }

  lemma GroupInvariant(s: LoadState, d: Desc, cfg: Config, us: bool, lo: nat)
    requires d.value.None? && d.options.Some?
    requires IdsFresh(Options(Loaded(s)), s.next) && IdsAtLeast(Options(Loaded(s)), lo) && lo <= s.next
    ensures var t := Step(s, d, cfg, us);
            && IdsFresh(Options(Loaded(t)), t.next) && IdsAtLeast(Options(Loaded(t)), lo) && s.next <= t.next
            && |Options(Loaded(t))| == |Options(Loaded(s))| + (t.next - s.next)
  {
    var t := Step(s, d, cfg, us);
    var os := MakeOpts(Valued(d.options.value), s.next);
    match LastGroupWith(s.attached, d.groupLabel)
    case Some(g) =>
      StepJoin(s, d, cfg, us, g);
      JoinInvariant(s, t, g, os, lo);
    case None =>
      StepNew(s, d, cfg, us);
      AppendInvariant(s, t, NewGroup(d.groupLabel, os, cfg), lo);
  }

  /** The whole fold keeps the invariant of `StepInvariant`. */
  lemma {:induction false} FoldInvariant(s: LoadState, ds: seq<Desc>, cfg: Config, us: bool, lo: nat)
    requires IdsFresh(Options(Loaded(s)), s.next) && IdsAtLeast(Options(Loaded(s)), lo) && lo <= s.next
    ensures var t := Fold(s, ds, cfg, us);
            && IdsFresh(Options(Loaded(t)), t.next) && IdsAtLeast(Options(Loaded(t)), lo) && s.next <= t.next
            && |Options(Loaded(t))| == |Options(Loaded(s))| + (t.next - s.next)
  {
    if ds != [] {
      var n := |ds| - 1;
      FoldInvariant(s, ds[..n], cfg, us, lo);
      StepInvariant(Fold(s, ds[..n], cfg, us), ds[n], cfg, us, lo);
    }
  }

  /**
   * `loadOptions` keeps every option id distinct and below the counter, and
   * the counter advances once per option added.
   */
  lemma LoadKeepsIdsFresh(items: seq<Item>, b: seq<BItem>, next: nat, ds: seq<Desc>,
                          overwrite: bool, us: bool, cfg: Config)
    requires IdsFresh(Options(items), next)
    ensures var t := Fold(Start(items, b, next, overwrite, us), ds, cfg, us);
            && IdsFresh(Options(Loaded(t)), t.next) && next <= t.next
            && |Options(Loaded(t))| == (if overwrite then 0 else |Options(items)|) + (t.next - next)
  {
    var s := Start(items, b, next, overwrite, us);
    assert Loaded(s) == s.attached;
    FoldInvariant(s, ds, cfg, us, 0);
  }

  /**
   * With `overwrite`, no option of the earlier list survives: every id is
   * new. When the native select is updated too, it is emptied first, so
   * the outcome is that of loading into an empty list and an empty select;
   * when it is not, the select is left exactly as it was.
   */
  lemma OverwriteDropsOld(items: seq<Item>, b: seq<BItem>, next: nat, ds: seq<Desc>, us: bool, cfg: Config)
    ensures var os := Options(Loaded(Fold(Start(items, b, next, true, us), ds, cfg, us)));
            forall i :: 0 <= i < |os| ==> next <= os[i].id
    ensures us ==> Fold(Start(items, b, next, true, us), ds, cfg, us) == Fold(Start([], [], next, true, true), ds, cfg, true)
    ensures !us ==> Fold(Start(items, b, next, true, us), ds, cfg, us).backing == b
  {
    var s := Start(items, b, next, true, us);
    assert Loaded(s) == [];
    FoldInvariant(s, ds, cfg, us, next);
    if us {
      assert s == Start([], [], next, true, true);
    } else {
      FoldKeepsBacking(s, ds, cfg);
    }
  }

  lemma StepKeepsBacking(s: LoadState, d: Desc, cfg: Config)
    ensures Step(s, d, cfg, false).backing == s.backing
  {
  }

  /** Without `updateSelect` the native select is never touched. */
  lemma {:induction false} FoldKeepsBacking(s: LoadState, ds: seq<Desc>, cfg: Config)
    ensures Fold(s, ds, cfg, false).backing == s.backing
  {
    if ds != [] {
      var n := |ds| - 1;
      FoldKeepsBacking(s, ds[..n], cfg);
      StepKeepsBacking(Fold(s, ds[..n], cfg, false), ds[n], cfg);
    }
  }

  /** A group entry labelled `l` with children `cs`. */
  function GroupDesc(l: string, cs: seq<Desc>): Desc {
    Desc(None, [], [], false, false, l, Some(cs))
  }

  function NewGroup(l: string, os: seq<Opt>, cfg: Config): Item {
    Group(l, os, cfg.selectGroup, cfg.texts.selectAll, true)
  }

  /**
   * Two group entries with one label in one call give two groups in the
   * list, while the native select gets one optgroup holding both.
   */
  lemma NoMergeWithinCall(items: seq<Item>, b: seq<BItem>, next: nat, l: string,
                          cs1: seq<Desc>, cs2: seq<Desc>, cfg: Config)
    requires forall j :: 0 <= j < |items| ==> !IsGroup(items[j], l)
    requires forall j :: 0 <= j < |b| ==> !IsBGroup(b[j], l)
    ensures Loaded(Fold(Start(items, b, next, false, true), [GroupDesc(l, cs1), GroupDesc(l, cs2)], cfg, true))
         == items + [NewGroup(l, MakeOpts(Valued(cs1), next), cfg),
                     NewGroup(l, MakeOpts(Valued(cs2), next + |Valued(cs1)|), cfg)]
    ensures Fold(Start(items, b, next, false, true), [GroupDesc(l, cs1), GroupDesc(l, cs2)], cfg, true).backing
         == b + [BGroup(l, MakeEntries(Valued(cs1)) + MakeEntries(Valued(cs2)))]
  {
    NoGroupWith(items, l);
    FoldLoadedWithoutSelect(Start(items, b, next, false, true), [GroupDesc(l, cs1), GroupDesc(l, cs2)], cfg, true);
    TwoNewGroups(ListPart(Start(items, b, next, false, true)), items, next, l, cs1, cs2, cfg);
    TwoGroupsBacking(Start(items, b, next, false, true), l, cs1, cs2, cfg);
  }

  lemma NoGroupWith(items: seq<Item>, l: string)
    requires forall j :: 0 <= j < |items| ==> !IsGroup(items[j], l)
    ensures LastGroupWith(items, l).None?
  {
  }

  /** The group `LastGroupWith` picks is the last one with that label, and it finds one whenever there is one. */
  lemma {:induction false} LastGroupWithIsLast(items: seq<Item>, l: string)
    ensures LastGroupWith(items, l).Some? ==> forall j :: LastGroupWith(items, l).value < j < |items| ==> !IsGroup(items[j], l)
    ensures LastGroupWith(items, l).None? ==> forall j :: 0 <= j < |items| ==> !IsGroup(items[j], l)
  {
    if items != [] && !IsGroup(items[|items| - 1], l) {
      var n := |items| - 1;
      LastGroupWithIsLast(items[..n], l);
      assert forall j :: 0 <= j < n ==> items[..n][j] == items[j];
    }
  }

  /** The list side of `NoMergeWithinCall`, on the list-only fold. */
  lemma TwoNewGroups(s0: LoadState, items: seq<Item>, next: nat, l: string, cs1: seq<Desc>, cs2: seq<Desc>, cfg: Config)
    requires s0.attached == items && s0.next == next
    requires s0.pending == [] && LastGroupWith(items, l).None?
    ensures Loaded(Fold(s0, [GroupDesc(l, cs1), GroupDesc(l, cs2)], cfg, false))
         == items + [NewGroup(l, MakeOpts(Valued(cs1), next), cfg),
                     NewGroup(l, MakeOpts(Valued(cs2), next + |Valued(cs1)|), cfg)]
  {
    FoldTwo(s0, GroupDesc(l, cs1), GroupDesc(l, cs2), cfg, false);
    TwoStepsNew(s0, l, cs1, cs2, cfg);
  }

  /** `TwoNewGroups` for the two steps themselves. */
  lemma TwoStepsNew(s0: LoadState, l: string, cs1: seq<Desc>, cs2: seq<Desc>, cfg: Config)
    requires s0.pending == [] && LastGroupWith(s0.attached, l).None?
    ensures Loaded(Step(Step(s0, GroupDesc(l, cs1), cfg, false), GroupDesc(l, cs2), cfg, false))
         == s0.attached + [NewGroup(l, MakeOpts(Valued(cs1), s0.next), cfg),
                           NewGroup(l, MakeOpts(Valued(cs2), s0.next + |Valued(cs1)|), cfg)]
  {
    var d1 := GroupDesc(l, cs1);
    StepNew(s0, d1, cfg, false);
    SecondStepNew(s0, Step(s0, d1, cfg, false), l, cs1, cs2, cfg);
  }

  /** The second step of `TwoStepsNew`, from any state the first step may leave. */
  lemma SecondStepNew(s0: LoadState, s1: LoadState, l: string, cs1: seq<Desc>, cs2: seq<Desc>, cfg: Config)
    requires s0.pending == [] && LastGroupWith(s0.attached, l).None?
    requires s1.attached == s0.attached && s1.next == s0.next + |Valued(cs1)|
    requires s1.pending == [NewGroup(l, MakeOpts(Valued(cs1), s0.next), cfg)]
    ensures Loaded(Step(s1, GroupDesc(l, cs2), cfg, false))
         == s0.attached + [NewGroup(l, MakeOpts(Valued(cs1), s0.next), cfg),
                           NewGroup(l, MakeOpts(Valued(cs2), s0.next + |Valued(cs1)|), cfg)]
  {
    var g1 := NewGroup(l, MakeOpts(Valued(cs1), s0.next), cfg);
    var g2 := NewGroup(l, MakeOpts(Valued(cs2), s0.next + |Valued(cs1)|), cfg);
    StepNewAt(s1, GroupDesc(l, cs2), cfg, false, s0.next + |Valued(cs1)|);
    PendingTwo(s0, s1, Step(s1, GroupDesc(l, cs2), cfg, false), g1, g2);
  }

  /** Two items pending after two steps from an empty pending list. */
  lemma PendingTwo(s0: LoadState, s1: LoadState, s2: LoadState, g1: Item, g2: Item)
    requires s0.pending == [] && s1.attached == s0.attached && s1.pending == s0.pending + [g1]
    requires s2.attached == s1.attached && s2.pending == s1.pending + [g2]
    ensures Loaded(s2) == s0.attached + [g1, g2]
  {
  }

  /** `StepNew` with the counter given by name. */
  lemma StepNewAt(s: LoadState, d: Desc, cfg: Config, us: bool, n: nat)
    requires d.value.None? && d.options.Some? && LastGroupWith(s.attached, d.groupLabel).None? && s.next == n
    ensures Step(s, d, cfg, us).attached == s.attached
    ensures Step(s, d, cfg, us).pending == s.pending + [NewGroup(d.groupLabel, MakeOpts(Valued(d.options.value), n), cfg)]
  {
  }

  /** Numbering from equal counters gives equal options. */
  lemma MakeOptsFrom(vs: seq<Desc>, a: nat, b: nat)
    requires a == b
    ensures MakeOpts(vs, a) == MakeOpts(vs, b)
  {
  }

  lemma TwoGroupsBacking(s0: LoadState, l: string, cs1: seq<Desc>, cs2: seq<Desc>, cfg: Config)
    requires forall j :: 0 <= j < |s0.backing| ==> !IsBGroup(s0.backing[j], l)
    ensures Fold(s0, [GroupDesc(l, cs1), GroupDesc(l, cs2)], cfg, true).backing
         == s0.backing + [BGroup(l, MakeEntries(Valued(cs1)) + MakeEntries(Valued(cs2)))]
  {
    var d1 := GroupDesc(l, cs1);
    var d2 := GroupDesc(l, cs2);
    FoldTwo(s0, d1, d2, cfg, true);
    StepGroupBacking(s0, d1, cfg, true);
    StepGroupBacking(Step(s0, d1, cfg, true), d2, cfg, true);
    AddToLastGroup(s0.backing, l, MakeEntries(Valued(cs1)), MakeEntries(Valued(cs2)));
  }

  lemma AddToLastGroup(b: seq<BItem>, l: string, e1: seq<Entry>, e2: seq<Entry>)
    requires forall j :: 0 <= j < |b| ==> !IsBGroup(b[j], l)
    ensures AddToGroups(b + [BGroup(l, e1)], l, e2) == b + [BGroup(l, e1 + e2)]
  {
    var b1 := b + [BGroup(l, e1)];
    assert IsBGroup(b1[|b|], l);
    var r := AddToGroups(b1, l, e2);
    assert forall j :: 0 <= j < |b| ==> r[j] == b[j];
  }

  /**
   * A group entry in a later call joins the group of that label the earlier
   * call created, instead of adding a second one.
   */
  lemma MergeAcrossCalls(items: seq<Item>, b: seq<BItem>, next: nat, l: string,
                         cs1: seq<Desc>, cs2: seq<Desc>, us: bool, cfg: Config)
    requires forall j :: 0 <= j < |items| ==> !IsGroup(items[j], l)
    ensures var v1 := Valued(cs1);
            var v2 := Valued(cs2);
            var t1 := Fold(Start(items, b, next, false, us), [GroupDesc(l, cs1)], cfg, us);
            var t2 := Fold(Start(Loaded(t1), t1.backing, t1.next, false, us), [GroupDesc(l, cs2)], cfg, us);
            Loaded(t2) == items + [NewGroup(l, MakeOpts(v1, next) + MakeOpts(v2, next + |v1|), cfg)]
  {
    var d1 := GroupDesc(l, cs1);
    var d2 := GroupDesc(l, cs2);
    var s0 := Start(items, b, next, false, us);
    NoGroupWith(items, l);
    FoldOne(s0, d1, cfg, us);
    StepNew(s0, d1, cfg, us);
    var t1 := Step(s0, d1, cfg, us);
    var os1 := MakeOpts(Valued(cs1), next);
    var g1 := NewGroup(l, os1, cfg);
    assert Loaded(t1) == items + [g1];
    var s2 := Start(Loaded(t1), t1.backing, t1.next, false, us);
    assert IsGroup(s2.attached[|items|], l);
    assert LastGroupWith(s2.attached, l) == Some(|items|);
    FoldOne(s2, d2, cfg, us);
    StepJoin(s2, d2, cfg, us, |items|);
    var os2 := MakeOpts(Valued(cs2), t1.next);
    MakeOptsFrom(Valued(cs2), t1.next, next + |Valued(cs1)|);
    assert g1.(members := os1 + os2) == NewGroup(l, os1 + os2, cfg);
  }

  /** A native `option` as `load` describes it (jquery.richselect.js:456-484, 492-522). */
  function OptionDesc(e: Entry, parse: string -> Option<string>, copyDisabled: bool): (d: Desc)
    ensures d.value == Some(e.value) && d.checked == e.selected
    ensures d.html == Unescape(e.text) && d.name == NameOf(e.text, parse)
  {
    var html := Unescape(e.text);
    Desc(Some(e.value), DisplayName(html, parse(html)), html, e.selected,
         copyDisabled && e.disabled, [], None)
  }

  /**
   * The entries `load` hands to `loadOptions`, one per child of the select
   * (jquery.richselect.js:450-529); the select has no children other than
   * options and optgroups here.
   */
  function Gather(native: seq<BItem>, parse: string -> Option<string>, copyDisabled: bool): (ds: seq<Desc>)
    ensures |ds| == |native|
  {
    seq(|native|, i requires 0 <= i < |native| =>
      match native[i]
      case BOpt(e) => OptionDesc(e, parse, copyDisabled)
      case BGroup(l, es) => GroupDesc(l, GatherGroup(es, parse, copyDisabled)))
  }

  /** The children `load` gathers from one native optgroup. */
  function GatherGroup(es: seq<Entry>, parse: string -> Option<string>, copyDisabled: bool): (cs: seq<Desc>)
    ensures |cs| == |es| && forall j :: 0 <= j < |es| ==> cs[j] == OptionDesc(es[j], parse, copyDisabled)
  {
    seq(|es|, j requires 0 <= j < |es| => OptionDesc(es[j], parse, copyDisabled))
  }

  /** The select after `load`: a top-level option's text becomes its display name (jquery.richselect.js:515). */
  function RenameTop(native: seq<BItem>, parse: string -> Option<string>): (r: seq<BItem>)
    ensures |r| == |native|
  {
    seq(|native|, i requires 0 <= i < |native| =>
      match native[i]
      case BOpt(e) => BOpt(e.(text := NameOf(e.text, parse)))
      case BGroup(l, es) => native[i])
  }

  /** The list option `o` is what `load` makes of native entry `e`. */
  predicate Reflects(o: Opt, e: Entry, parse: string -> Option<string>, copyDisabled: bool) {
    && o.value == e.value && o.selected == e.selected && o.checked == e.selected
    && o.disabled == (copyDisabled && e.disabled) && !o.hidden
    && o.html == Unescape(e.text) && o.name == NameOf(e.text, parse)
  }

  ghost predicate ReflectsAll(os: seq<Opt>, es: seq<Entry>, parse: string -> Option<string>, copyDisabled: bool) {
    |os| == |es| && forall k :: 0 <= k < |os| ==> Reflects(os[k], es[k], parse, copyDisabled)
  }

  /**
   * List entry `x` is what `load` makes of native child `c`: an option for
   * an option, a group with the same label for an optgroup, and its
   * options mirroring the child's entries.
   */
  ghost predicate MadeFrom(x: Item, c: BItem, parse: string -> Option<string>, copyDisabled: bool) {
    && (x.Group? <==> c.BGroup?)
    && (c.BGroup? ==> x.groupLabel == c.groupLabel)
    && ReflectsAll(Members(x), BEntries(c), parse, copyDisabled)
  }

  ghost predicate MadeFromChildren(xs: seq<Item>, native: seq<BItem>, parse: string -> Option<string>, copyDisabled: bool) {
    |xs| == |native| && forall i :: 0 <= i < |xs| ==> MadeFrom(xs[i], native[i], parse, copyDisabled)
  }

  lemma ReflectsConcat(os1: seq<Opt>, es1: seq<Entry>, os2: seq<Opt>, es2: seq<Entry>,
                       parse: string -> Option<string>, cd: bool)
    requires ReflectsAll(os1, es1, parse, cd) && ReflectsAll(os2, es2, parse, cd)
    ensures ReflectsAll(os1 + os2, es1 + es2, parse, cd)
  {
    forall k | 0 <= k < |os1| + |os2| ensures Reflects((os1 + os2)[k], (es1 + es2)[k], parse, cd) {
      if k < |os1| {
        assert (os1 + os2)[k] == os1[k] && (es1 + es2)[k] == es1[k];
      } else {
        assert (os1 + os2)[k] == os2[k - |os1|] && (es1 + es2)[k] == es2[k - |es1|];
      }
    }
  }

  lemma ReflectsMade(e: Entry, id: nat, parse: string -> Option<string>, cd: bool)
    ensures Reflects(MakeOpt(OptionDesc(e, parse, cd), id), e, parse, cd)
  {
  }

  /** What the gathered entry for one native child adds to the list. */
  lemma StepGathered(s: LoadState, native: seq<BItem>, i: nat, parse: string -> Option<string>, cd: bool, cfg: Config)
    requires i < |native| && s.attached == []
    ensures var t := Step(s, Gather(native, parse, cd)[i], cfg, false);
            && t.attached == [] && t.backing == s.backing
            && |t.pending| == |s.pending| + 1
            && t.pending == s.pending + [t.pending[|s.pending|]]
            && MadeFrom(t.pending[|s.pending|], native[i], parse, cd)
  {
    match native[i]
    case BOpt(e) => GatheredOption(s, e, parse, cd, cfg);
    case BGroup(l, es) => GatheredGroup(s, l, es, parse, cd, cfg);
  }

  lemma GatheredOption(s: LoadState, e: Entry, parse: string -> Option<string>, cd: bool, cfg: Config)
    requires s.attached == []
    ensures var t := Step(s, OptionDesc(e, parse, cd), cfg, false);
            && t.attached == [] && t.backing == s.backing
            && |t.pending| == |s.pending| + 1
            && t.pending == s.pending + [t.pending[|s.pending|]]
            && ReflectsAll(Members(t.pending[|s.pending|]), [e], parse, cd)
            && t.pending[|s.pending|].Single?
  {
    var d := OptionDesc(e, parse, cd);
    StepOption(s, d, cfg, false);
    ReflectsMade(e, s.next, parse, cd);
  }

  lemma GatheredGroup(s: LoadState, l: string, es: seq<Entry>, parse: string -> Option<string>, cd: bool, cfg: Config)
    requires s.attached == []
    ensures var t := Step(s, GroupDesc(l, GatherGroup(es, parse, cd)), cfg, false);
            && t.attached == [] && t.backing == s.backing
            && |t.pending| == |s.pending| + 1
            && t.pending == s.pending + [t.pending[|s.pending|]]
            && ReflectsAll(Members(t.pending[|s.pending|]), es, parse, cd)
            && t.pending[|s.pending|].Group? && t.pending[|s.pending|].groupLabel == l
  {
    var cs := GatherGroup(es, parse, cd);
    var d := GroupDesc(l, cs);
    ValuedAll(cs);
    StepNew(s, d, cfg, false);
    StepGroupBacking(s, d, cfg, false);
    ReflectsMadeAll(es, s.next, parse, cd);
    var t := Step(s, d, cfg, false);
    assert t.pending[|s.pending|] == NewGroup(l, MakeOpts(cs, s.next), cfg);
  }

  lemma ReflectsMadeAll(es: seq<Entry>, next: nat, parse: string -> Option<string>, cd: bool)
    ensures ReflectsAll(MakeOpts(GatherGroup(es, parse, cd), next), es, parse, cd)
  {
    var os := MakeOpts(GatherGroup(es, parse, cd), next);
    forall k | 0 <= k < |os| ensures Reflects(os[k], es[k], parse, cd) {
      ReflectsMade(es[k], next + k, parse, cd);
    }
  }

  /**
   * `load` round trip: loading what `load` gathers from a native select
   * yields one list entry per child, and the options of the list mirror the
   * select's options in order (value, selection, disabled state, markup and
   * name), while the select itself is left as it was.
   */
  lemma {:induction false} GatherRoundTrip(native: seq<BItem>, items: seq<Item>, b: seq<BItem>, next: nat,
                                           parse: string -> Option<string>, cd: bool, cfg: Config)
    ensures var t := Fold(Start(items, b, next, true, false), Gather(native, parse, cd), cfg, false);
            && t.attached == [] && t.backing == b && |t.pending| == |native|
            && ReflectsAll(Options(Loaded(t)), Entries(native), parse, cd)
            && MadeFromChildren(t.pending, native, parse, cd)
  {
    GatherKeepsChildren(native, items, b, next, parse, cd, cfg);
    var ds := Gather(native, parse, cd);
    var s := Start(items, b, next, true, false);
    if native == [] {
      assert ds == [];
    } else {
      var n := |native| - 1;
      GatherPrefix(native, n, parse, cd);
      GatherRoundTrip(native[..n], items, b, next, parse, cd, cfg);
      var p := Fold(s, ds[..n], cfg, false);
      assert Fold(s, ds, cfg, false) == Step(p, ds[n], cfg, false);
      StepGathered(p, native, n, parse, cd, cfg);
      RoundTripGlue(p, Step(p, ds[n], cfg, false), native, parse, cd);
    }
  }

  /** Child by child, `load` gives one list entry of the same kind and label, with mirrored options. */
  lemma {:induction false} GatherKeepsChildren(native: seq<BItem>, items: seq<Item>, b: seq<BItem>, next: nat,
                                               parse: string -> Option<string>, cd: bool, cfg: Config)
    ensures var t := Fold(Start(items, b, next, true, false), Gather(native, parse, cd), cfg, false);
            && t.attached == [] && MadeFromChildren(t.pending, native, parse, cd)
  {
    var ds := Gather(native, parse, cd);
    var s := Start(items, b, next, true, false);
    if native == [] {
      assert ds == [];
    } else {
      var n := |native| - 1;
      GatherPrefix(native, n, parse, cd);
      GatherKeepsChildren(native[..n], items, b, next, parse, cd, cfg);
      var p := Fold(s, ds[..n], cfg, false);
      assert Fold(s, ds, cfg, false) == Step(p, ds[n], cfg, false);
      StepGathered(p, native, n, parse, cd, cfg);
      var t := Step(p, ds[n], cfg, false);
      MadeFromSnoc(p.pending, t.pending, native, parse, cd);
    }
  }

  lemma MadeFromSnoc(ps: seq<Item>, ts: seq<Item>, native: seq<BItem>, parse: string -> Option<string>, cd: bool)
    requires native != [] && MadeFromChildren(ps, native[..|native| - 1], parse, cd)
    requires |ts| == |ps| + 1 && ts == ps + [ts[|ps|]] && MadeFrom(ts[|ps|], native[|native| - 1], parse, cd)
    ensures MadeFromChildren(ts, native, parse, cd)
  {
    forall i | 0 <= i < |ts| ensures MadeFrom(ts[i], native[i], parse, cd) {
      if i < |ps| {
        assert ts[i] == ps[i] && native[i] == native[..|native| - 1][i];
      }
    }
  }

  lemma GatherPrefix(native: seq<BItem>, n: nat, parse: string -> Option<string>, cd: bool)
    requires n <= |native|
    ensures Gather(native[..n], parse, cd) == Gather(native, parse, cd)[..n]
  {
  }

  lemma RoundTripGlue(p: LoadState, t: LoadState, native: seq<BItem>, parse: string -> Option<string>, cd: bool)
    requires native != [] && p.attached == [] && t.attached == []
    requires |p.pending| == |native| - 1 && |t.pending| == |p.pending| + 1 && t.pending == p.pending + [t.pending[|p.pending|]]
    requires ReflectsAll(Options(Loaded(p)), Entries(native[..|native| - 1]), parse, cd)
    requires ReflectsAll(Members(t.pending[|p.pending|]), BEntries(native[|native| - 1]), parse, cd)
    ensures ReflectsAll(Options(Loaded(t)), Entries(native), parse, cd)
  {
    var x := t.pending[|p.pending|];
    LoadedDetached(p);
    LoadedDetached(t);
    ReflectsSnoc(p.pending, x, native, parse, cd);
  }

  lemma LoadedDetached(s: LoadState)
    requires s.attached == []
    ensures Loaded(s) == s.pending
  {
  }


  /** One more list entry mirroring one more native child. */
  lemma ReflectsSnoc(ps: seq<Item>, x: Item, native: seq<BItem>, parse: string -> Option<string>, cd: bool)
    requires native != []
    requires ReflectsAll(Options(ps), Entries(native[..|native| - 1]), parse, cd)
    requires ReflectsAll(Members(x), BEntries(native[|native| - 1]), parse, cd)
    ensures ReflectsAll(Options(ps + [x]), Entries(native), parse, cd)
  {
    OptionsSnoc(ps, x);
    ReflectsConcat(Options(ps), Entries(native[..|native| - 1]), Members(x), BEntries(native[|native| - 1]), parse, cd);
  }
}
