/**
 * One `MultiSelect` instance: the list it shows, the native select behind
 * it, the two recompute flags and the texts it writes, changed in place by
 * the handlers of jquery.richselect.js.
 */
module Widget {
  import opened Wrappers
  import opened Text
  import opened Markup
  import opened SearchTerms
  import opened Model
  import opened Toggle
  import opened Bulk
  import opened Filter
  import opened Summary
  import opened Load

  /** The page-wide `rsOptCounter`, shared by every instance (jquery.richselect.js:85, 1052). */
  class OptCounter {
    var next: nat

    constructor ()
      ensures next == 1
    {
      next := 1;
    }
  }

  /** The only configuration the constructor refuses (jquery.richselect.js:137-141). */
  predicate SearchMisconfigured(cfg: Config) {
    cfg.search && !cfg.searchText && !cfg.searchValue
  }

  const SearchFieldError: string := "[jQuery-MultiSelect] Either searchText or searchValue should be true."

  /** The list once `_updateSelectAllText` has run over `x` with `updateSelectAll` equal to `on`. */
  function Relinked(on: bool, x: seq<Item>, texts: Texts): seq<Item> {
    if on then Relabel(x, texts) else x
  }

  /** The global link's text once `_updateSelectAllText` has run over `x`; `prev` is its text before. */
  function GlobalLinkAfter(on: bool, cfg: Config, x: seq<Item>, prev: string): string {
    if on && cfg.selectAll then LinkText(Options(x), cfg.texts) else prev
  }

  /** Relabelling the group links keeps each entry's kind, label and options. */
  lemma RelinkedKeepsMadeFrom(on: bool, xs: seq<Item>, native: seq<BItem>, parse: string -> Option<string>,
                             cd: bool, texts: Texts)
    requires MadeFromChildren(xs, native, parse, cd)
    ensures MadeFromChildren(Relinked(on, xs, texts), native, parse, cd)
    ensures on ==> forall i :: 0 <= i < |xs| && Relinked(on, xs, texts)[i].Group? && Relinked(on, xs, texts)[i].hasLink ==>
              Relinked(on, xs, texts)[i].linkText == LinkText(Relinked(on, xs, texts)[i].members, texts)
  {
    var r := Relinked(on, xs, texts);
    forall i | 0 <= i < |xs| ensures MadeFrom(r[i], native[i], parse, cd) {
      assert Members(r[i]) == Members(xs[i]);
    }
  }

  /** What `_updatePlaceholderText` shows for a native select with entries `es`. */
  function Summarize(mode: Mode, es: seq<Entry>, maxOpts: int, overflows: string -> bool): Shown {
    match mode
    case Checkbox => CheckboxSummary(CheckboxVals(es), es, maxOpts, overflows)
    case Radio => RadioSummary(es)
  }

  /**
   * The `.each` over the list's groups that remembers the last one whose
   * label reads `l` (jquery.richselect.js:656-661).
   */
  method FindLastGroup(items: seq<Item>, l: string) returns (r: Option<nat>)
    ensures r == LastGroupWith(items, l)
  {
    r := None;
    var k := 0;
    while k < |items|
      invariant 0 <= k <= |items|
      invariant r == LastGroupWith(items[..k], l)
    {
      assert items[..k + 1][..k] == items[..k];
      if IsGroup(items[k], l) {
        r := Some(k);
      }
      k := k + 1;
    }
    assert items[..k] == items;
  }

  /** The `.each` collecting the values of the options marked selected (jquery.richselect.js:431-434). */
  method CollectValues(os: seq<Opt>) returns (vals: seq<string>)
    ensures vals == SelectedOptValues(os)
  {
    vals := [];
    var k := 0;
    while k < |os|
      invariant 0 <= k <= |os|
      invariant vals == SelectedOptValues(os[..k])
    {
      assert os[..k + 1][..k] == os[..k];
      if os[k].selected {
        vals := vals + [os[k].value];
      }
      k := k + 1;
    }
    assert os[..k] == os;
  }

  /**
   * The `.each` over the native select's children in `load`: the entry
   * `loadOptions` receives for each, and the select once each top-level
   * option's text is replaced by its display name (jquery.richselect.js:451-528).
   */
  method GatherChildren(native: seq<BItem>, parse: string -> Option<string>, copyDisabled: bool)
    returns (ds: seq<Desc>, renamed: seq<BItem>)
    ensures ds == Gather(native, parse, copyDisabled) && renamed == RenameTop(native, parse)
  {
    ds := [];
    renamed := native;
    var k := 0;
    while k < |native|
      invariant 0 <= k <= |native| && |renamed| == |native|
      invariant ds == Gather(native, parse, copyDisabled)[..k]
      invariant forall j :: 0 <= j < k ==> renamed[j] == RenameTop(native, parse)[j]
      invariant forall j :: k <= j < |native| ==> renamed[j] == native[j]
    {
      match native[k] {
        case BOpt(e) =>
          ds := ds + [OptionDesc(e, parse, copyDisabled)];
          renamed := renamed[k := BOpt(e.(text := NameOf(e.text, parse)))];
        case BGroup(l, es) =>
          ds := ds + [GroupDesc(l, GatherGroup(es, parse, copyDisabled))];
      }
      k := k + 1;
    }
    assert ds == Gather(native, parse, copyDisabled);
    assert renamed == RenameTop(native, parse);
  }

  /**
   * Checkbox mode of `_updatePlaceholderText`: the labels collected by the
   * loop, replaced by the count when they are not all of the values or
   * their text overflows, and whether there was any to list
   * (jquery.richselect.js:924-951, 954-972).
   */
  method ListSelection(vals: seq<string>, es: seq<Entry>, maxOpts: int, overflows: string -> bool)
    returns (shown: Shown, any: bool)
    ensures shown == CheckboxSummary(vals, es, maxOpts, overflows)
    ensures any <==> vals != []
  {
    var selOpts := CollectLabels(vals, es, maxOpts);
    any := selOpts != [];
    if selOpts == [] {
      shown := Placeholder;
    } else if overflows(Join(selOpts, ", ")) || |selOpts| != |vals| {
      shown := Count(|vals|);
    } else {
      shown := Listed(selOpts);
    }
  }

  class MultiSelect {
    const cfg: Config
    const mode: Mode
    const counter: OptCounter
    /** The native select's text parser `$(html).text()`; `None` when it throws. */
    const parse: string -> Option<string>
    /** Whether a text is wider than the placeholder button. */
    const overflows: string -> bool

    var items: seq<Item>
    var backing: seq<BItem>
    var updateSelectAll: bool
    var updatePlaceholder: bool
    /** The text of the global select-all link, present when `cfg.selectAll`. */
    var globalLinkText: string
    /** The text of the placeholder button and its `rs-has-selections` class. */
    var placeholderText: string
    var hasSelections: bool
    /** The search box's `lastsearch` data, unset until the first search. */
    var lastSearch: Option<string>

    /** Every option id is distinct and below the page counter. */
    ghost predicate Valid()
      reads this`items, counter
    {
      IdsFresh(Options(items), counter.next)
    }

    /** The placeholder once `_updatePlaceholderText` has run, given its texts before. */
    predicate PlaceholderAfter(prevText: string, prevHas: bool)
      reads this`updatePlaceholder, this`backing, this`placeholderText, this`hasSelections
    {
      if updatePlaceholder then
        && placeholderText == Render(Summarize(mode, Entries(backing), cfg.maxPlaceholderOpts, overflows), cfg.texts)
        && hasSelections == HasSelections(mode, Entries(backing))
      else placeholderText == prevText && hasSelections == prevHas
    }

    /** The state `MultiSelect` sets before `load` (jquery.richselect.js:103-126, 178-179). */
    constructor (cfg: Config, multiple: bool, native: seq<BItem>, counter: OptCounter,
                 parse: string -> Option<string>, overflows: string -> bool)
      ensures this.cfg == cfg && mode == (if multiple then Checkbox else Radio)
      ensures this.counter == counter && this.parse == parse && this.overflows == overflows
      ensures items == [] && backing == native && updateSelectAll && updatePlaceholder
      ensures globalLinkText == cfg.texts.selectAll && placeholderText == "None Selected"
      ensures !hasSelections && lastSearch == None
    {
      this.cfg := cfg;
      mode := if multiple then Checkbox else Radio;
      this.counter := counter;
      this.parse := parse;
      this.overflows := overflows;
      items := [];
      backing := native;
      updateSelectAll := true;
      updatePlaceholder := true;
      globalLinkText := cfg.texts.selectAll;
      placeholderText := "None Selected";
      hasSelections := false;
      lastSearch := None;
    }

    /**
     * `new MultiSelect(element, options)`: refused when search is on with
     * neither field searched; otherwise the instance, loaded from the native
     * select (jquery.richselect.js:103-155).
     */
    static method Create(cfg: Config, multiple: bool, native: seq<BItem>, counter: OptCounter,
                         parse: string -> Option<string>, overflows: string -> bool)
      returns (r: Result<MultiSelect, string>)
      modifies counter
      ensures r.Failure? <==> SearchMisconfigured(cfg)
      ensures r.Failure? ==> r.error == SearchFieldError && counter.next == old(counter.next)
      ensures r.Success? ==>
                && fresh(r.value) && r.value.Valid()
                && r.value.cfg == cfg && r.value.counter == counter
                && r.value.mode == (if multiple then Checkbox else Radio)
                && r.value.backing == RenameTop(native, parse)
                && |r.value.items| == |native|
                && ReflectsAll(Options(r.value.items), Entries(native), parse, cfg.copyDisabled)
    {
      if SearchMisconfigured(cfg) {
        return Failure(SearchFieldError);
      }
      var w := new MultiSelect(cfg, multiple, native, counter, parse, overflows);
      w.Load();
      r := Success(w);
    }

    /**
     * `load`: gathers an entry per child of the native select, renames its
     * top-level options to their display names, and loads the entries over
     * the list without writing to the select (jquery.richselect.js:450-529).
     */
    method Load()
      requires Valid()
      modifies this`items, this`backing, counter, this`globalLinkText, this`placeholderText, this`hasSelections
      ensures Valid() && counter.next == old(counter.next) + |Entries(old(backing))|
      ensures backing == RenameTop(old(backing), parse)
      ensures |items| == |old(backing)|
      ensures ReflectsAll(Options(items), Entries(old(backing)), parse, cfg.copyDisabled)
      ensures MadeFromChildren(items, old(backing), parse, cfg.copyDisabled)
      ensures updateSelectAll ==> forall i :: 0 <= i < |items| && items[i].Group? && items[i].hasLink ==>
                items[i].linkText == LinkText(items[i].members, cfg.texts)
      ensures globalLinkText == GlobalLinkAfter(updateSelectAll, cfg, items, old(globalLinkText))
      ensures PlaceholderAfter(old(placeholderText), old(hasSelections))
    {
      var native := backing;
      ghost var items0 := items;
      ghost var next0 := counter.next;
      var ds, renamed := GatherChildren(native, parse, cfg.copyDisabled);
      LoadKeepsIdsFresh(items0, renamed, next0, ds, true, false, cfg);
      backing := renamed;
      LoadOptions(ds, Some(true), Some(false));
      GatherRoundTrip(native, items0, renamed, next0, parse, cfg.copyDisabled, cfg);
      ghost var t := Fold(Start(items0, renamed, next0, true, false), ds, cfg, false);
      assert Loaded(t) == t.pending;
      RelabelKeepsOptions(Loaded(t), cfg.texts);
      RelinkedKeepsMadeFrom(updateSelectAll, Loaded(t), native, parse, cfg.copyDisabled, cfg.texts);
    }

    /** `_addOption`: the option for `d`, numbered by the page counter, which then advances (jquery.richselect.js:976-1053). */
    method AddOption(d: Desc) returns (o: Opt)
      modifies counter
      ensures o == MakeOpt(d, old(counter.next)) && counter.next == old(counter.next) + 1
    {
      o := MakeOpt(d, counter.next);
      counter.next := counter.next + 1;
    }

    /** The loop over a group entry's children: valued ones become options, the rest are skipped (jquery.richselect.js:689-727). */
    method AddGroupOptions(cs: seq<Desc>) returns (os: seq<Opt>, es: seq<Entry>)
      modifies counter
      ensures os == MakeOpts(Valued(cs), old(counter.next)) && es == MakeEntries(Valued(cs))
      ensures counter.next == old(counter.next) + |Valued(cs)|
    {
      os, es := [], [];
      var k := 0;
      while k < |cs|
        invariant 0 <= k <= |cs|
        invariant os == MakeOpts(Valued(cs[..k]), old(counter.next)) && es == MakeEntries(Valued(cs[..k]))
        invariant counter.next == old(counter.next) + |Valued(cs[..k])|
      {
        assert cs[..k + 1][..k] == cs[..k];
        if cs[k].value.Some? {
          MakeOptsSnoc(Valued(cs[..k]), cs[k], old(counter.next));
          MakeEntriesSnoc(Valued(cs[..k]), cs[k]);
          var o := AddOption(cs[k]);
          os := os + [o];
          es := es + [MakeEntry(cs[k])];
        }
        k := k + 1;
      }
      assert cs[..k] == cs;
    }

    /**
     * `loadOptions(options, overwrite, updateSelect)`: a flag that is not a
     * boolean (`None`) counts as `true`; the list and the native select
     * become what `Fold` computes, the counter advances by the options
     * added, and the texts are recomputed (jquery.richselect.js:599-818).
     */
    method LoadOptions(ds: seq<Desc>, overwrite: Option<bool>, updateSelect: Option<bool>)
      requires Valid()
      modifies this`items, this`backing, counter, this`globalLinkText, this`placeholderText, this`hasSelections
      ensures Valid() && old(counter.next) <= counter.next
      ensures var ow, us := overwrite.GetOr(true), updateSelect.GetOr(true);
              var t := Fold(Start(old(items), old(backing), old(counter.next), ow, us), ds, cfg, us);
              && backing == t.backing && counter.next == t.next
              && items == Relinked(updateSelectAll, Loaded(t), cfg.texts)
              && globalLinkText == GlobalLinkAfter(updateSelectAll, cfg, Loaded(t), old(globalLinkText))
      ensures PlaceholderAfter(old(placeholderText), old(hasSelections))
    {
      var ow, us := overwrite.GetOr(true), updateSelect.GetOr(true);
      ghost var t := Fold(Start(items, backing, counter.next, ow, us), ds, cfg, us);
      Fill(ds, ow, us);
      ghost var loaded := items;
      assert loaded == Loaded(t);
      UpdatePlaceholderText();
      UpdateSelectAllText();
      assert items == Relinked(updateSelectAll, loaded, cfg.texts);
    }

    /**
     * The loop of `loadOptions` and the final append of the new containers:
     * the list and the native select become what `Fold` computes.
     */
    method Fill(ds: seq<Desc>, overwrite: bool, updateSelect: bool)
      requires Valid()
      modifies this`items, this`backing, counter
      ensures Valid() && old(counter.next) <= counter.next
      ensures var t := Fold(Start(old(items), old(backing), old(counter.next), overwrite, updateSelect), ds, cfg, updateSelect);
              && backing == t.backing && counter.next == t.next && items == Loaded(t)
    {
      LoadKeepsIdsFresh(items, backing, counter.next, ds, overwrite, updateSelect, cfg);
      var attached, pending, b := FoldEntries(Start(items, backing, counter.next, overwrite, updateSelect), ds, updateSelect);
      items := attached + pending;
      backing := b;
    }

    /** The `for…in` loop of `loadOptions` over `ds`, from the progress `s0` (jquery.richselect.js:616-738). */
    method FoldEntries(s0: LoadState, ds: seq<Desc>, updateSelect: bool)
      returns (attached: seq<Item>, pending: seq<Item>, b: seq<BItem>)
      requires s0.next == counter.next
      modifies counter
      ensures LoadState(attached, pending, b, counter.next) == Fold(s0, ds, cfg, updateSelect)
    {
      attached, pending, b := s0.attached, s0.pending, s0.backing;
      var i := 0;
      while i < |ds|
        invariant 0 <= i <= |ds|
        invariant LoadState(attached, pending, b, counter.next) == Fold(s0, ds[..i], cfg, updateSelect)
      {
        assert ds[..i + 1][..i] == ds[..i];
        attached, pending, b := LoadEntry(attached, pending, b, ds[i], updateSelect);
        i := i + 1;
      }
      assert ds[..i] == ds;
    }

    /** One entry of `options`, applied to the list, the new containers and the native select (jquery.richselect.js:617-737). */
    method LoadEntry(attached: seq<Item>, pending: seq<Item>, b: seq<BItem>, d: Desc, updateSelect: bool)
      returns (attached': seq<Item>, pending': seq<Item>, b': seq<BItem>)
      modifies counter
      ensures LoadState(attached', pending', b', counter.next)
           == Step(LoadState(attached, pending, b, old(counter.next)), d, cfg, updateSelect)
    {
      if d.value.Some? {
        var o := AddOption(d);
        attached', pending' := attached, pending + [Single(o)];
        b' := if updateSelect then b + [BOpt(MakeEntry(d))] else b;
      } else if d.options.Some? {
        attached', pending', b' := LoadGroup(attached, pending, b, d.groupLabel, d.options.value, updateSelect);
      } else {
        attached', pending', b' := attached, pending, b;
      }
    }

    /**
     * A group entry labelled `l` with children `cs`: it joins the last group
     * of that label already in the list, or becomes a new container; its
     * valued children go into every optgroup of that label in the native
     * select, or into a new one (jquery.richselect.js:652-728).
     */
    method LoadGroup(attached: seq<Item>, pending: seq<Item>, b: seq<BItem>, l: string, cs: seq<Desc>, updateSelect: bool)
      returns (attached': seq<Item>, pending': seq<Item>, b': seq<BItem>)
      modifies counter
      ensures LoadState(attached', pending', b', counter.next)
           == Step(LoadState(attached, pending, b, old(counter.next)), GroupDesc(l, cs), cfg, updateSelect)
    {
      var found := FindLastGroup(attached, l);
      var os, es := AddGroupOptions(cs);
      b' := if updateSelect then AddToGroups(b, l, es) else b;
      match found {
        case Some(g) =>
          attached', pending' := attached[g := attached[g].(members := attached[g].members + os)], pending;
        case None =>
          attached', pending' := attached, pending + [Group(l, os, cfg.selectGroup, cfg.texts.selectAll, true)];
      }
    }

    /**
     * The search box once its timer fires with text `input`: the same text
     * as the last search changes nothing; otherwise options are hidden by
     * the normalised query, groups follow their options unless
     * `showOptGroups`, and the links are relabelled (jquery.richselect.js:341-385).
     */
    method Search(input: string)
      requires Valid()
      modifies this`items, this`globalLinkText, this`lastSearch
      ensures Valid() && lastSearch == Some(input)
      ensures old(lastSearch) == Some(input) ==> items == old(items) && globalLinkText == old(globalLinkText)
      ensures old(lastSearch) != Some(input) ==>
                var f := FilterItems(old(items), NormalizeQuery(input), cfg.searchText, cfg.searchValue, cfg.showOptGroups);
                && items == Relinked(updateSelectAll, f, cfg.texts)
                && globalLinkText == GlobalLinkAfter(updateSelectAll, cfg, f, old(globalLinkText))
    {
      if lastSearch == Some(input) {
        return;
      }
      lastSearch := Some(input);
      var q := NormalizeQuery(input);
      FilterKeepsFresh(items, q, cfg.searchText, cfg.searchValue, cfg.showOptGroups, counter.next);
      items := FilterItems(items, q, cfg.searchText, cfg.searchValue, cfg.showOptGroups);
      UpdateSelectAllText();
    }

    /** A select-all link exists where `scope` says: the global one when enabled, a group's when it has one. */
    predicate LinkAt(scope: Scope)
      reads this`items
    {
      match scope
      case Global => cfg.selectAll
      case InGroup(g) => g < |items| && items[g].Group? && items[g].hasLink
    }

    /**
     * A click on the select-all link of `scope`: both flags are cleared for
     * the action, the options in scope are marked by the two-branch rule,
     * the native select takes the values of every option marked selected
     * (returned as the count `onSelectAll` receives), and the texts are
     * recomputed once at the end (jquery.richselect.js:395-446).
     */
    method SelectAllClick(scope: Scope) returns (count: nat)
      requires Valid() && LinkAt(scope)
      modifies this`items, this`backing, this`updateSelectAll, this`updatePlaceholder
      modifies this`globalLinkText, this`placeholderText, this`hasSelections
      ensures Valid() && updateSelectAll && updatePlaceholder
      ensures var after := BulkItems(old(items), scope);
              && count == |BulkValues(after)|
              && backing == Restamp(SetVals(BulkValues(after)), old(backing))
              && items == Relabel(after, cfg.texts)
              && globalLinkText == (if cfg.selectAll then LinkText(Options(after), cfg.texts) else old(globalLinkText))
      ensures PlaceholderAfter(old(placeholderText), old(hasSelections))
    {
      updateSelectAll, updatePlaceholder := false, false;
      count := MarkAndWrite(scope);
      Resume();
    }

    /**
     * The end of a bulk action: both flags set again, then the links and
     * the placeholder recomputed once (jquery.richselect.js:437-446).
     */
    method Resume()
      requires Valid()
      modifies this`items, this`updateSelectAll, this`updatePlaceholder
      modifies this`globalLinkText, this`placeholderText, this`hasSelections
      ensures Valid() && updateSelectAll && updatePlaceholder
      ensures items == Relabel(old(items), cfg.texts)
      ensures globalLinkText == GlobalLinkAfter(true, cfg, old(items), old(globalLinkText))
      ensures PlaceholderAfter(old(placeholderText), old(hasSelections))
    {
      updateSelectAll, updatePlaceholder := true, true;
      UpdateSelectAllText();
      UpdatePlaceholderText();
    }

    /**
     * The body of the select-all handler between the flag changes: the
     * options in scope are marked, and the native select takes the values
     * of every option marked selected, whose number is returned
     * (jquery.richselect.js:401-435).
     */
    method MarkAndWrite(scope: Scope) returns (count: nat)
      requires Valid() && ScopeOk(items, scope)
      modifies this`items, this`backing
      ensures Valid()
      ensures var after := BulkItems(old(items), scope);
              && items == after && count == |BulkValues(after)|
              && backing == Restamp(SetVals(BulkValues(after)), old(backing))
    {
      BulkKeepsFresh(items, scope, counter.next);
      var after := BulkItems(items, scope);
      var vals := CollectValues(Options(after));
      items := after;
      backing := Restamp(SetVals(vals), backing);
      count := |vals|;
    }

    /**
     * A click on the input of option `r`: a disabled input takes none;
     * otherwise the list and the native select change as the click rules
     * say and the texts are recomputed (jquery.richselect.js:532-555).
     */
    method OptionClick(r: OptRef)
      requires Valid() && RefOk(items, r)
      modifies this`items, this`backing, this`globalLinkText, this`placeholderText, this`hasSelections
      ensures Valid()
      ensures At(old(items), r).disabled ==>
                && items == old(items) && backing == old(backing)
                && globalLinkText == old(globalLinkText)
                && placeholderText == old(placeholderText) && hasSelections == old(hasSelections)
      ensures !At(old(items), r).disabled ==>
                var clicked := ClickItems(old(items), r, mode);
                && backing == ClickWrite(old(items), r, mode, old(backing))
                && items == Relinked(updateSelectAll, clicked, cfg.texts)
                && globalLinkText == GlobalLinkAfter(updateSelectAll, cfg, clicked, old(globalLinkText))
                && PlaceholderAfter(old(placeholderText), old(hasSelections))
    {
      if At(items, r).disabled {
        return;
      }
      ClickKeepsFresh(items, r, mode, counter.next);
      backing := ClickWrite(items, r, mode, backing);
      items := ClickItems(items, r, mode);
      UpdateSelectAllText();
      UpdatePlaceholderText();
    }

    /**
     * `_updateSelectAllText`: while `updateSelectAll` is set, every link
     * reads `selectAll` when its options include a visible unselected one,
     * else `unselectAll`; otherwise nothing changes (jquery.richselect.js:868-890).
     */
    method UpdateSelectAllText()
      requires Valid()
      modifies this`items, this`globalLinkText
      ensures Valid()
      ensures items == Relinked(updateSelectAll, old(items), cfg.texts)
      ensures globalLinkText == GlobalLinkAfter(updateSelectAll, cfg, old(items), old(globalLinkText))
    {
      if !updateSelectAll {
        return;
      }
      if cfg.selectAll {
        globalLinkText := LinkText(Options(items), cfg.texts);
      }
      var ls := items;
      var k := 0;
      while k < |ls|
        invariant 0 <= k <= |ls| && |ls| == |items|
        invariant forall j :: 0 <= j < k ==> ls[j] == Relabel(items, cfg.texts)[j]
        invariant forall j :: k <= j < |ls| ==> ls[j] == items[j]
      {
        if ls[k].Group? && ls[k].hasLink {
          ls := ls[k := ls[k].(linkText := LinkText(ls[k].members, cfg.texts))];
        }
        k := k + 1;
      }
      assert ls == Relabel(items, cfg.texts);
      RelabelKeepsFresh(items, cfg.texts, counter.next);
      items := ls;
    }

    /**
     * `_updatePlaceholderText`: while `updatePlaceholder` is set, the
     * button shows the summary of the native select's selection and the
     * widget carries `rs-has-selections` when there is one to list
     * (jquery.richselect.js:894-972).
     */
    method UpdatePlaceholderText()
      modifies this`placeholderText, this`hasSelections
      ensures PlaceholderAfter(old(placeholderText), old(hasSelections))
    {
      if !updatePlaceholder {
        return;
      }
      var es := Entries(backing);
      var shown: Shown;
      if mode == Radio {
        shown := RadioSummary(es);
        hasSelections := true;
      } else {
        var any;
        shown, any := ListSelection(CheckboxVals(es), es, cfg.maxPlaceholderOpts, overflows);
        hasSelections := any;
      }
      placeholderText := Render(shown, cfg.texts);
    }
  }

  lemma RelabelKeepsFresh(x: seq<Item>, texts: Texts, next: nat)
    requires IdsFresh(Options(x), next)
    ensures IdsFresh(Options(Relabel(x, texts)), next)
  {
    RelabelKeepsOptions(x, texts);
  }

  lemma FilterKeepsFresh(x: seq<Item>, q: string, st: bool, sv: bool, showOptGroups: bool, next: nat)
    requires IdsFresh(Options(x), next)
    ensures IdsFresh(Options(FilterItems(x, q, st, sv, showOptGroups)), next)
  {
    FilterHiddenIff(x, q, st, sv, showOptGroups);
    IdsFreshKept(Options(x), Options(FilterItems(x, q, st, sv, showOptGroups)), next);
  }

  lemma BulkKeepsFresh(x: seq<Item>, scope: Scope, next: nat)
    requires ScopeOk(x, scope) && IdsFresh(Options(x), next)
    ensures IdsFresh(Options(BulkItems(x, scope)), next)
  {
    BulkOnlyMarks(x, scope);
    IdsFreshKept(Options(x), Options(BulkItems(x, scope)), next);
  }

  lemma ClickKeepsFresh(x: seq<Item>, r: OptRef, mode: Mode, next: nat)
    requires RefOk(x, r) && !At(x, r).disabled && IdsFresh(Options(x), next)
    ensures IdsFresh(Options(ClickItems(x, r, mode)), next)
  {
    if mode == Checkbox {
      CheckboxClickEffect(x, r);
    } else {
      RadioClickEffect(x, r);
    }
    IdsFreshKept(Options(x), Options(ClickItems(x, r, mode)), next);
  }
}
