/**
 * The placeholder button's text: the list of selected labels, a count, or
 * the empty-selection placeholder, computed from the native select.
 */
module Summary {
  import opened Wrappers
  import opened Text
  import opened Model

  /** `select.val()` of a multiple select: the values of the selected entries that are enabled. */
  function EnabledSelectedValues(es: seq<Entry>): seq<string> {
    if es == [] then []
    else
      var e := es[|es| - 1];
      EnabledSelectedValues(es[..|es| - 1]) + (if e.selected && !e.disabled then [e.value] else [])
  }

  /** `option:selected:disabled` finds something. */
  predicate HasSelectedDisabled(es: seq<Entry>) {
    exists i | 0 <= i < |es| :: es[i].selected && es[i].disabled
  }

  /** `selectVals` in checkbox mode (jquery.richselect.js:901, 907-913). */
  function CheckboxVals(es: seq<Entry>): seq<string> {
    if HasSelectedDisabled(es) then SelectedValues(es) else EnabledSelectedValues(es)
  }

  lemma {:induction false} EnabledIsSelected(es: seq<Entry>)
    requires !HasSelectedDisabled(es)
    ensures EnabledSelectedValues(es) == SelectedValues(es)
  {
    if es != [] {
      var n := |es| - 1;
      assert !HasSelectedDisabled(es[..n]) by {
        forall i | 0 <= i < n ensures !(es[..n][i].selected && es[..n][i].disabled) {
          assert es[..n][i] == es[i];
        }
      }
      EnabledIsSelected(es[..n]);
    }
  }

  /**
   * Either way the placeholder works from every selected value, disabled
   * ones included: with no selected disabled entry the enabled selected
   * values are all of them.
   */
  lemma CheckboxValsAreSelected(es: seq<Entry>)
    ensures CheckboxVals(es) == SelectedValues(es)
  {
    if !HasSelectedDisabled(es) {
      EnabledIsSelected(es);
    }
  }

  /** The text of every entry whose value is `v`, concatenated in document order. */
  function TextOfValue(es: seq<Entry>, v: string): string {
    if es == [] then []
    else TextOfValue(es[..|es| - 1], v) + (if es[|es| - 1].value == v then es[|es| - 1].text else [])
  }

  /** `$.trim(select.find('option[value="v"]').text())`. */
  function LabelOf(es: seq<Entry>, v: string): string {
    Trim(TextOfValue(es, v))
  }

  lemma {:induction false} TextOfAbsent(es: seq<Entry>, v: string)
    requires forall j :: 0 <= j < |es| ==> es[j].value != v
    ensures TextOfValue(es, v) == []
  {
    if es != [] {
      TextOfAbsent(es[..|es| - 1], v);
    }
  }

  lemma {:induction false} TextOfUnique(es: seq<Entry>, k: nat)
    requires k < |es|
    requires forall j :: 0 <= j < |es| && j != k ==> es[j].value != es[k].value
    ensures TextOfValue(es, es[k].value) == es[k].text
  {
    var n := |es| - 1;
    if k < n {
      TextOfUnique(es[..n], k);
    } else {
      TextOfAbsent(es[..n], es[k].value);
    }
  }

  /** The label of a value carried by one entry only is that entry's trimmed text. */
  lemma LabelOfUnique(es: seq<Entry>, k: nat)
    requires k < |es|
    requires forall j :: 0 <= j < |es| && j != k ==> es[j].value != es[k].value
    ensures LabelOf(es, es[k].value) == Trim(es[k].text)
  {
    TextOfUnique(es, k);
  }

  function LabelsOf(vals: seq<string>, es: seq<Entry>): (ls: seq<string>)
    ensures |ls| == |vals|
  {
    seq(|vals|, i requires 0 <= i < |vals| => LabelOf(es, vals[i]))
  }

  /**
   * How many labels the loop at jquery.richselect.js:924-940 collects from
   * `n` values: at least one when there is any, never more than there are,
   * fewer only once `maxOpts` is reached, and it stops as soon as it is.
   */
  function ListedCount(n: nat, maxOpts: int): (c: nat)
    ensures c <= n
    ensures n > 0 ==> c >= 1
    ensures c < n ==> c >= maxOpts
    ensures c > 1 ==> c - 1 < maxOpts
  {
    if n == 0 then 0
    else if maxOpts <= 1 then 1
    else if n < maxOpts then n
    else maxOpts
  }

  lemma LabelsOfSnoc(vals: seq<string>, es: seq<Entry>, i: nat)
    requires i < |vals|
    ensures LabelsOf(vals[..i + 1], es) == LabelsOf(vals[..i], es) + [LabelOf(es, vals[i])]
  {
  }

  /** The loop collecting labels, stopping once it holds `maxOpts` of them (jquery.richselect.js:924-940). */
  method CollectLabels(vals: seq<string>, es: seq<Entry>, maxOpts: int) returns (selOpts: seq<string>)
    ensures selOpts == LabelsOf(vals[..ListedCount(|vals|, maxOpts)], es)
  {
    selOpts := [];
    var i := 0;
    while i < |vals|
      invariant 0 <= i <= ListedCount(|vals|, maxOpts)
      invariant i > 0 ==> i < maxOpts
      invariant selOpts == LabelsOf(vals[..i], es)
    {
      LabelsOfSnoc(vals, es, i);
      selOpts := selOpts + [LabelOf(es, vals[i])];
      i := i + 1;
      if |selOpts| >= maxOpts {
        break;
      }
    }
  }

  /** What the placeholder shows. */
  datatype Shown = Placeholder | Listed(labels: seq<string>) | Count(n: nat)

  /** The text of the placeholder (jquery.richselect.js:943, 954-972). */
  function Render(s: Shown, texts: Texts): string {
    match s
    case Placeholder => texts.placeholder
    case Listed(ls) => Join(ls, ", ")
    case Count(n) => NatToString(n) + texts.selectedOptions
  }

  /**
   * Checkbox mode: the labels of the selected values, unless they are more
   * than fit the cap or their text overflows the button, then the count.
   * `overflows` stands for the width comparison of the rendered text.
   */
  function CheckboxSummary(vals: seq<string>, es: seq<Entry>, maxOpts: int, overflows: string -> bool): Shown {
    var listed := LabelsOf(vals[..ListedCount(|vals|, maxOpts)], es);
    if listed == [] then Placeholder
    else if overflows(Join(listed, ", ")) || |listed| != |vals| then Count(|vals|)
    else Listed(listed)
  }

  /**
   * The checkbox summary shows the placeholder exactly when nothing is
   * selected, the count of all values when there are more than the cap
   * (and more than one), and otherwise every label unless their text
   * overflows.
   */
  lemma CheckboxSummaryShape(vals: seq<string>, es: seq<Entry>, maxOpts: int, overflows: string -> bool)
    ensures var s := CheckboxSummary(vals, es, maxOpts, overflows);
            && (s == Placeholder <==> vals == [])
            && (s.Count? ==> s.n == |vals|)
            && (s.Listed? ==> s.labels == LabelsOf(vals, es) && !overflows(Join(s.labels, ", ")))
            && (|vals| > 1 && |vals| > maxOpts ==> s == Count(|vals|))
            && ((vals != [] && (|vals| == 1 || |vals| <= maxOpts) && !overflows(Join(LabelsOf(vals, es), ", ")))
                ==> s == Listed(LabelsOf(vals, es)))
  {
    var c := ListedCount(|vals|, maxOpts);
    if c == |vals| {
      assert vals[..c] == vals;
    }
  }

  /** `select.val()` after the disabled override: one string, or a list of values. */
  datatype SelectVals = ValText(s: string) | ValList(vs: seq<string>)

  /** The first selected entry: a single select's `selectedIndex`. */
  function FirstSelected(es: seq<Entry>): (r: Option<nat>)
    ensures r.Some? ==> r.value < |es| && es[r.value].selected
    ensures r.Some? ==> forall j :: 0 <= j < r.value ==> !es[j].selected
    ensures r.None? ==> forall j :: 0 <= j < |es| ==> !es[j].selected
  {
    if es == [] then None
    else if es[0].selected then Some(0)
    else match FirstSelected(es[1..])
      case Some(k) => Some(k + 1)
      case None => None
  }

  /**
   * `selectVals` in radio mode (jquery.richselect.js:901-913): the selected
   * entry's value, none when it is disabled or its value is empty, and all
   * selected values when a selected entry is disabled.
   */
  function RadioVals(es: seq<Entry>): SelectVals {
    if HasSelectedDisabled(es) then ValList(SelectedValues(es))
    else match FirstSelected(es)
      case None => ValList([])
      case Some(k) => if es[k].disabled || es[k].value == [] then ValList([]) else ValText(es[k].value)
  }

  /** The value looked up for the label: a list meets a string joined by commas. */
  function Key(sv: SelectVals): string {
    match sv
    case ValText(s) => s
    case ValList(vs) => Join(vs, ",")
  }

  /** `selectVals.length`, as written: on a single string that is its number of characters. */
  function LengthAsWritten(sv: SelectVals): nat {
    match sv
    case ValText(s) => |s|
    case ValList(vs) => |vs|
  }

  /** The number of selected values `selectVals` holds. */
  function ValueCount(sv: SelectVals): nat {
    match sv
    case ValText(_) => 1
    case ValList(vs) => |vs|
  }

  /** Radio mode as written (jquery.richselect.js:918-922, 957-968). */
  function RadioSummaryAsWritten(es: seq<Entry>): Shown {
    var sv := RadioVals(es);
    var caption := LabelOf(es, Key(sv));
    if caption == [] then Count(LengthAsWritten(sv)) else Listed([caption])
  }

  /** Radio mode with the count taken as a number of values. */
  function RadioSummary(es: seq<Entry>): Shown {
    var sv := RadioVals(es);
    var caption := LabelOf(es, Key(sv));
    if caption == [] then Count(ValueCount(sv)) else Listed([caption])
  }

  /**
   * A selected option whose value is `abc` and whose text is empty makes
   * the placeholder read "3 selected" with one option selected.
   */
  lemma RadioCountIsLength()
    ensures var es := [Entry("abc", "", true, false)];
            && RadioSummaryAsWritten(es) == Count(3)
            && |SelectedValues(es)| == 1
  {
    var es := [Entry("abc", "", true, false)];
    assert es[..0] == [];
    assert !HasSelectedDisabled(es);
    assert FirstSelected(es) == Some(0);
    assert RadioVals(es) == ValText("abc");
    assert TextOfValue(es, "abc") == [];
    TrimEmpty();
    assert LabelOf(es, "abc") == [];
  }

  /**
   * Radio mode never shows the empty-selection placeholder, a count it
   * shows never exceeds the number of selected options, and with a single
   * select's ordinary selection it is at most one.
   */
  lemma RadioCountBounded(es: seq<Entry>)
    ensures RadioSummary(es) != Placeholder
    ensures RadioSummary(es).Count? ==> RadioSummary(es).n <= |SelectedValues(es)|
    ensures RadioSummary(es).Count? && !HasSelectedDisabled(es) && FirstSelected(es).Some? ==>
              RadioSummary(es).n <= 1
  {
    var sv := RadioVals(es);
    if !HasSelectedDisabled(es) && FirstSelected(es).Some? {
      SelectedNonEmpty(es, FirstSelected(es).value);
    }
  }

  /**
   * Where the two readings of line 962 part: with one enabled option
   * selected, whose value is not empty, the corrected summary shows its
   * label or, when that is blank, a count of 1; the summary as written
   * shows the same label or the value's number of characters.
   */
  lemma RadioCountFixed(es: seq<Entry>, k: nat)
    requires FirstSelected(es) == Some(k) && !HasSelectedDisabled(es)
    requires !es[k].disabled && es[k].value != []
    ensures LabelOf(es, es[k].value) == [] ==>
              RadioSummary(es) == Count(1) && RadioSummaryAsWritten(es) == Count(|es[k].value|)
    ensures LabelOf(es, es[k].value) != [] ==>
              RadioSummary(es) == Listed([LabelOf(es, es[k].value)]) == RadioSummaryAsWritten(es)
  {
    assert RadioVals(es) == ValText(es[k].value);
  }

  lemma {:induction false} SelectedNonEmpty(es: seq<Entry>, k: nat)
    requires k < |es| && es[k].selected
    ensures |SelectedValues(es)| >= 1
  {
    var n := |es| - 1;
    if k < n {
      SelectedNonEmpty(es[..n], k);
    }
  }

  /** Whether the widget carries `rs-has-selections` (jquery.richselect.js:946-951). */
  function HasSelections(mode: Mode, es: seq<Entry>): bool {
    mode == Radio || CheckboxVals(es) != []
  }
}
