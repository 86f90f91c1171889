# richselect selection engine, in Dafny

`jquery.richselect.js` replaces a native `<select>` with a list of
checkboxes (a multiple select) or radio buttons (a single select). Options
can be grouped, searched, and bulk-selected through select-all links. A
placeholder button summarises the selection. This project models the state
behind that widget, without the DOM. It covers:

- the option list: top-level options and groups of options, each option
  carrying its `selected` mark, its ticked input, `rs-hidden` and `disabled`;
- the native select it mirrors: options and optgroups with their `selected`
  flags;
- the page-wide option counter `rsOptCounter`, which numbers every option
  ever added;
- the operations that change this state: building an instance and `load`,
  `loadOptions`, a click on an option's input, a click on a select-all
  link, the search box, `_updateSelectAllText` and
  `_updatePlaceholderText`.

Pure computations are Dafny functions with lemmas about them:

| module | what it holds |
|---|---|
| `Text` | lower-casing, `$.trim`, global pair replacement, joining, decimal numbers |
| `Markup` | the `{#`/`#}` label markup and the display name |
| `SearchTerms` | an option's `data-search-term` and the normalised query |
| `Model` | the data model, and writes to the native select's `selected` flags |
| `Toggle` | a click on one option |
| `Bulk` | the select-all links |
| `Filter` | the search |
| `Summary` | the placeholder text |
| `Load` | the `loadOptions` fold and `load`'s gathering of the native select |

The widget itself is the class `Widget.MultiSelect`. Its methods update
its fields in place and are proved against those functions. The
page-wide counter is the class `Widget.OptCounter`, shared by every instance.

Things the model takes as parameters rather than computes:

- `parse`: what jQuery's `$(html).text()` gives for an option label, or
  `None` when it throws.
- `overflows`: whether a text is wider than the placeholder button.

In radio mode the placeholder code counts the characters of the selected
value instead of the values. This is logged under Findings, and the widget
uses the corrected count.

## Model

| member | source | states |
|---|---|---|
| Text.Lower | jquery.richselect.js:363 | lower-casing keeps the length, turns each capital into the same letter in lower case, leaves no capital letter and keeps every other character |
| Text.Trim | jquery.richselect.js:363 | the result has no leading or trailing JavaScript whitespace and is the input with its leading and trailing whitespace removed |
| Text.TrimKeepsInfix | jquery.richselect.js:1050 | a non-empty query with no whitespace at its ends, found in a string, is still found after the string is trimmed |
| Text.InfixOfTrim | jquery.richselect.js:1050 | a query found in the trimmed string was found in the string itself |
| Text.ReplacePair | jquery.richselect.js:502 | a global replacement of a two-character sequence leaves none of it and never lengthens the text |
| Text.ReplacePairExpand | jquery.richselect.js:502 | in a text without the pair, writing every replacement character as the pair and replacing again gives the text back: each pair becomes one replacement character and everything else is kept in order |
| Text.ReplacePairKeepsAbsent | jquery.richselect.js:502 | replacing `{#` cannot create a `#}` that was not there |
| Text.ReplacePairIdentity | jquery.richselect.js:502 | a text without the sequence is left as it is |
| Text.Join | jquery.richselect.js:943 | joining nothing gives the empty text; a joined list starts with its first label and ends with its last |
| Text.JoinAppend | jquery.richselect.js:943 | joining two non-empty lists is joining each with one separator between them, so every label appears in order with the separator between neighbours |
| Text.NatToString | jquery.richselect.js:971 | a count is written as a non-empty string of decimal digits with no leading zero |
| Text.NatToStringRoundTrip | jquery.richselect.js:971 | reading the written count back gives the count |
| Markup.Unescape | jquery.richselect.js:502 | after unescaping, no `{#` or `#}` sentinel remains, and the label is not longer |
| Markup.UnescapeIdentity | jquery.richselect.js:502 | a label without sentinels is kept as written |
| Markup.UnescapeEscape | jquery.richselect.js:502 | markup written with `{#` for `<` and `#}` for `>` unescapes to the markup itself, for any markup that uses neither `{` nor `#` |
| Markup.DisplayName | jquery.richselect.js:503-513 | a parse that throws or gives empty text falls back to the unescaped html; otherwise the parsed text is the name; the name is empty only for empty html |
| Markup.NameOf | jquery.richselect.js:502-513 | only an empty label gives an empty name |
| SearchTerms.SearchTerm | jquery.richselect.js:1042-1050 | the search term is trimmed and lower-case, and empty when neither text nor value is searched |
| SearchTerms.NormalizeQuery | jquery.richselect.js:363 | the query is the input's run between its leading and trailing whitespace, lower-cased character by character; it has no whitespace ends and no capital |
| SearchTerms.QueryInNameMatches | jquery.richselect.js:365-366 | with text search on, a query found in the lower-cased name keeps the option visible |
| SearchTerms.QueryInValueMatches | jquery.richselect.js:365-366 | with value search on, a query found in the lower-cased value keeps the option visible |
| SearchTerms.MatchComesFromFields | jquery.richselect.js:1042-1050 | a query found in the search term is found in the searched name and value fields |
| Model.LastIndexOfIsLast | jquery.richselect.js:545-547 | the entry found carrying a value is the last such, and one is found whenever the value occurs |
| Model.RestampAt | jquery.richselect.js:435 | a write to the native select keeps its entries and changes only each entry's `selected` flag as the write says |
| Toggle.ClickItems | jquery.richselect.js:532-541 | a disabled input takes no click: the list is unchanged |
| Toggle.CheckboxClickEffect | jquery.richselect.js:532-533 | a checkbox click flips the clicked option's mark and box and changes no other option |
| Toggle.CheckboxClickTwice | jquery.richselect.js:532-533 | two clicks on one checkbox restore the list |
| Toggle.RadioClickEffect | jquery.richselect.js:532-541 | after a radio click exactly the clicked option is checked; its mark toggles and every other mark is kept |
| Toggle.CheckboxWriteEffect | jquery.richselect.js:545-547 | in a multiple select every entry carrying the clicked value takes the box's new state, and no other entry changes |
| Toggle.RadioWriteSelectsValue | jquery.richselect.js:545-547 | in a single select holding the clicked value, the select's value becomes exactly that value |
| Bulk.BulkItems | jquery.richselect.js:403-429 | a group's link changes only that group's options |
| Bulk.BulkEffect | jquery.richselect.js:403-429 | if a visible option in scope was unselected, every visible one ends selected, otherwise every visible one ends unselected; hidden marks and disabled boxes are untouched; other visible boxes follow their mark |
| Bulk.BulkOnlyMarks | jquery.richselect.js:403-429 | a select-all click changes only marks and boxes, over the whole list |
| Bulk.BulkAlternates | jquery.richselect.js:885-888 | after a click that selected, the link reads unselect-all; after one that unselected a scope with a visible option, it reads select-all |
| Bulk.InSelectedOptValues | jquery.richselect.js:432-434 | a value is collected if and only if some option carrying it is marked selected |
| Bulk.BulkWriteMirrors | jquery.richselect.js:431-435 | writing the collected values into a mirroring select makes each entry's flag follow its option's mark |
| Bulk.BulkWriteSelects | jquery.richselect.js:431-435 | when the native select mirrors the list position by position and its values are distinct, after a click and the write the select's value list is exactly the values of the options then marked selected, in order |
| Bulk.Relabel | jquery.richselect.js:884-890 | each group link reads what its group's next click does; nothing else changes |
| Bulk.RelabelKeepsOptions | jquery.richselect.js:884-890 | relabelling the links keeps every option |
| Filter.ShowGroups | jquery.richselect.js:374-382 | showing and hiding groups keeps every group's options |
| Filter.FilterHiddenIff | jquery.richselect.js:363-370 | an option is hidden if and only if the query is non-empty and not in its search term; nothing else about it changes |
| Filter.FilterGroups | jquery.richselect.js:372-382 | without `showOptGroups` a group is shown if and only if one of its options matches; with it, groups keep their state |
| Filter.EmptyQueryShowsAll | jquery.richselect.js:368-370 | clearing the search shows every option |
| Summary.CheckboxValsAreSelected | jquery.richselect.js:907-913 | with or without a selected disabled entry, the values summarised are all selected values, in order |
| Summary.LabelOfUnique | jquery.richselect.js:934 | the label of a value carried by one entry is that entry's trimmed text |
| Summary.ListedCount | jquery.richselect.js:926-940 | the label loop collects at least one label when there is a value, never more than there are, and fewer only once the cap is reached |
| Summary.CollectLabels | jquery.richselect.js:926-940 | the loop returns the labels of the first values, as many as `ListedCount` allows |
| Summary.CheckboxSummaryShape | jquery.richselect.js:954-972 | the placeholder shows if and only if nothing is selected; more values than the cap give the count; otherwise all labels unless they overflow |
| Summary.FirstSelected | jquery.richselect.js:901 | the single select's value is taken from its first selected entry, if any |
| Summary.RadioCountIsLength | jquery.richselect.js:957-968 | the as-written radio summary shows "3 selected" for one selected option with value `abc` and empty text |
| Summary.RadioCountBounded | jquery.richselect.js:957-968 | the corrected radio summary never shows the placeholder; any count it shows is at most the number of selected options, and at most one when no selected option is disabled |
| Summary.RadioCountFixed | jquery.richselect.js:957-968 | with one enabled option selected whose value is not empty, the corrected summary shows its label or, when that is blank, a count of 1, where the summary as written shows the value's number of characters |
| Load.Valued | jquery.richselect.js:702-705 | the children kept from a group entry all carry a value |
| Load.ValuedMembers | jquery.richselect.js:702-705 | a group entry's child is kept if and only if it carries a value |
| Load.LastGroupWith | jquery.richselect.js:656-661 | a group found for a label carries that label |
| Load.LastGroupWithIsLast | jquery.richselect.js:656-661 | the group found is the last with the label, and one is found whenever one exists |
| Load.OptionEntryAdds | jquery.richselect.js:628-650 | an entry with a value adds one option at the end: visible, numbered by the counter, selected and ticked exactly when `checked`; with `updateSelect` the native select gains the matching entry, otherwise it is unchanged |
| Load.MalformedSkipped | jquery.richselect.js:729-732 | an entry with neither a value nor children changes nothing |
| Load.StepJoinEffect | jquery.richselect.js:652-709 | a group entry whose label is in the list changes only the last such group: its options grow by the entry's valued children, which land right after that group's old options, and the number of groups with the label stays the same |
| Load.StepNewEffect | jquery.richselect.js:673-687 | a group entry with a new label appends one group holding its valued children: the list's options grow at the end and there is one more group with the label |
| Load.LoadKeepsIdsFresh | jquery.richselect.js:617-738 | loading keeps option ids distinct and below the counter, and the counter advances by the number of options added |
| Load.FoldLoadedWithoutSelect | jquery.richselect.js:608-738 | the list `loadOptions` builds, and the ids it hands out, are the same whatever the native select holds and whether `updateSelect` is set |
| Load.OverwriteDropsOld | jquery.richselect.js:608-614 | with `overwrite`, every option afterwards is new; with `updateSelect` too, the outcome is that of loading into an empty list and an empty select; without it, the select is left exactly as it was |
| Load.NoMergeWithinCall | jquery.richselect.js:652-738 | two group entries with one label in one call give two groups in the list but one optgroup in the native select |
| Load.MergeAcrossCalls | jquery.richselect.js:656-661 | a group entry in a later call joins the group of that label made by an earlier call |
| Load.OptionDesc | jquery.richselect.js:492-522 | a native option is described by its value, its selected flag, its unescaped label and its display name |
| Load.GatherGroup | jquery.richselect.js:453-490 | a native optgroup is described child by child |
| Load.GatherRoundTrip | jquery.richselect.js:450-529 | loading what `load` gathers gives one list entry per child of the select: an option for an option, a group with the same label for an optgroup, each mirroring that child's options; all options mirror the select's in order, and the select is left as it was |
| Widget.FindLastGroup | jquery.richselect.js:656-661 | the loop finds the group `LastGroupWith` specifies |
| Widget.CollectValues | jquery.richselect.js:431-434 | the loop collects the values of the selected options in order |
| Widget.GatherChildren | jquery.richselect.js:451-528 | the loop gathers one entry per child and renames each top-level native option to its display name |
| Widget.ListSelection | jquery.richselect.js:924-972 | checkbox mode shows the checkbox summary and reports a selection if and only if there is a value |
| Widget.OptCounter.constructor | jquery.richselect.js:85 | the page counter starts at 1 |
| Widget.MultiSelect.constructor | jquery.richselect.js:103-126 | a new instance has an empty list, both update flags set, and the mode set by `multiple` |
| Widget.MultiSelect.Create | jquery.richselect.js:103-155 | search with neither field searched is refused with the plugin's message and consumes no id; otherwise the loaded instance mirrors the native select |
| Widget.MultiSelect.Load | jquery.richselect.js:450-529 | `load` renames the top-level native options and builds one list entry per child, of the same kind and label, whose options mirror the select's; the counter advances by the number of options; group links, the global link and the placeholder are recomputed |
| Widget.MultiSelect.AddOption | jquery.richselect.js:976-1053 | an option is numbered by the counter, which then advances by one |
| Widget.MultiSelect.AddGroupOptions | jquery.richselect.js:689-727 | a group's valued children become options numbered in order; the counter advances by their number |
| Widget.MultiSelect.LoadOptions | jquery.richselect.js:599-818 | a missing flag counts as true; the list and native select become what the fold computes, and the links and placeholder are recomputed |
| Widget.MultiSelect.Fill | jquery.richselect.js:608-738 | the list and native select become what the fold computes from the cleared or kept state, with ids kept fresh |
| Widget.MultiSelect.FoldEntries | jquery.richselect.js:616-737 | the entry loop computes the fold of the entries |
| Widget.MultiSelect.LoadEntry | jquery.richselect.js:617-737 | one entry changes the state as one fold step says |
| Widget.MultiSelect.LoadGroup | jquery.richselect.js:652-728 | a group entry changes the state as one fold step says |
| Widget.MultiSelect.Search | jquery.richselect.js:341-385 | the same text as last time changes nothing; otherwise the list becomes the filtered list and the links are relabelled |
| Widget.MultiSelect.SelectAllClick | jquery.richselect.js:395-446 | a link click marks the scope by the two-branch rule, writes every selected value into the select, returns their number, restores both flags and recomputes the texts once |
| Widget.MultiSelect.Resume | jquery.richselect.js:437-446 | the flags are set again and the links and placeholder recomputed |
| Widget.MultiSelect.MarkAndWrite | jquery.richselect.js:401-435 | the scope is marked and the select takes the values of every option marked selected |
| Widget.MultiSelect.OptionClick | jquery.richselect.js:532-555 | a disabled input changes nothing; otherwise list and select change as the click rules say and the texts are recomputed |
| Widget.MultiSelect.UpdateSelectAllText | jquery.richselect.js:868-890 | while updates are on, every link reads what its next click does; otherwise nothing changes |
| Widget.MultiSelect.UpdatePlaceholderText | jquery.richselect.js:894-972 | while updates are on, the button shows the mode's summary of the native select and carries `rs-has-selections` when there is a selection |

## Left out

- Building and painting the DOM, CSS, column layout and checkbox padding (jquery.richselect.js:740-815) are presentation; option identity lives in the ids and positions of the list.
- Opening and closing the list, focus, scroll isolation, height and the `onControlClose` callback are left out; they are presentation and event plumbing.
- The search box's debounce timer is collapsed into one step, `Widget.MultiSelect.Search`, the timer firing with the box's text. Repeated keystrokes with the same text are the `lastSearch` branch.
- Widget.MultiSelect.Search: it can be called whatever `cfg.search` says, though the widget binds it only when search is on.
- The user callbacks `onLoad`, `onSearch`, `onOptionClick` and `onSelectAll` are left out because they run caller code. The select-all count they would receive is returned.
- Remote option lists are not modelled: `src` and `values` fetched with `getJSON` (jquery.richselect.js:568-589) are network I/O. A caller passes the parsed entries to `LoadOptions`.
- `settings`, `unload`, `reload`, `reset`, `disable`, the plugin's method dispatcher and `_ieVersion` are not part of this model.
- Legacy-browser shims (jquery.richselect.js:87-101) and the backward-compatibility option keys (143-152) are left out.
- The re-entry guard of `load` (no `SELECT`, or already loaded) and the per-list `rsCounter` are left out; they concern the DOM element, not the selection.
- Option attributes other than `disabled` are not modelled. `copyDisabled` says whether `disabled` is among the attributes copied.
- HTML parsing is the parameter `parse`, and text width is the parameter `overflows`.
- The native select's children are only options and optgroups; other children, which `load` skips, are not represented.
- Text.Lower: lower-cases ASCII capitals only, where JavaScript's `toLowerCase` maps all of Unicode.
- Load.OptionDesc: every native option is taken to carry a `value` attribute. An option without one has its text as its value: `load` reads `.val()` (jquery.richselect.js:518) after a top-level option's text became its display name (515), and the model keeps the entry's value instead.
- Toggle.ClickWrite: the write to the native select (jquery.richselect.js:545) finds options through `option[value="…"]`, which matches only options that carry the attribute. The model writes to every entry with the value, so options without a `value` attribute, which the click leaves untouched in the source, are not modelled.
- Summary.LabelOf: the label lookups (jquery.richselect.js:921, 934) use the same attribute selector, so for an option without a `value` attribute they find nothing and the radio summary falls back to `selectVals.length`. The model assumes the attribute is present.
- Load.Step: an option entry without a `name` makes `_addOption` throw at `option.name.toLowerCase()` (jquery.richselect.js:1043, text search being on by default), and a value that is not a string throws at line 1046, leaving the list partly built. Entries here always carry string names and values, so these throws are not modelled.
- Load.MakeEntry: with `updateSelect`, the native option is built from the markup `<option …>name</option>` (jquery.richselect.js:636), so a name holding markup gives the option that markup's text. The model copies the name literally.
- Widget.MultiSelect.UpdatePlaceholderText: in radio mode the widget shows the corrected summary, `Summary.RadioSummary`, not the count of characters written at jquery.richselect.js:962. That line is modelled as written by `Summary.RadioSummaryAsWritten` and compared in the Findings below.
- Values and labels containing `"` or `\` are treated as plain strings. In the source they break the attribute selectors (`option[value="…"]`, `optgroup[label="…"]`, `data-search-term*="…"`).
- Group labels are compared as strings. A label written with markup would read differently in the list's label span.
- Clicking an option's label forwards to its input (jquery.richselect.js:1017-1031). The model treats it as the input click it triggers, which holds for checkboxes and for enabled radios. For a disabled radio it does not hold: the handler first sets the radio's `checked` property (1023), which works on a disabled input and makes the browser untick every other radio of the list's name. The click triggered at 1025 then does nothing. So clicking a disabled radio's label ticks it and unticks the others, without marking or writing to the select. `Toggle.ClickItems` and `Widget.MultiSelect.OptionClick` leave the list unchanged, and the model does not capture that tick.
- The `change` events triggered on the native select are left out.
- The initial placeholder texts (jquery.richselect.js:178, 330-333) are left out, since `load` always overwrites them through `_updatePlaceholderText`. The constructor's "None Selected" is kept only as a starting value.
- `select.val(vals)` is taken to set each entry selected exactly when its value is in `vals`.
- Model.Restamp: in a single select a browser keeps only one option selected after `select.val(vals)`, but the model marks every entry whose value is in `vals`.
- Widget.MultiSelect.LoadOptions: in radio mode, the options that `Load.MakeEntry` builds are appended to a single select (jquery.richselect.js:636-648), where a browser keeps only the last inserted selected option and, when none is selected, selects the first enabled one. The model keeps every checked entry selected, or leaves them all unselected, so the radio summary read afterwards (901, 918-921) can differ: no checked entry gives a count of 0 instead of the first option's label, and two checked entries show the first one's label instead of the last one's.
- Load.Step: in radio mode every input of a list shares the name `rs-list-items<N>` (jquery.richselect.js:1001), and `_addOption` ticks the input of each checked entry (1012). Once such a ticked radio is on the page, whether joined to a group (709) or appended with the new containers (738), the browser unticks every other radio of that name, including one the user had ticked before a load without `overwrite`. The model ticks every checked entry and keeps the earlier ticks, so after a radio-mode load `Load.OptionEntryAdds`, `Load.StepJoinEffect`, `Load.StepNewEffect` and `Widget.MultiSelect.LoadOptions` can describe several ticked radios where the page shows only the last one.
- Bulk.Mark: in radio mode a browser keeps only one button of a name checked, but the model records every tick the select-all click asks for.
- Load.NoMergeWithinCall: a group entry joins only groups that were in the list when the call began (the search at jquery.richselect.js:656-661 runs over the attached list, and new groups are appended only at 734-738), so two entries with one label in one call give two groups.

## Findings

| source | as written | input that shows it | evidently intended | confidence | as-written member | corrected member |
|---|---|---|---|---|---|---|
| jquery.richselect.js:962 | in radio mode, when the selected option's trimmed text is empty, the button shows `selectVals.length` + the selected suffix; `selectVals` is then the selected value as a string, so this is its number of characters | a single select with one option, value `abc`, empty text, selected: the button reads "3 selected" | the number of selected values, 1, as in checkbox mode | not executed; high from reading the code | Summary.RadioCountIsLength | Summary.RadioCountFixed |
