# A Dafny model of the libyui ncurses algorithms

libyui is a user-interface library; its ncurses front end (`libyui-ncurses`) and the package
selector built on it (`libyui-ncurses-pkg`) contain a number of algorithms and state machines that
do not depend on curses or on libzypp.  This project models those and proves what they are for.
Code that changes state is modelled by classes and loops; each such method is proved to do what a
function on values says, and the promises are proved of that function, for every input or for every
run.  The solver, the user, the arrival of keys and the test whether a string is a date are
parameters.

What the functions on values mean is stated once more beside them, in characters, numbers and
statuses, by lemmas that share no definition with the code (`…Means`, `…Meaning`, `…ByPlace`).

| file | models |
|---|---|
| `Options.dfy` | a value that may be missing |
| `Markup.dfy`, `TextLines.dfy`, `DescriptionHtml.dfy`, `DescriptionLayout.dfy` | `createHtmlText` with `NCtext` and `replace_all` |
| `Ordering.dfy`, `PatternList.dfy` | `fillPatternList` |
| `ItemSelector.dfy` | `NCItemSelector` |
| `WidgetTree.dfy`, `Ring.dfy`, `DialogFocus.dfy` | `tnode`, and the focus of `NCDialog` |
| `TimedInput.dfy` | the timed wait of `NCDialog::getch` |
| `CyclicContainer.dfy` | `CyclicContainer` (searches in `Ring.dfy`) |
| `DiskSpace.dfy` | disk-space warnings |
| `LicenseLoop.dfy` | the OK button of the package selector |
| `SelMapper.dfy` | `NCPkgSelMapper` |
| `LineEdit.dfy`, `InputField.dfy`, `DateField.dfy` | `NCInputField`, `NCInputTextBase`, `NCDateField` |
| `ScrollPad.dfy` | `NCPad` |

## Main results

- A description becomes a page that an independent reader accepts (every tag closed in nesting
  order, no paragraph in a list, text only in paragraphs and items) and reads as the document its
  lines stand for, less every other one of several empty paragraphs in a row; stripped of tags and
  decoded, it is the text of the lines.  Which block a line is in, and the text of every item, is
  proved from the places of the lines alone.
- Grouping patterns by category, sorting each group and walking an index set is one stable sort.
- Line-by-line scrolling over items of any height is arithmetic on item numbers.
- Every run of focus operations keeps at most one widget active, the one the dialog points to; the
  tree walk is one ring; tabbing forward and back restores the focus, and tabbing on visits
  everything once.
- Over whole sequences of checks, a disk-space popup appears exactly when a partition is in range and
  every earlier popup that silences it lies behind two checks in a row with nothing close; an overflow
  popup takes the place of a running-out popup of the same check.
- Whatever the solver does, no round of the licence loop leaves a marked package under an unconfirmed
  licence, and there are no more rounds with a refusal than items that were free at the start or have
  been freed by the solver since.  The loop ends if and only if there is a bound on that freeing; so it
  ends with every solver that keeps all locks.
- Cache, viewport, cyclic container and timed wait each refine a simple specification.

Where a property is not true of the code, the exact condition is proved instead:

- `BackspaceUndoesExactly`: backspace does not undo a character that fills the buffer while the
  cursor stands on the last one.
- `InputFields.InputField.SetInputMaxLength`: a full buffer is cut to n + 1 characters, not n.
- `CursorShownExactly`: a field narrower than three cells can hide its cursor under an arrow, and
  `LineEdit.Draw` writes two arrows into a field of one cell with text hidden on both sides.
- `OverflowMeansRunningOut`: a partition of size zero can overflow without running out of space.
- `EndsExactly`: the licence loop ends exactly when there is a bound on what the solver frees while it
  runs; `UnlockingSolverNeverEnds` gives a solver without such a bound.
- `ItemSelector.Selector.PreferredSize`: deleting the items does not mark the cached size dirty, so the
  size is that of the items exactly when it is computed anew, or was computed for these items, or is
  the least size anyway; where two items are visible their size always outlives them (`TwoItemsOutgrow`).
- `ItemSelector.Selector.AddItem`: after all items were deleted the cursor may stand below the new
  lines; it is on the pad again exactly when it goes to the new item or the lines have reached it.
- `InputFields.InputField.SetValue`: without a window the cursor is out of reach exactly on a full
  buffer, until the window is made.
- `ScrollUpEndsExactly`: on an empty item list scrolling up ends only if the cursor is on line 0,
  and `DeleteAllItems` leaves the cursor where it was.
- `FlagAloneKeepsSingleActive`: switching off a dialog that has no panel leaves its widget active.
- `PlusUndoesMinusExactly`: plus does not undo a minus that reached the limit, or filled the buffer with
  the cursor behind its text.
- `RefusedDigitExactly`: a refused digit stays in the date if the old text was no date.
- `ScrollBackExactly`: scrolling back returns to the same place exactly when the way out hit no edge,
  or started at the opposite edge.

Where the code and its comments differ, the model follows the code: `createItemWidget` announces
separator lines only after items with a description, but adds one before every item except the
first; `setInputMaxLength` is announced to truncate to n characters.

## Model

| member | source | states |
|---|---|---|
| Markup.LexOfWrite | libyui-ncurses-pkg/src/NCPkgPackageDetails.cc:300-303 | reading back a written page gives its tokens, so entities and tags can never be confused |
| Markup.SpellingsAreHtml | libyui-ncurses-pkg/src/NCPkgPackageDetails.cc:300-303 | the tags and entities, character by character |
| Markup.EscapeRoundTrip | libyui-ncurses-pkg/src/NCPkgPackageDetails.cc:300-303 | decoding escaped text gives the text |
| Markup.SqueezeKeepsMeaning | libyui-ncurses-pkg/src/NCPkgPackageDetails.cc:373-374 | the replacement keeps a page well-formed and everything visible on it, from any place of the page |
| Markup.SqueezeExactly | libyui-ncurses-pkg/src/NCPkgPackageDetails.cc:373-374 | after the replacement a page reads as its document, thinned: of empty paragraphs right after a paragraph, every other one goes |
| Markup.ThinHalves | libyui-ncurses-pkg/src/NCPkgPackageDetails.cc:373-374 | k empty paragraphs in a row after a paragraph become k / 2 |
| Markup.RunTokens | libyui-ncurses-pkg/src/NCPkgPackageDetails.cc:313-365 | where a reader stands determines what it has read |
| Markup.RunDoc | libyui-ncurses-pkg/src/NCPkgPackageDetails.cc:313-365 | every document can be written with tags and read back |
| TextLines.ThreePassesEscape | libyui-ncurses-pkg/src/NCPkgPackageDetails.cc:300-303 | the three successive replacements are one escape per character |
| TextLines.ReplaceIsSqueeze | libyui-ncurses-pkg/src/NCPkgPackageDetails.cc:373-374 | the final text replacement acts on tags only, never inside text |
| TextLines.SplitText | libyui-ncurses/src/NCtext.cc:59-99 | the lines of a text: carriage returns dropped, a final newline opens no line, at least one line |
| TextLines.LinesMeaning | libyui-ncurses/src/NCtext.cc:80-98 | lines hold no newline, and ended by newlines they are the text, the last newline at will |
| TextLines.EraseMeaning | libyui-ncurses/src/NCtext.cc:77-78 | every occurrence of the character goes and all others stay |
| TextLines.TextLinesMeaning | libyui-ncurses/src/NCtext.cc:59-99 | no line holds a newline or a carriage return; a text without carriage returns is its lines |
| TextLines.TextLinesOfEscape | libyui-ncurses-pkg/src/NCPkgPackageDetails.cc:300-306 | splitting escaped text gives the escaped lines of the text |
| DescriptionHtml.TypesetText | libyui-ncurses-pkg/src/NCPkgPackageDetails.cc:313-360 | the document of the lines has their text, in order, bullets without marker and plain lines with one blank |
| DescriptionHtml.LineTokensBuild | libyui-ncurses-pkg/src/NCPkgPackageDetails.cc:317-359 | the tags written for a line do to a reader what the line does to the document |
| DescriptionHtml.TestsOnEscaped | libyui-ncurses-pkg/src/NCPkgPackageDetails.cc:317-345 | the tests for empty, bullet and indented lines give the same answer on the escaped line as on the line |
| DescriptionHtml.AppendLine | libyui-ncurses-pkg/src/NCPkgPackageDetails.cc:317-359 | the fragments appended for a line, with both list flags equal before and after |
| DescriptionHtml.Join | libyui-ncurses-pkg/src/NCPkgPackageDetails.cc:367-372 | all fragments in order |
| DescriptionHtml.FinishedPage | libyui-ncurses-pkg/src/NCPkgPackageDetails.cc:362-374 | a page whose tags lead a reader through a document reads back as that document, thinned, after the last replacement |
| DescriptionHtml.TranslateLines | libyui-ncurses-pkg/src/NCPkgPackageDetails.cc:307-365 | the page before the last replacement leads a reader through the document of the lines |
| DescriptionHtml.CreateHtmlText | libyui-ncurses-pkg/src/NCPkgPackageDetails.cc:291-377 | rich text unchanged; any other description a well-formed page that reads as the thinned document of its lines, shows all of it, and holds exactly their text |
| DescriptionHtml.ContainsMeaning | libyui-ncurses-pkg/src/NCPkgPackageDetails.cc:295-299 | the rich-text mark is found exactly if it stands at some place of the text |
| DescriptionLayout.TypesetByPlace | libyui-ncurses-pkg/src/NCPkgPackageDetails.cc:313-365 | a block begins exactly at an empty line and where items begin or end; a line is in a list exactly if it is part of an item; a paragraph holds its lines in order, a list one item per bullet line |
| DescriptionLayout.ItemByPlace | libyui-ncurses-pkg/src/NCPkgPackageDetails.cc:330-349 | the item of a line beginning with a dash or star and a blank is the rest of it and exactly the lines beginning with two blanks up to the next that does not, and stands behind the items of the bullet lines before it |
| DescriptionLayout.ItemsInOrder | libyui-ncurses-pkg/src/NCPkgPackageDetails.cc:330-344 | of two bullet lines the first has its item in an earlier list, or earlier in the same one |
| DescriptionLayout.ListsBegin | libyui-ncurses-pkg/src/NCPkgPackageDetails.cc:330-344 | a list begins exactly at a bullet line whose predecessor is in no item |
| DescriptionLayout.ParagraphsBegin | libyui-ncurses-pkg/src/NCPkgPackageDetails.cc:317-329 | a paragraph begins exactly at an empty line, and where a line in no item follows one in an item |
| Ordering.LessMeaning | libyui-ncurses-pkg/src/NCPkgFilterPattern.cc:74-83 | one string is less than another if it is a proper beginning of it, or has the smaller character at the first place where they differ |
| Ordering.SortStableSorted | libyui-ncurses-pkg/src/NCPkgFilterPattern.cc:334 | the list sort orders by key, equal keys in their old order |
| Ordering.SortedUnique | libyui-ncurses-pkg/src/NCPkgFilterPattern.cc:326-369 | a sorted list without repetition is determined by its elements |
| PatternList.OrderPatternIsKeyOrder | libyui-ncurses-pkg/src/NCPkgFilterPattern.cc:261-274 | orderPattern compares by order, then name |
| PatternList.PairCmpIsKeyOrder | libyui-ncurses-pkg/src/NCPkgFilterPattern.cc:74-83 | paircmp compares by order, then category name |
| PatternList.GroupByCategory | libyui-ncurses-pkg/src/NCPkgFilterPattern.cc:291-324 | every visible pattern is in the list of its category, in pool order; an empty category counts as other |
| PatternList.HeadHasLowestOrder | libyui-ncurses-pkg/src/NCPkgFilterPattern.cc:332-343 | the first pattern of a sorted category has its lowest order |
| PatternList.InsertEntrySorted | libyui-ncurses-pkg/src/NCPkgFilterPattern.cc:326-343 | the index set stays sorted and takes the new entry |
| PatternList.FullOrder | libyui-ncurses-pkg/src/NCPkgFilterPattern.cc:352-369 | walking index entries and then their lists follows the order of the one sort |
| PatternList.SortGroups | libyui-ncurses-pkg/src/NCPkgFilterPattern.cc:326-346 | all categories sorted, and the index set holds each once under its lowest order |
| PatternList.FillPatternList | libyui-ncurses-pkg/src/NCPkgFilterPattern.cc:284-372 | the list is one stable sort of the visible patterns by lowest order in category, category, order, name |
| PatternList.OneSortIsSorted | libyui-ncurses-pkg/src/NCPkgFilterPattern.cc:284-372 | that list ascends by its four-part key, ties in pool order |
| PatternList.ListOrder | libyui-ncurses-pkg/src/NCPkgFilterPattern.cc:326-369 | of two patterns in the list, the first is the lesser by order, then name, then place in the pool, or its category has the lower lowest order, or the same and the lesser name; no category counts as other |
| PatternList.EveryPatternOnce | libyui-ncurses-pkg/src/NCPkgFilterPattern.cc:291-369 | every visible pattern is in the list exactly once and nothing else is |
| ItemSelector.ItemLines | libyui-ncurses/src/NCItemSelector.cc:201-252 | each item has its label line, then at least one line that is no label, up to the next label |
| ItemSelector.ItemOfLine | libyui-ncurses/src/NCItemSelector.cc:201-252 | every line belongs to exactly one item |
| ItemSelector.LinesOfItem | libyui-ncurses/src/NCItemSelector.cc:201-252 | a separator in front of every item but the first, then the label, then the description line by line |
| ItemSelector.SplitMeaning | libyui-ncurses/src/NCItemSelector.cc:296-308 | the pieces joined by newlines are the description, and hold no newline |
| ItemSelector.UpKeyLands | libyui-ncurses/src/NCItemSelector.cc:374-393 | from any line, one line up and then up to a label ends on the item's own label, or the previous one from the label |
| ItemSelector.EndKeyLands | libyui-ncurses/src/NCItemSelector.cc:476-480 | from the last line up to a label is the last item |
| ItemSelector.DownKeyLands | libyui-ncurses/src/NCItemSelector.cc:351-371 | from any line, one line down and then down to a label ends on the next item's label, or on the last |
| ItemSelector.ArrowsFromLabel | libyui-ncurses/src/NCItemSelector.cc:466-480 | from label k, Down goes to min(k+1, n-1), Up to max(k-1, 0), End to n-1, by the item-level meaning HandleInput is proved against |
| ItemSelector.HandleKeepsSingle | libyui-ncurses/src/NCItemSelector.cc:622-671 | with single selection no key selects a second item or takes the selection away |
| ItemSelector.StatusKeysMulti | libyui-ncurses/src/NCItemSelector.cc:405-461 | in multi-selection space and a hotkey flip exactly their item, plus selects and minus deselects exactly its item; space and hotkey stay on it, plus and minus go to the next |
| ItemSelector.StatusKeysSingle | libyui-ncurses/src/NCItemSelector.cc:622-671 | in single selection space and a hotkey leave exactly their item selected, plus does unless it is selected already, minus changes nothing |
| ItemSelector.TwiceRestores | libyui-ncurses/src/NCItemSelector.cc:622-638 | in multi-selection the same status key twice restores the selection, wherever the cursor stood |
| ItemSelector.HandleAllKeeps | libyui-ncurses/src/NCItemSelector.cc:396-540 | every key sequence keeps the cursor on the pad and a single selection single |
| ItemSelector.ScrollUpEndsExactly | libyui-ncurses/src/NCItemSelector.cc:311-316 | scrolling up ends on a laid-out pad; on an empty one exactly when the cursor is on line 0 |
| ItemSelector.Selector.AddItem | libyui-ncurses/src/NCItemSelector.cc:191-252 | the pad is the layout of all items and the size dirty; a selected item of a single-selection widget takes selection and cursor; the cursor is on the pad exactly when it was put on the new item or the lines reach it |
| ItemSelector.Selector.CreateItemWidget | libyui-ncurses/src/NCItemSelector.cc:201-252 | the separator, label and description lines appended for an item, and where the cursor goes |
| ItemSelector.Selector.CurrentItem | libyui-ncurses/src/NCItemSelector.cc:171-179 | the item of the cursor line if that is a label line, and none otherwise |
| ItemSelector.Selector.DeleteAllItems | libyui-ncurses/src/NCItemSelector.cc:311-316 | no items and no lines; cursor and cached size unchanged, so the cursor is valid exactly on line 0 |
| ItemSelector.Selector.Redraw | libyui-ncurses/src/NCTablePadBase.cc:301-323 | setting the position again pulls a cursor below the pad to the last line and leaves any other |
| ItemSelector.Selector.CycleCurrentItemStatus | libyui-ncurses/src/NCItemSelector.cc:622-638 | on a label line the item is toggled, or alone selected with single selection |
| ItemSelector.Selector.DeselectAllItemsExcept | libyui-ncurses/src/NCItemSelector.cc:656-671 | all items but one deselected, that one as before |
| ItemSelector.Selector.ScrollUpToPreviousItem | libyui-ncurses/src/NCItemSelector.cc:374-393 | the loop ends on the nearest label at or above the cursor |
| ItemSelector.Selector.ScrollDownToNextItem | libyui-ncurses/src/NCItemSelector.cc:351-371 | the loop ends on the nearest label at or below the cursor, from the last line on the nearest above |
| ItemSelector.Selector.FindItemLine | libyui-ncurses/src/NCItemSelector.cc:266-277 | the line of an item's label, or -1 |
| ItemSelector.Selector.HandleInput | libyui-ncurses/src/NCItemSelector.cc:396-540 | every key does to cursor line and selection what its item-level meaning says, from any line |
| ItemSelector.Selector.PreferredSize | libyui-ncurses/src/NCItemSelector.cc:107-139 | the cached size unless dirty; it is the size of the items exactly when it was dirty, or computed for these items, or is the least size |
| ItemSelector.Selector.ComputeSize | libyui-ncurses/src/NCItemSelector.cc:111-134 | the height is max(5, 2 + lines laid out for the visible items), the width that of their longest description line plus the selector, at least 20 |
| ItemSelector.WidestIsGreatest | libyui-ncurses/src/NCItemSelector.cc:128-129 | that width is the greatest of a description line plus the selector |
| ItemSelector.Selector.SetVisibleItems | libyui-ncurses/src/NCItemSelector.cc:164-168 | at least one item is visible, and the size is dirty |
| ItemSelector.StaleSize | libyui-ncurses/src/NCItemSelector.cc:107-139 | items need no more room than none exactly when they have at most three lines, none too wide |
| ItemSelector.TwoItemsOutgrow | libyui-ncurses/src/NCItemSelector.cc:107-139 | where at least two items are visible, two items need more than none |
| WidgetTree.IndexInjective | libyui-ncurses/src/tnode.h:337-370 | no two nodes share a place in pre-order |
| WidgetTree.IndexSurjective | libyui-ncurses/src/tnode.h:337-370 | every place below the number of nodes is taken |
| WidgetTree.Next | libyui-ncurses/src/tnode.h:337-353 | the node at the next place, from the last one the root or nothing; with restart one step forward on the ring of places |
| WidgetTree.Prev | libyui-ncurses/src/tnode.h:355-370 | the node at the previous place, from the root the last one or nothing; with restart one step backward on the ring of places |
| WidgetTree.WalksInvert | libyui-ncurses/src/tnode.h:337-370 | a step forward and a step back lead to the same node |
| Ring.SearchesInvert | libyui-ncurses/src/CyclicContainer.h:85-121 | looking back from where a cyclic search ended finds where it started, if that qualifies |
| Ring.NextOkIsFirstAfter | libyui-ncurses/src/CyclicContainer.h:85-98 | searching behind the current place and then from the front is the cyclic search |
| Ring.PrevOkIsFirstBefore | libyui-ncurses/src/CyclicContainer.h:101-121 | its mirror image |
| Ring.NextPrevInverse | libyui-ncurses/src/CyclicContainer.h:85-121 | from a selectable element next and previous undo each other |
| Ring.NextVisitsAll | libyui-ncurses/src/CyclicContainer.h:85-98 | from a selectable element, repeating next meets all m selectable ones and is back after exactly m steps |
| CyclicContainers.CyclicContainer.Next | libyui-ncurses/src/CyclicContainer.h:85-98 | the next selectable element round the ring from the first place of the current one; without a current element the first selectable one |
| CyclicContainers.CyclicContainer.Previous | libyui-ncurses/src/CyclicContainer.h:101-121 | the previous selectable element round the ring, without a current element the last one; of equal elements the first place |
| CyclicContainers.CyclicContainer.SelectNext | libyui-ncurses/src/NCMenuBar.cc:372-376 | setCurrent( next() ) makes the next selectable element current, if there is any |
| CyclicContainers.CyclicContainer.SelectPrevious | libyui-ncurses/src/NCMenuBar.cc:379-383 | setCurrent( previous() ) makes the previous selectable element current, if there is any |
| CyclicContainers.AdvanceRecedeInverse | libyui-ncurses/src/CyclicContainer.h:85-121 | among distinct elements, from a selectable current one, going on and going back undo each other |
| CyclicContainers.AdvanceVisitsAll | libyui-ncurses/src/CyclicContainer.h:85-98 | from there going on makes every selectable element current and is back after exactly as many steps as there are |
| CyclicContainers.CyclicContainer.Current | libyui-ncurses/src/CyclicContainer.h:79-82 | the first place of the current element, or the end |
| CyclicContainers.CyclicContainer.SetCurrent | libyui-ncurses/src/CyclicContainer.h:72-76 | the element becomes current; the end changes nothing |
| CyclicContainers.CyclicContainer.Add | libyui-ncurses/src/CyclicContainer.h:66-69 | the element at the end, the current element as before |
| CyclicContainers.CyclicContainer.Clear | libyui-ncurses/src/CyclicContainer.h:59-63 | no elements and no current one |
| CyclicContainers.CyclicContainer.FindNext | libyui-ncurses/src/CyclicContainer.h:125-130 | the first selectable element from a place on |
| CyclicContainers.CyclicContainer.FindPrevious | libyui-ncurses/src/CyclicContainer.h:133-138 | the last selectable element before a place |
| DialogFocus.Dialog.GetNormal | libyui-ncurses/src/NCDialog.cc:586-604 | the search ends; if no widget but its start is active it repairs nothing and finds the first normal widget with a window round the ring, or its start |
| DialogFocus.Dialog.Activate | libyui-ncurses/src/NCDialog.cc:619-640 | a normal widget takes the focus from wActive, any other leaves everything alone |
| DialogFocus.Dialog.ActivateTo | libyui-ncurses/src/NCDialog.cc:643-664 | the focus stays or moves in the given direction |
| DialogFocus.Dialog.Deactivate | libyui-ncurses/src/NCDialog.cc:667-673 | the active widget becomes normal and stays the one to get the focus |
| DialogFocus.Dialog.constructor | libyui-ncurses/src/NCDialog.cc:49-61 | an inactive dialog that points to itself, with at most one active widget |
| DialogFocus.Dialog.ActivateDialog | libyui-ncurses/src/NCDialog.cc:280-301 | switching a dialog with a panel on or off |
| DialogFocus.SwitchOnFocuses | libyui-ncurses/src/NCDialog.cc:280-301 | a dialog that is switched on has an active widget exactly if the one that had the focus can have it, or any normal widget has a window; the former is preferred |
| DialogFocus.SwitchOffUnfocuses | libyui-ncurses/src/NCDialog.cc:280-301 | a dialog that is switched off has no active widget and remembers which one was |
| DialogFocus.Dialog.EnableWidget | libyui-ncurses/src/NCWidget.cc:414-430 | for a widget without children: disabling the active one first gives the focus away, to the dialog if nobody can take it; enabling makes a disabled one normal |
| DialogFocus.EnablingMeans | libyui-ncurses/src/NCWidget.cc:414-430 | disabling changes exactly the widget, and hands an active one's focus on exactly if another can take it; enabling makes a disabled widget normal; dumb ones stay |
| DialogFocus.Dialog.GrabNotify | libyui-ncurses/src/NCDialog.cc:556-566 | the focus goes to the next widget, or to the dialog if there is none |
| DialogFocus.Dialog.ActivateByKey | libyui-ncurses/src/NCDialog.cc:688-738 | the key goes to the first widget in pre-order that has it or lies below a label whose claim on it still stands, and nowhere if there is none |
| DialogFocus.KeyHitMeans | libyui-ncurses/src/NCDialog.cc:692-735 | which widget takes a key, by states, hotkeys and places alone |
| DialogFocus.DoKeepsSingleActive | libyui-ncurses/src/NCDialog.cc:619-685 | each focus operation keeps: any active widget is wActive and an inactive dialog has none |
| DialogFocus.RunKeepsSingleActive | libyui-ncurses/src/NCDialog.cc:586-685 | so does every run of them |
| DialogFocus.FlagAloneKeepsSingleActive | libyui-ncurses/src/NCDialog.cc:280-301 | without a panel that holds exactly unless a dialog with an active widget is switched off |
| DialogFocus.TabThereAndBack | libyui-ncurses/src/NCDialog.cc:676-685 | while an active widget on screen has the focus, ActivatePrev after ActivateNext, and the other way round, restore focus and states |
| DialogFocus.TabVisitsAll | libyui-ncurses/src/NCDialog.cc:676-679 | from there ActivateNext meets every widget that can have the focus and is back after exactly as many steps |
| TimedInput.ChunksAreAccurate | libyui-ncurses/src/NCDialog.cc:819-847 | only delays of 1 to 250 tenths, as many as 25-second stretches, and a total within 99 milliseconds of the request |
| TimedInput.WaitsLongerOnlyForShortRest | libyui-ncurses/src/NCDialog.cc:829-840 | the wait is longer than requested exactly when a rest below 100 milliseconds is rounded up |
| TimedInput.WaitForKey | libyui-ncurses/src/NCDialog.cc:819-847 | the delays of the whole timeout, cut short by the first key |
| DiskSpace.PercentIsFloor | libyui-ncurses-pkg/src/NCPkgPopupDiskspace.cc:112-120 | the used percentage is rounded down |
| DiskSpace.FreeBelow | libyui-ncurses-pkg/src/NCPkgPopupDiskspace.cc:284-285 | what a threshold in MiB means for free space in KiB, rounding toward zero |
| DiskSpace.RangesInKiB | libyui-ncurses-pkg/src/NCPkgPopupDiskspace.cc:274-318 | running out: at least 91 % used and less than 400 MiB free; close: 81 % and 700 MiB; overflow: a whole MiB missing; close: less than 300 MiB free |
| DiskSpace.OverflowMeansRunningOut | libyui-ncurses-pkg/src/NCPkgPopupDiskspace.cc:274-318 | a partition in overflow range is in running-out range exactly unless its size is zero; each range lies in its proximity |
| DiskSpace.HeardIsPossible | libyui-ncurses-pkg/src/NCPkgPopupDiskspace.cc:379-385 | a round with a partition in range has one close; with non-empty partitions, overflow comes with running out |
| DiskSpace.Notifier.Clear | libyui-ncurses-pkg/src/NCPkgPopupDiskspace.cc:601-607 | out of range and not close, remembering whether it was close |
| DiskSpace.Notifier.ClearHistory | libyui-ncurses-pkg/src/NCPkgPopupDiskspace.cc:610-616 | everything forgotten |
| DiskSpace.Notifier.EnterRange | libyui-ncurses-pkg/src/NCPkgPopupDiskspace.cc:619-624 | in range, close, and has been close |
| DiskSpace.Notifier.EnterProximity | libyui-ncurses-pkg/src/NCPkgPopupDiskspace.cc:627-632 | close, and has been close |
| DiskSpace.Notifier.WarningPostedNotify | libyui-ncurses-pkg/src/NCPkgPopupDiskspace.cc:635-639 | the warning is remembered |
| DiskSpace.Checker.CheckRemaining | libyui-ncurses-pkg/src/NCPkgPopupDiskspace.cc:274-318 | what a partition tells the two notifiers |
| DiskSpace.Checker.CheckRange | libyui-ncurses-pkg/src/NCPkgPopupDiskspace.cc:367-407 | a round of checks: the popups shown and the flags left |
| DiskSpace.Checker.PostPending | libyui-ncurses-pkg/src/NCPkgPopupDiskspace.cc:388-407 | the popups due, at most one of them, and the flags after it |
| DiskSpace.Memory | libyui-ncurses-pkg/src/NCPkgPopupDiskspace.cc:595-660 | the flags say whether the last round was close and whether an earlier popup still silences |
| DiskSpace.OverPopupExactly | libyui-ncurses-pkg/src/NCPkgPopupDiskspace.cc:388-407 | an overflow popup is shown exactly when a partition overflows and every earlier one lies behind two quiet rounds |
| DiskSpace.RunPopupExactly | libyui-ncurses-pkg/src/NCPkgPopupDiskspace.cc:388-407 | the same for running-out popups, which an overflow popup suppresses too |
| DiskSpace.PopupsAreSeparated | libyui-ncurses-pkg/src/NCPkgPopupDiskspace.cc:595-660 | two popups of a kind have two consecutive rounds out of proximity strictly between them |
| DiskSpace.OverflowSuppressesRunningOut | libyui-ncurses-pkg/src/NCPkgPopupDiskspace.cc:388-401 | so do an overflow popup and a later running-out popup, where overflow means running out as well |
| DiskSpace.CheckOverSeparated | libyui-ncurses-pkg/src/NCPkgPopupDiskspace.cc:367-407 | over any sequence of partition lists: two overflow popups have two checks in a row strictly between them with no writable partition close |
| DiskSpace.CheckRunSeparated | libyui-ncurses-pkg/src/NCPkgPopupDiskspace.cc:367-407 | the same for two running-out popups, and for an overflow popup without size-zero partitions and a later running-out popup |
| DiskSpace.FirstCheckWarns | libyui-ncurses-pkg/src/NCPkgPopupDiskspace.cc:367-407 | the popups of the first check, by the sizes of the writable partitions |
| DiskSpace.PopupsExactly | libyui-ncurses-pkg/src/NCPkgPopupDiskspace.cc:388-407 | the popups of every check over partition lists: in range and not silenced by an earlier popup |
| LicenseLoop.ShowLicenseAgreement | libyui-ncurses-pkg/src/NCPackageSelector.cc:1422-1462 | agreement confirms and changes nothing else; refusal makes a new package taboo, protects an installed one, and changes nothing else |
| LicenseLoop.ShowPending | libyui-ncurses-pkg/src/NCPackageSelector.cc:1374-1419 | exactly the pending items are answered; true exactly when all were agreed to |
| LicenseLoop.AnswerMeans | libyui-ncurses-pkg/src/NCPackageSelector.cc:1384-1448 | item by item with the statuses written out: what is to be installed or updated under an unconfirmed licence is confirmed, or taboo if new and protected if installed; all else is as before |
| LicenseLoop.NonePendingMeans | libyui-ncurses-pkg/src/NCPackageSelector.cc:1384-1411 | nothing pending means that everything to be installed or updated under a licence has it confirmed |
| LicenseLoop.PassSettles | libyui-ncurses-pkg/src/NCPackageSelector.cc:1374-1419 | a pass leaves nothing pending, and changes what is installed exactly when something was refused |
| LicenseLoop.PassCloses | libyui-ncurses-pkg/src/NCPackageSelector.cc:1374-1462 | a pass with anything pending reduces the number of open licences |
| LicenseLoop.PassLocks | libyui-ncurses-pkg/src/NCPackageSelector.cc:1374-1462 | a pass frees nothing, and one that refuses anything reduces the number of free items |
| LicenseLoop.PackageSelector.ShowPendingLicenses | libyui-ncurses-pkg/src/NCPackageSelector.cc:1361-1371 | patches only in online-update mode, packages always; true exactly when what is installed has not changed, otherwise fewer licences are open |
| LicenseLoop.PackageSelector.SolveAndConfirm | libyui-ncurses-pkg/src/NCPackageSelector.cc:1270-1279 | for any solver: a round leaves nothing pending, and confirms everything exactly when what is installed is what the solver settled on |
| LicenseLoop.PackageSelector.OkLoop | libyui-ncurses-pkg/src/NCPackageSelector.cc:1263-1281 | for every world in which the loop ends at all: it stops after the first round that confirms everything or is cancelled, every package, and in online-update mode every patch, that is to be installed, automatically or not, or updated under a licence has it confirmed, without a cancel the last solution is what is installed; before the last round there are no more rounds than free and freed items, than free items if the solver keeps locks, than open licences if it also forgets no agreement and invents no licence |
| LicenseLoop.PackageSelector.SolveUntilConfirmed | libyui-ncurses-pkg/src/NCPackageSelector.cc:1269-1281 | the loop itself, round by round |
| LicenseLoop.RefusalsNeedFreeing | libyui-ncurses-pkg/src/NCPackageSelector.cc:1269-1281 | whatever the solver does, rounds with a refusal plus free items never exceed the free items of the start plus those the solver has freed |
| LicenseLoop.EndsExactly | libyui-ncurses-pkg/src/NCPackageSelector.cc:1269-1281 | the loop ends if and only if there is a bound on what the solver frees while it runs |
| LicenseLoop.KeptLocksEnd | libyui-ncurses-pkg/src/NCPackageSelector.cc:1269-1281 | with a solver that keeps all locks the loop ends, after at most one round more than there are free items |
| LicenseLoop.RespectfulEnds | libyui-ncurses-pkg/src/NCPackageSelector.cc:1269-1281 | if the solver also forgets no agreement and invents no licence, open licences bound the rounds |
| LicenseLoop.EveryRoundIsSafe | libyui-ncurses-pkg/src/NCPackageSelector.cc:1269-1281 | whatever the solver does, nothing is pending after any round, and a round that confirms everything leaves the solution as it is |
| LicenseLoop.UnlockingSolverNeverEnds | libyui-ncurses-pkg/src/NCPackageSelector.cc:1269-1281 | a solver that marks refused packages again frees without bound and keeps the loop running for ever |
| SelMapper.ScanIsFirst | libyui-ncurses-pkg/src/NCPkgSelMapper.cc:110-124 | the scan finds the first selectable holding the package, if any does |
| SelMapper.BuildCache | libyui-ncurses-pkg/src/NCPkgSelMapper.cc:71-107 | the cache answers every package as the scan does |
| SelMapper.Shared.Acquire | libyui-ncurses-pkg/src/NCPkgSelMapper.cc:54-58 | one mapper more; the first one builds the cache |
| SelMapper.Shared.Release | libyui-ncurses-pkg/src/NCPkgSelMapper.cc:61-68 | one mapper less; without mappers the cache is empty |
| SelMapper.Shared.RebuildCache | libyui-ncurses-pkg/src/NCPkgSelMapper.cc:71-107 | the cache reflects the pool of now |
| SelMapper.Shared.FindZyppSel | libyui-ncurses-pkg/src/NCPkgSelMapper.cc:110-124 | the scan of the pool the cache reflects; count and cache as before |
| SelMapper.FixedPoolAnswers | libyui-ncurses-pkg/src/NCPkgSelMapper.cc:54-124 | through any interleaving over a fixed pool every lookup is the linear scan |
| SelMapper.RebuildCatchesUp | libyui-ncurses-pkg/src/NCPkgSelMapper.cc:71-107 | after a change of the pool a rebuild makes lookups right; until then they answer from the old pool while mappers exist |
| LineEdit.CursorShownExactly | libyui-ncurses/src/NCInputField.cc:275-299 | after a redraw the cursor is in the field and under no arrow, for width 3 or more always, below that exactly when stated |
| LineEdit.ScrollMeans | libyui-ncurses/src/NCInputField.cc:283-299 | when the visible part moves, and to where |
| LineEdit.CellsMean | libyui-ncurses/src/NCInputField.cc:301-357 | arrows exactly where text is hidden, stars for a password, characters otherwise, filling behind |
| LineEdit.CellsShowSlice | libyui-ncurses/src/NCInputField.cc:301-357 | the data cells in order are the visible slice of the buffer |
| LineEdit.Draw | libyui-ncurses/src/NCInputField.cc:301-357 | exactly the cells of the field are written, each with arrow, character or filling as belongs there; one cell too many exactly in a one-cell field with both arrows |
| InputFields.InputField.TUpdate | libyui-ncurses/src/NCInputField.cc:270-372 | nothing without a window; otherwise cursor in reach, visible part following it, and from three cells on every cell as it should be and the cursor's no arrow |
| InputFields.InputField.AdjustView | libyui-ncurses/src/NCInputField.cc:275-299 | cursor in reach and the visible part following it |
| InputFields.InputField.constructor | libyui-ncurses/src/NCInputField.cc:36-53 | an empty field without limit and without window |
| InputFields.InputField.Relocate | libyui-ncurses/src/NCWidget.cc:194-217 | a field that gets its window is drawn, which pulls the cursor into reach |
| InputFields.InputField.SetValue | libyui-ncurses/src/NCInputField.cc:179-192 | the text cut to the maximal length, the cursor as far right as it may go; without a window behind the text, which is in reach exactly unless the buffer is full |
| InputFields.InputField.HandleInput | libyui-ncurses/src/NCInputField.cc:376-621 | every key does to buffer and cursor what its meaning says, and scrolls exactly when it is taken |
| InputFields.InputField.Type | libyui-ncurses/src/NCInputField.cc:500-603 | a printable character in a plain and in a number field |
| InputFields.PressKeeps | libyui-ncurses/src/NCInputField.cc:256-266 | each key keeps the buffer within its length, the cursor within reach and a number a number |
| InputFields.PressKeepsLimit | libyui-ncurses/src/NCInputField.cc:504-509 | a key never makes the text longer than the limit of setInputMaxLength, or than it already was |
| InputFields.PressAllKeeps | libyui-ncurses/src/NCInputField.cc:376-606 | every key sequence keeps length, reach and number |
| InputFields.BackspaceUndoesExactly | libyui-ncurses/src/NCInputField.cc:388-404 | backspace undoes an accepted character of a plain field, or digit of a number field, in every state but one kind, and what it does there |
| InputFields.ReachMeans | libyui-ncurses/src/NCInputField.cc:256-266 | the cursor may go behind the text, on a full buffer onto its last character |
| InputFields.DeleteMeans | libyui-ncurses/src/NCInputField.cc:406-418 | delete removes exactly the character at the cursor |
| InputFields.CursorKeysMean | libyui-ncurses/src/NCInputField.cc:420-476 | home, end, left and right move the cursor as far as it may go and leave the text |
| InputFields.LeftRightInverse | libyui-ncurses/src/NCInputField.cc:450-476 | left and right undo each other away from the ends |
| InputFields.TypingMeans | libyui-ncurses/src/NCInputField.cc:500-603 | when a plain field takes a character, where it goes, and the cursor after it |
| InputFields.DigitMeans | libyui-ncurses/src/NCInputField.cc:500-545 | the same for a digit in a number field, never in front of the minus |
| InputFields.SignsMean | libyui-ncurses/src/NCInputField.cc:500-583 | minus puts the sign in front once, plus takes it away, no other character is taken |
| InputFields.PlusUndoesMinusExactly | libyui-ncurses/src/NCInputField.cc:547-577 | plus undoes an accepted minus unless that reached the limit, or filled the buffer with the cursor behind its text |
| InputFields.InputField.SetInputMaxLength | libyui-ncurses/src/NCInputField.cc:624-641 | the text is cut to n, or n + 1 from a full buffer; the cursor is in reach exactly when the result is not full |
| InputFields.InputField.SetCurPos | libyui-ncurses/src/NCInputField.h:133 | the cursor is set unchecked, and is in reach exactly when the place was |
| DateFields.DateField.HandleInput | libyui-ncurses/src/NCDateField.cc:132-321 | every key does to date and cursor what its meaning says |
| DateFields.DateField.SetValue | libyui-ncurses/src/NCDateField.cc:105-121 | only a date is taken; the cursor goes to its last digit, or behind the text without a window |
| DateFields.DateField.constructor | libyui-ncurses/src/NCDateField.cc:41-52 | 2000-01-01 if that counts as a date, no window yet and the cursor behind the text |
| DateFields.DateField.Relocate | libyui-ncurses/src/NCWidget.cc:194-217 | a field that gets its window is drawn; on a date just set the cursor is then on the last digit |
| DateFields.DateField.TUpdate | libyui-ncurses/src/NCInputTextBase.cc:191-278 | nothing without a window; otherwise cursor in reach, visible part following it, and from three cells on every cell as it should be and the cursor's no arrow |
| DateFields.PressKeepsShape | libyui-ncurses/src/NCDateField.cc:132-306 | each key keeps ten characters, dashes at 4 and 7, digits elsewhere, the cursor on a digit |
| DateFields.PressAllKeepsShape | libyui-ncurses/src/NCDateField.cc:132-306 | so does every key sequence; without backspace and delete the text also stays a date |
| DateFields.RefusedDigitExactly | libyui-ncurses/src/NCDateField.cc:275-293 | a refused digit leaves the text exactly when it was a date or had that digit |
| DateFields.AcceptedDigitMeans | libyui-ncurses/src/NCDateField.cc:275-286 | a digit that makes a date stands at the cursor with all else unchanged, and the cursor is on the next digit place |
| DateFields.ZeroingMeans | libyui-ncurses/src/NCDateField.cc:141-167 | backspace and delete put a zero at the cursor and leave all else; backspace goes to the digit place before |
| DateFields.CursorKeysMean | libyui-ncurses/src/NCDateField.cc:169-229 | the cursor keys go from digit place to digit place and leave the text |
| DateFields.LeftRightInverse | libyui-ncurses/src/NCDateField.cc:197-229 | left and right undo each other away from the ends |
| ScrollPad.RunStaysInside | libyui-ncurses/src/NCPad.cc:52-108 | every run of scrolls, resizes and re-attachments keeps the visible rectangle inside the pad |
| ScrollPad.ScrollBackExactly | libyui-ncurses/src/NCPad.h:157-160 | scrolling back undoes scrolling exactly when the way out hit no edge or started at the opposite edge |
| ScrollPad.EveryLineReachable | libyui-ncurses/src/NCPad.h:200-240 | every line can be brought into view, and the last one by scrolling down by the height |
| ScrollPad.VisibleIsMost | libyui-ncurses/src/NCPad.cc:60-65 | the visible rectangle is as large as pad and destination allow |
| ScrollPad.MoveMeans | libyui-ncurses/src/NCPad.cc:158-162 | a move goes where it was told, or to the edge it would have passed |
| ScrollPad.FreshFromOrigin | libyui-ncurses/src/NCPad.cc:52-108 | a new destination, and a new size of an attached pad, start at the origin; the same ones change nothing |
| ScrollPad.ShowsCharacters | libyui-ncurses/src/NCPad.cc:118-155 | each destination cell shows the virtual cell at its place, or a blank |
| ScrollPad.Pad.Update | libyui-ncurses/src/NCPad.cc:118-155 | paged or not, the destination shows the visible part of the virtual contents |
| ScrollPad.Pad.PrepareLines | libyui-ncurses/src/NCPad.cc:141-147 | a paged pad draws the visible lines and none past the end |
| ScrollPad.Pad.constructor | libyui-ncurses/src/NCPad.cc:40-49 | a pad of the given size without destination, paged exactly when too high for curses |
| ScrollPad.Pad.SetPos | libyui-ncurses/src/NCPad.cc:158-162 | the position clamped, and shown |
| ScrollPad.Pad.AdjPos | libyui-ncurses/src/NCPad.h:157-160 | the position moved by an offset, clamped, and shown |
| ScrollPad.Pad.Destwin | libyui-ncurses/src/NCPad.cc:52-76 | a new destination shows the pad from its origin |
| ScrollPad.Pad.SetSize | libyui-ncurses/src/NCPad.cc:79-108 | a new size, paged exactly when too high for curses, and shown from the origin |

## Left out

- Drawing, colours, window creation and `select()` plumbing: calls into curses.
- The solver, pool queries and package metadata of libzypp: not part of this model; `setStatus` is taken to succeed.
- Popups, menus, help texts and translations: no algorithm.
- The status tables `keyToStatus` and `cycleStatus`, custom item states, notification events and beeps: case tables and output.
- NCBusyIndicator, NCLabel, dialog layout and file lists: animation, layout and the file system.
- Recoding between UTF-8 and wide characters, and characters wider than a cell: one character is one cell.
- Creating and deleting widgets while a dialog is active: the widget tree is fixed during a run.
- `getch` after a terminal resize: it calls itself with what is left of the timeout.
- A field of width zero, whose unsigned arithmetic would wrap around: fields are at least one cell wide.
- DialogFocus.Dialog.EnableWidget: does not model the recursion into the children of a container, which repeats it per child.
- DialogFocus.Dialog.GrabNotify: does not model who has grabbed a widget; the widget the dialog points to is taken to be grabbed by it.
- DiskSpace.Checker.CheckRange: does not model the test mode, which replaces the disk usage and logs.
- ItemSelector.Selector.ScrollUpToPreviousItem: says nothing about an empty pad with the cursor below line 0, where the loop does not end (`ScrollUpEndsExactly`).
- ItemSelector.Selector.ScrollDownToNextItem: says nothing about that case either, where it goes on to the same loop.
- ItemSelector.Selector.CurrentItem: says nothing about a cursor below a pad that has lines; the lookup of such a line is not defined in the source.
- ItemSelector.Selector.HandleInput: does not model Home and the paging keys, which the pad handles, nor the change notification.
- InputFields.InputField.HandleInput: does not model the decoding of key codes; a key is already known to be printable or not.
- DiskSpace.PercentIsFloor: a percentage beyond an int is taken to be the greatest int, as boost 1.67 and later convert it.
- ScrollPad.Pad.Update: describes contents by virtual line and column, and takes an unpaged pad to be drawn in full when it gets its size; a paged pad needs a destination of at most 1024 lines.
