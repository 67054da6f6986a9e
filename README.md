# forms42.core: navigation state, registries and value builders

This project models the core of forms42.core, a TypeScript framework for data-entry forms in the browser:

- **View block** (`src/view/Block.ts`): a block's rows are kept by row number. Row -1 is the overlay (detail) row. The block also keeps a pointer to the current row, and it renumbers and mirrors rows.
- **View form** (`src/view/Form.ts`): the registry of view forms and the instance index. `goto` is a state machine gated by triggers. It raises a fixed, ordered chain of lifecycle events and moves the focus only when no listener vetoes.
- **Form backing** (`src/application/FormBacking.ts`): the process-wide current form and the per-form registries. These hold the case-insensitive list-of-values and date-constraint tables, the auto-generated blocks, the links and the listener list.
- **Query filters** (`src/model/filters/LT.ts`, `src/model/filters/SubQuery.ts`): record evaluation, and the SQL text each filter produces.
- **SQL builder** (`src/database/SQLBuilder.ts`): the text of select, fetch, insert, update and delete statements, with their bind values.
- **Select field** (`src/view/fields/implementations/Select.ts`): parsing a value into selected options, the joined selection, attribute handling and field-state flags.
- **Date picker** (`src/internal/forms/DatePicker.ts`): filling the 6×7 calendar grid, and the Gregorian month length.
- **Forms module** (`src/application/FormsModule.ts`): the singleton, and the maps from path to component and from component to path.

Listener answers are an oracle. The trigger machinery (`FormEvents.raise`) is a sequence of booleans, consumed in the order the events are raised; past its end, every event passes. This lets the model state exactly which events a `goto` raises and when it stops.

Column and record values are integers. Strings are `seq<char>`. JavaScript's `null`/`undefined` are `Option` values. Where the source dereferences a null or undefined object, the model returns an explicit error outcome (`Thrown`, `LookupThrown`, `Throws`, `thrown`, `None`).

Some behaviours of the source look unintended. The model keeps them as written:

- `postBlock` raises a `PreBlock` event for the block being left.
- `postField` raises `PostRecord`.
- `goto` throws when nothing is focused yet.
- `delete` writes its clause keyword twice.
- `removeEventListener` of an unknown handle removes the last listener.
- `mapComponent` stores a component's path under its raw class name, while `getFormPath` looks it up under the lower-cased name. The path is therefore found only for all-lower-case class names.
- `getSelected` drops the separator before a value when the text so far is empty.

## Model

| member | source | states |
|---|---|---|
| ViewBlock.Block.constructor | src/view/Block.ts:22-35 | the current row starts at 0 and there are no rows; the name is lower-cased, and a null name becomes "" |
| ViewBlock.Block.SetCurrentRow | src/view/Block.ts:42-55 | moving to -1 or to the current row changes nothing; otherwise the pointer moves; when an overlay row exists, the new row's field values are copied into it and no other row changes; it throws exactly when the new row is missing while an overlay exists |
| ViewBlock.Mirror | src/view/Block.ts:50-54 | the overlay keeps its fields; a field the source row also has takes that row's value, and the other fields keep theirs |
| ViewBlock.MirrorRow | src/view/Block.ts:50-54 | every field of the new current row is distributed into the overlay row, which ends up as their mirror |
| ViewBlock.Row.Distribute | src/view/Block.ts:52-53 | a row takes the value only for a field it has |
| ViewBlock.Block.AddRow | src/view/Block.ts:57-60 | the row is stored under its number and replaces any earlier row there; `getRow` then returns it |
| ViewBlock.Block.GetRow | src/view/Block.ts:62-65 | a row is found exactly when one is stored under the number, and it carries that number |
| ViewBlock.Block.Destination | src/view/Block.ts:99-105 | an edit on a list row targets the overlay row and an edit on the overlay row targets the current row, only when the target exists |
| ViewBlock.Block.Distribute | src/view/Block.ts:99-105 | only the destination row receives the value; every other row is unchanged |
| ViewBlock.Block.Finalize | src/view/Block.ts:72-97 | the block keeps the same rows, each stored under its new number (see NewNumber), and the number of rows is unchanged |
| ViewBlock.FinalizeNumbering | src/view/Block.ts:78-93 | with several rows, overlay rows keep their numbers, the list rows get exactly 0..k-1 in ascending order of their old numbers, and no two rows share a number |
| ViewBlock.NewNumberInjective | src/view/Block.ts:95-96 | two distinct rows never receive the same number, so re-storing them loses none |
| ViewBlock.SortedNumbers | src/view/Block.ts:83-84 | the sort yields each row number once, in strictly ascending order |
| ViewBlock.Renumber | src/view/Block.ts:78-93 | a lone row gets 0; with several, every list row gets its rank and every overlay row keeps its number |
| ViewBlock.Rekey | src/view/Block.ts:95-96 | every row is stored under its own number and none is lost |
| ViewForm.Registry.GetForm | src/view/Form.ts:36-44 | returns the registered view of the form; when there is none, it creates one, registers it and leaves the other views as they were |
| ViewForm.Registry.Drop | src/view/Form.ts:30-34 | the form's view is replaced by a new, empty one; other views are unchanged |
| ViewForm.Form.constructor | src/view/Form.ts:58-63 | a new view has no focus, instances or blocks, and it is registered under its form |
| ViewForm.Form.AddBlock | src/view/Form.ts:75-79 | the block is stored under its name |
| ViewForm.Form.AddInstance | src/view/Form.ts:86-89 | the instance is indexed by its element |
| ViewForm.Form.DeleteInstance | src/view/Form.ts:106-109 | only the instance's element is removed from the index |
| ViewForm.Form.ReindexInstance | src/view/Form.ts:111-115 | the old element is removed and the instance is indexed by its own element |
| ViewForm.Form.GetInstance | src/view/Form.ts:91-104 | an unknown element throws; an overlay instance, or one on its block's current row, is returned as is; any instance found lies in the same block, has the same field name and slot, and is on the current row or the overlay |
| ViewForm.Form.Validate | src/view/Form.ts:122-136 | true with nothing focused; otherwise the focused block's validated flag, with an error when that block is not registered |
| ViewForm.Form.PostField | src/view/Form.ts:251-254 | raises one event, of type PostRecord, for the instance, and passes when the listener's answer does |
| ViewForm.FirstVeto | src/view/Form.ts:155-211 | the first raised event a listener vetoes: every event before it passed; it is absent exactly when all passed |
| ViewForm.Form.Goto | src/view/Form.ts:139-216 | it throws exactly when nothing is focused yet; otherwise the raised events are the ordered plan up to the first veto; the focus and the current form move exactly when no event was vetoed, and are unchanged otherwise; the only registry change is a view created for the form being left |
| ViewForm.LeaveAndEnterForm | src/view/Form.ts:155-173 | when the form changes, PostForm is raised for the current form (if any), then PreForm; the method stops at a veto |
| ViewForm.LeaveAndEnterBlock | src/view/Form.ts:182-211 | raises PostRecord, the leave-block event, PreBlock and PreRecord, each unless its helper passes without raising; the method stops at a veto |
| ViewForm.Fire | src/view/Form.ts:261-277 | the next planned event is raised; it passes exactly when the listener's answer passes; a veto ends the raising, leaving the raised events as the prefix of the plan up to the veto |
| ViewForm.RaisedIsVetoPrefix | src/view/Form.ts:155-211 | the raised events are a prefix of the plan; all but the last passed; a short prefix ends with a vetoed event |
| ViewForm.SameRecordMoveIsSilent | src/view/Form.ts:219-249 | a move within the focused record and block of the current form raises no event |
| ViewForm.PostFormVetoStopsEntry | src/view/Form.ts:155-173 | a veto of PostForm means nothing else is raised, in particular no PreForm |
| ViewForm.LeavingBlockRaisesPreBlockTwice | src/view/Form.ts:225-235 | `goto` never raises PostBlock; leaving one block for another raises PreBlock for the block left, then PreBlock for the block entered |
| ViewForm.PlanOrder | src/view/Form.ts:155-211 | form events come before every block event, and every event concerns this form, the form left or one of the two blocks |
| Backing.KeyOf | src/application/FormBacking.ts:267-268 | a name's table key is exactly its lower-cased form (same length, no capitals), and a null name gives the undefined key |
| Backing.KeyOfCaseInsensitive | src/application/FormBacking.ts:267-268 | two names reach the same key exactly when they agree up to case |
| Backing.FormBacking.GetListOfValues | src/application/FormBacking.ts:265-270 | an entry is found exactly when the lower-cased block has a table holding the lower-cased field |
| Backing.FormBacking.SetListOfValues | src/application/FormBacking.ts:272-286 | one entry is added or replaced, and the block's table is created on demand |
| Backing.PutThenGet | src/application/FormBacking.ts:265-286 | an entry set under a block and field is found under any case variant of the two names |
| Backing.PutKeepsOthers | src/application/FormBacking.ts:277-285 | setting an entry leaves every other entry unchanged, including the block's other fields |
| Backing.FormBacking.GetDateConstraint | src/application/FormBacking.ts:288-293 | throws exactly when the block has no table; otherwise it gives the entry, or undefined when there is none |
| Backing.FormBacking.SetDateConstraint | src/application/FormBacking.ts:295-309 | one entry is added or replaced, and the block's table is created on demand |
| Backing.FormBacking.SetAutoGenerated | src/application/FormBacking.ts:311-314 | the block is appended to the auto-generated blocks |
| Backing.FormBacking.SetLink | src/application/FormBacking.ts:321-324 | the relation is appended to the links |
| Backing.FormBacking.ClearAutoGenerated | src/application/FormBacking.ts:326-334 | each auto-generated block's list-of-values and date-constraint tables are removed, as is its entry in its form's blocks |
| Backing.FormBacking.HasEventListeners | src/application/FormBacking.ts:336-345 | false exactly when there is one listener and its filter is on PostViewInit |
| Backing.FormBacking.RemoveEventListener | src/application/FormBacking.ts:347-352 | the listener list loses the element at `indexOf(handle)`, with splice semantics |
| Backing.Spliced | src/application/FormBacking.ts:350 | `splice(pos, 1)`: the element at `pos` is removed, a negative position counts from the end, and a position past the end removes nothing |
| Backing.RemovePresentListener | src/application/FormBacking.ts:347-352 | removing a registered handle removes exactly one copy of it |
| Backing.RemoveAbsentListener | src/application/FormBacking.ts:347-352 | removing an unregistered handle removes the last listener |
| Backing.FormBacking.RemoveAllEventListeners | src/application/FormBacking.ts:354-358 | the listener list is empty afterwards |
| Backing.Registry.GetCurrentForm | src/application/FormBacking.ts:44-47 | returns the current form |
| Backing.Registry.SetCurrentForm | src/application/FormBacking.ts:59-74 | a view or model form stores its application form; an application form is stored as is |
| Backing.Registry.GetBacking | src/application/FormBacking.ts:76-79 | the registered backing of the form, if any |
| Backing.Registry.SetBacking | src/application/FormBacking.ts:81-86 | a new backing with no listeners, auto-generated blocks, links, lists of values or date constraints is registered for the form |
| Backing.Registry.Cleanup | src/application/FormBacking.ts:95-102 | removes the form's model and view; then it throws exactly when the form has no backing; otherwise it drops the auto-generated blocks' entries from both tables and their names from their forms, empties the listeners, and keeps the auto-generated list and the links |
| Backing.Registry.RemoveBacking | src/application/FormBacking.ts:88-93 | cleans up as `cleanup` does (the removed backing's tables lose the auto-generated blocks' entries, their forms lose their names, the listeners are emptied) and removes the backing; the current form becomes null exactly when it was the removed form |
| LTFilter.LT.constructor | src/model/filters/LT.ts:25-30 | the bind name starts as the column name, with no constraint |
| LTFilter.LT.Clear | src/model/filters/LT.ts:32-35 | the constraint is removed |
| LTFilter.LT.GetBindValueName | src/model/filters/LT.ts:37-40 | returns the bind name |
| LTFilter.LT.SetBindValueName | src/model/filters/LT.ts:42-46 | the bind name is replaced |
| LTFilter.LT.SetConstraint | src/model/filters/LT.ts:48-52 | the constraint is replaced |
| LTFilter.LT.GetBindValues | src/model/filters/LT.ts:64-67 | exactly one bind value, named by the bind name and holding the constraint |
| LTFilter.LT.Evaluate | src/model/filters/LT.ts:69-78 | false when the column, the constraint or the record's value is missing; otherwise value <= constraint when inclusive, value < constraint when not |
| LTFilter.SQLText | src/model/filters/LT.ts:80-92 | "1 == 2" exactly when there is no constraint; otherwise a comparison holding a ":" placeholder |
| LTFilter.LT.AsSQL | src/model/filters/LT.ts:80-92 | without a constraint the text is "1 == 2"; otherwise a null bind name is first reset to the column, and the text compares the column with the placeholder of the bind value `getBindValues` then gives |
| LTFilter.ClearedFilterIsFalse | src/model/filters/LT.ts:69-92 | a cleared filter matches no record, and its text is "1 == 2" |
| LTFilter.MatchingFilterHasComparison | src/model/filters/LT.ts:69-92 | a filter that matches a record has a real comparison as its text |
| LTFilter.NullBindNameIsColumn | src/model/filters/LT.ts:85-91 | a null bind name gives the same text as one equal to the column |
| Text.SplitTrimmed | src/model/filters/SubQuery.ts:30-43 | splitting on the separator, trimming each piece and dropping empty pieces, in order |
| Text.CleanPiecesTrimmed | src/model/filters/SubQuery.ts:34-39 | every kept piece is non-empty and already trimmed |
| SubQueryFilter.BindName | src/model/filters/SubQuery.ts:48-52 | the bind name is undefined exactly when there are no columns |
| SubQueryFilter.JoinBindName | src/model/filters/SubQuery.ts:48-52 | the loop yields the columns joined with "." |
| SubQueryFilter.SubQuery.constructor | src/model/filters/SubQuery.ts:26-53 | the columns are the parsed list (or the given array), the bind name is their join with ".", and there is no sub-query or constraint |
| SubQueryFilter.SubQuery.SetSubquery | src/model/filters/SubQuery.ts:60-63 | the sub-query text is replaced |
| SubQueryFilter.SubQuery.Clear | src/model/filters/SubQuery.ts:65-68 | the constraint table is removed |
| SubQueryFilter.SubQuery.GetBindValueName | src/model/filters/SubQuery.ts:70-73 | returns the bind name |
| SubQueryFilter.SubQuery.SetBindValueName | src/model/filters/SubQuery.ts:75-79 | the bind name is replaced |
| SubQueryFilter.SubQuery.SetConstraint | src/model/filters/SubQuery.ts:81-85 | the constraint table is replaced |
| SubQueryFilter.SubQuery.GetBindValues | src/model/filters/SubQuery.ts:97-100 | always the empty list |
| SubQueryFilter.ValuesOf | src/model/filters/SubQuery.ts:111-115 | the record's value for each lower-cased column, in column order |
| SubQueryFilter.SubQuery.Evaluate | src/model/filters/SubQuery.ts:102-137 | true exactly when there is a table and some row of it matches the record's values position by position over the row's own length |
| SubQueryFilter.SubQuery.AsSQL | src/model/filters/SubQuery.ts:139-162 | "1 == 2" without a sub-query; otherwise "c exists in (...)" for one column, or the columns joined by "," in parentheses |
| SubQueryFilter.SubQuery.ToString | src/model/filters/SubQuery.ts:164-167 | the same text as `asSQL` |
| SubQueryFilter.ParsedColumnsAreClean | src/model/filters/SubQuery.ts:30-43 | every column parsed from a string is non-empty, trimmed and free of "," |
| SubQueryFilter.ParseJoinRoundTrip | src/model/filters/SubQuery.ts:30-43 | parsing clean columns joined with "," gives back the same columns |
| SubQueryFilter.BindNameSplits | src/model/filters/SubQuery.ts:48-52 | the bind name of columns without "." splits back into the columns |
| SubQueryFilter.SQLTupleRoundTrip | src/model/filters/SubQuery.ts:150-159 | for several clean columns, the tuple in the text parses back into the columns |
| SubQueryFilter.LongRowNeverMatches | src/model/filters/SubQuery.ts:120-130 | a constraint row longer than the column tuple matches no record |
| SQLBuilder.AppendJoined | src/database/SQLBuilder.ts:29-33 | the column loop appends the items joined with "," |
| SQLBuilder.Select | src/database/SQLBuilder.ts:22-47 | "select" with the columns and the table, then " where " + filter text only for a present, non-empty filter, and " order by " only for a given order; the bind values are those of a present filter |
| SQLBuilder.SelectStartsWithColumns | src/database/SQLBuilder.ts:27-35 | the text opens with "select ", the columns joined by ",", " from " and the table |
| SQLBuilder.SelectColumnsRoundTrip | src/database/SQLBuilder.ts:27-35 | without filter and order, the column list splits back into the columns |
| SQLBuilder.Fetch | src/database/SQLBuilder.ts:49-54 | the text is `{"cursor": "<cursor>" }` and no bind values are set |
| SQLBuilder.Placeholders | src/database/SQLBuilder.ts:71-77 | one ":" + column placeholder per column, in column order |
| SQLBuilder.InsertBinds | src/database/SQLBuilder.ts:71-77 | one bind value per column, with the record's value for it, in column order |
| SQLBuilder.AppendPlaceholders | src/database/SQLBuilder.ts:71-77 | the second loop appends the placeholders joined with "," and collects one bind value per column |
| SQLBuilder.Insert | src/database/SQLBuilder.ts:56-85 | the columns, then their placeholders in the same order, then the return clause; one bind value per column |
| SQLBuilder.InsertPlaceholdersMatchBinds | src/database/SQLBuilder.ts:61-82 | each placeholder names the bind value at the same position |
| SQLBuilder.Update | src/database/SQLBuilder.ts:87-90 | always null |
| SQLBuilder.KeyFilters | src/database/SQLBuilder.ts:101-105 | one Equals filter per primary-key column, constrained by the record's key at that position |
| SQLBuilder.Delete | src/database/SQLBuilder.ts:92-113 | the key filters, the text "delete from " + table + " where " + " where " + filter text, and the filters' bind values |
| SQLBuilder.DeleteRepeatsWhere | src/database/SQLBuilder.ts:95-107 | the delete text carries " where  where " right after the table |
| SelectField.ValueList | src/view/fields/implementations/Select.ts:101-117 | the values looked for are non-empty; a single select looks for at most one value |
| SelectField.Selection | src/view/fields/implementations/Select.ts:119-126 | an option is selected exactly when its value is listed |
| SelectField.FirstOnly | src/view/fields/implementations/Select.ts:128-129 | only the first option is selected |
| SelectField.Select.constructor | src/view/fields/implementations/Select.ts:24-32 | no option is selected; single select, string type, enabled and writable |
| SelectField.Select.SetValue | src/view/fields/implementations/Select.ts:82-132 | stores the value; the result is true exactly when some option's value is listed; then a multiple select selects exactly the listed options and a single select only the last listed one, or else only the first option is selected |
| SelectField.Select.ParseValue | src/view/fields/implementations/Select.ts:101-117 | the trimmed text of the value; for a multiple select containing ",", its trimmed non-empty pieces |
| SelectField.Select.DeselectAll | src/view/fields/implementations/Select.ts:102 | no option is selected |
| SelectField.Select.SelectListed | src/view/fields/implementations/Select.ts:119-126 | a multiple select ends with exactly the listed options selected, a single select with only the last listed one; the result tells whether any was |
| SelectField.Select.GetSelected | src/view/fields/implementations/Select.ts:260-281 | the accumulated text of the selected values, or null when it is empty |
| SelectField.JoinedIsJoin | src/view/fields/implementations/Select.ts:264-275 | when no selected option has an empty value, the text is the selected values joined with ", " in option order |
| SelectField.JoinedNonEmpty | src/view/fields/implementations/Select.ts:277-280 | with non-empty values, `getSelected` is null exactly when nothing is selected |
| SelectField.EmptyValueSwallowsSeparator | src/view/fields/implementations/Select.ts:270-273 | selecting "" and "a" gives "a" |
| SelectField.LastListed | src/view/fields/implementations/Select.ts:119-126 | the last option listed among the first k, and no option after it is listed; -1 when none is |
| SelectField.SingleSelection | src/view/fields/implementations/Select.ts:119-126 | a single select keeps one option selected: a listed one with no listed option after it, present exactly when some option is listed |
| SelectField.Select.SelectOption | src/view/fields/implementations/Select.ts:124 | the option becomes selected; without `multiple` every other option is deselected, with it the others keep their flags |
| SelectField.JoinedNone | src/view/fields/implementations/Select.ts:259-279 | with no option selected the text is empty |
| SelectField.JoinedOne | src/view/fields/implementations/Select.ts:259-279 | with exactly one option selected the text is its value |
| SelectField.SingleSelectShowsListed | src/view/fields/implementations/Select.ts:119-126 | a single select that found a listed value shows one listed value |
| SelectField.SingleSelectShowsValue | src/view/fields/implementations/Select.ts:119-126 | a single select looking for a value that some options carry shows that value once |
| SelectField.DuplicateOptionShowsOnce | src/view/fields/implementations/Select.ts:119-126 | with two options of value "a", a single select keeps only the second selected and shows "a" |
| SelectField.SelectionSelectsListed | src/view/fields/implementations/Select.ts:119-126 | the selected values are exactly the option values that are listed |
| SelectField.SelectedValuesMembers | src/view/fields/implementations/Select.ts:264-275 | a value is selected exactly when some selected option holds it |
| SelectField.SingleSelectParsesOneValue | src/view/fields/implementations/Select.ts:104-107 | a single select looks for the whole trimmed text, or for nothing when that text is empty |
| SelectField.Select.SelectFirst | src/view/fields/implementations/Select.ts:128-129 | with no option selected, only the first option becomes selected |
| SelectField.Select.SetAttributes | src/view/fields/implementations/Select.ts:183-205 | multiple holds exactly when a "multiple" attribute is present; the data type is given by the last type attribute, or string without one |
| SelectField.TypeOfAttributes | src/view/fields/implementations/Select.ts:183-205 | the type is string exactly when no type attribute is present, and otherwise it is one of the attributes present |
| SelectField.Select.SetFieldState | src/view/fields/implementations/Select.ts:159-181 | stores the state; disabled clears enabled; read-only sets read-only and enables when the properties allow it; open enables when allowed and clears read-only unless the properties are read-only |
| SelectField.Select.HandleEvent | src/view/fields/implementations/Select.ts:207-258 | a waiting event is dropped; a change, accept or cancel sets the value to `getSelected()`; the event is passed on exactly when it is a navigation event, or a bubbling one that is not ignored |
| DatePicker.MonthLength | src/internal/forms/DatePicker.ts:384-387 | every month has 28 to 31 days, and February has 29 exactly in leap years |
| DatePicker.DaysInMonth | src/internal/forms/DatePicker.ts:384-387 | the length of the month, after the Date constructor's year mapping and month overflow, is between 28 and 31 |
| DatePicker.MonthLengthMatchesCivil | src/internal/forms/DatePicker.ts:384-387 | the month length equals the distance between the first days of consecutive months in an independent days-from-civil count |
| DatePicker.FebruaryMatchesCivil | src/internal/forms/DatePicker.ts:384-387 | the same for February, by the leap-year rule |
| DatePicker.MonthOverflow | src/internal/forms/DatePicker.ts:384-387 | a month index past December is that month of the following year |
| DatePicker.TwoDigitYears | src/internal/forms/DatePicker.ts:384-387 | years 0..99 mean 1900..1999, so year 0 has a 28-day February |
| DatePicker.Calendar.constructor | src/internal/forms/DatePicker.ts:330-333 | the grid has 6 weeks of 7 days |
| DatePicker.Calendar.Initialize | src/internal/forms/DatePicker.ts:113-114 | the constraint is the one passed in, or the accept-all default |
| DatePicker.Calendar.PopulateDates | src/internal/forms/DatePicker.ts:312-373 | every cell of the grid equals its specification cell |
| DatePicker.FirstWeekSuffix | src/internal/forms/DatePicker.ts:335-352 | the numbered cells of the first week are a suffix of the week |
| DatePicker.NumberingIsConsecutive | src/internal/forms/DatePicker.ts:330-372 | the numbered cells are the consecutive row-major positions from the first day on, numbered 1, 2, ... |
| DatePicker.LastDayIsMonthLength | src/internal/forms/DatePicker.ts:354-364 | the month's last day carries the month length, and no cell exceeds it |
| DatePicker.CellStyles | src/internal/forms/DatePicker.ts:340-369 | cells without a number are exactly the disabled ones, and numbered cells have the weekend class exactly on days 6 and 7 |
| DatePicker.ConstraintEnablesNumbering | src/internal/forms/DatePicker.ts:335-337 | with no constraint no cell is numbered; with one, every first-week cell after the first day's index is numbered |
| FormsModule.Application.Get | src/application/FormsModule.ts:35-40 | returns the existing singleton when there is one, and otherwise a new one, which becomes the singleton |
| FormsModule.Module.constructor | src/application/FormsModule.ts:42-48 | a new module becomes the singleton |
| FormsModule.PathOf | src/application/FormsModule.ts:65-68 | the path a component is mapped under is lower case |
| FormsModule.Module.MapComponent | src/application/FormsModule.ts:60-71 | a null class changes nothing; otherwise the class is stored under its lower-cased path (the class name when none is given), and that path under the raw class name |
| FormsModule.FindComponent | src/application/FormsModule.ts:84-87 | a class is found exactly when one is stored under the lower-cased path |
| FormsModule.Module.GetComponent | src/application/FormsModule.ts:84-87 | looks the path up without case |
| FormsModule.FindFormPath | src/application/FormsModule.ts:73-82 | null for a null argument; otherwise the path stored under the lower-cased class name, if any |
| FormsModule.MappedComponentFound | src/application/FormsModule.ts:60-87 | after mapping a component, any case variant of its path finds it |
| FormsModule.FormPathNeedsLowerCaseName | src/application/FormsModule.ts:60-82 | after mapping, `getFormPath` finds the path for an all-lower-case class name, and misses it for a name with a capital letter when nothing else is stored under the lowered name |

## Left out

- Calls into the browser are not part of this model: DOM elements, focus, rendering and the bubbling of events. `Form.focus` and the refocus in `validate` are among them.
- `FormEvents` is not part of this model. Listener answers are a boolean oracle, and a listener handle is a number. The listener-registry removal that `removeEventListener` and `removeAllEventListeners` perform is left out.
- `Row.ts` is not part of this model. A row is its number and a map from field names to string values. `getFields` and `Row.distribute` are modelled only on those values.
- ViewBlock.Block.constructor: `Form.getForm` and `ModelBlock.create` are left out, as are `linkModel` and the model block.
- ViewForm.Form.Goto: `nxtblock.offset(inst)` and each block's `model.record` are parameters. The awaited promises run in sequence here, with no interleaving.
- ViewForm.Form.GetInstance: a block's current row and the instances of a field in a row are given as functions. An unregistered block is not modelled as an error.
- ViewForm.Form.Validate: the refocus on failure is not modelled.
- Form.finalize, getBlock, getField and linkModels are left out; they only wire the view to the model.
- FormBacking.save and undo are left out, along with the database connections and the alerts they use.
- FormBacking's getViewForm, setViewForm, getModelForm, setModelForm, getViewBlock and getModelBlock are left out. So are the getters and setters for page, parent and hasModalChild. They do plain map or field access.
- Backing.Registry.Cleanup: `FormMetaData.cleanup` is not part of this model.
- Filters: record values are integers, and null is left out. JavaScript's loose comparison of other types is left out.
- LTFilter.LT.Evaluate: comparing an undefined record value with the constraint is false. JavaScript gives the same result.
- SubQueryFilter.SubQuery.constructor: a single non-array, non-string argument is left out.
- SQLBuilder.Delete: the filter structure's text and bind values are given as functions of the key filters. `FilterStructure` and `Equals` are not part of this model.
- SQLBuilder.Select: a filter structure is reduced to its emptiness, its text and its bind values.
- SelectField.Select.SetValue: the data converter and the date formatting that come before the option matching are left out.
- SelectField.Select.SetFieldState: `FieldFeatureFactory.setEnabledState` and `setReadOnlyState` become two flags. Their effect on the element is left out.
- SelectField.Select.HandleEvent: reading the browser event into a `BrowserEvent` and calling the field's event handler are left out. The result only tells whether the event is passed on.
- Select.create, apply, clear, getValue, the intermediate-value accessors and addEvents are left out; they are DOM glue.
- DatePicker: the weekday index of the month's first day is an input. The source derives it from locale-formatted day names.
- DatePicker: the cells' text, tabindex and day names are left out. So are navigation, `setDay`, `done` and month stepping.
- DatePicker.DaysInMonth: the range limits of JavaScript's Date are not modelled.
- Text.Lower: lower-casing covers ASCII letters only. JavaScript's Unicode case mapping is left out.
- Text.Trim: trimming removes the common white-space characters; the other Unicode space separators are left out.
- FormsModule.Module.constructor: date validation, key-map setup and the application handler are left out.
- FormsModule's parse, showform, OpenURLForm, addEventListener and the root element are left out. They use the DOM or components outside this model.
