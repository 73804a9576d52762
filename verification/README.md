# A verified model of Perspective's virtual server, protocol and small cores

Perspective is a streaming pivot-table engine with clients, servers and viewers in several
languages. This project models the parts of the repository that hold an algorithm or a protocol of
their own, and proves what they promise. `dafny verify dfyconfig.toml` checks all of it.

* **The polars virtual server.** `Values`, `Aggregates` and `Tables` are nullable cells in polars'
  order, the seven aggregates, filters in three-valued logic and group-by in order of first
  appearance. `Frames` is a result table, its aggregate expressions and its sorts (some sorted
  permutation; ties are open). `Planner` builds one result from a view configuration: `GROUP BY
  ROLLUP` (section 7.9 of ISO/IEC 9075-2:2003) emulated by n + 1 group-bys, the flat, total and
  split variants, and the names they print. `RollupTree` proves that a rollup is the pre-order walk
  of its group tree, `RollupLaws` that it conserves its aggregates, and `Views` and `PolarsServer`
  that making a view yields such a result whatever the sort. `ViewCells` says what every row and cell
  of a view shows in terms of the table's rows and the order of the reals.
* **Reading a view and drilling down.** `DataSlice` is the window a client reads, cell by cell, with
  row paths cut by the grouping id. `CellConfig` turns a cell of the result back into a filter on
  the source table. Both directions meet in `CellConfig.DrillDownIsExact`.
* **The client protocol.** `Client` is the step machine of the three handler tables with a ghost
  history, `Proxy` a client behind another client's connection, `Server` the session registry and
  batch dispatch. `IdGen` is the id generator the client draws from: a chain of permutations of the
  32-bit integers. It rests on 4294967291 being a prime that leaves remainder 3 modulo 4, which
  `NumberTheory` and `IdGen` prove from a certificate of the prime's multiplicative order.
* **The settings reconciler.** `Json` is the structural comparison, `Reconciler` the queue of pushes
  between the viewer and the widget's model.
* **Small cores.** `Color` and `HexColor` (sections 7.1 and 7.2 of CSS Color Module Level 4),
  `ZeroSlots` (64-bit bitmap chunks), `Market` (order book) and `DiskBridge` (partial reads and
  writes).

`Common` holds what several modules share. Objects whose methods update fields are classes, and
their methods are proved against functions on values; the theorems are about those functions. Steps
that other tasks may interleave with take those tasks' events as a parameter, and arbitrary outcomes
of calls into code that is not modelled (a send that fails, a partial write, a random draw, the order
a hash map is drained in) are parameters too.

## What turned out false, and when it holds

* `polars.py:407` gives the row of k of n active groups the grouping id 2^n - 2^k, while
  `data.rs:1151-1169` reads it as if the low n - k bits were set. A row then shows its whole path
  only if k = n or k <= 1, so with three or more group columns the inner rows' paths are cut to one
  level and drilling down selects too many rows. `CellConfig.ShownLevelsOfSqlMask` shows the test
  right for SQL's mask. `CellConfig.CellFilter` is the exact condition: the filter `getCellConfig`
  builds from a cell of a view is the cell's own if and only if the row's grouping id passes its
  whole path and the group's key is truthy. `CellConfig.DrillDownFailsAtInnerLevels` gives, for every
  n >= 3 and 1 < k < n, a table of two rows and a view in which a cell of level k shows 1 and its
  filter selects rows that add up to 3; `CellConfig.MakeViewWithWrongCell` makes the view.
* `get_cell_config.ts:42` drops a path value that is empty, zero or false. `CellConfig.CellFilter` has
  the exact condition, and `CellConfig.DrillDownFailsAtFalsyGroup` a view by one group column in which
  the cell of such a group shows its own number while its filter selects both groups.
* `get_cell_config.ts:62` splits at `|` after `polars.py:278` has turned every `_` into one:
  `CellConfig.ColumnFilterExactly` and `CellConfig.ColumnNameExactly` say which split values and column
  names survive, `CellConfig.ColumnNames` what name a cell then gets. The builders split by the first split column alone, so with two or more the printed
  column name is taken for the second one's value: `CellConfig.SecondSplitTakesColumnName`. And split
  values like `a_b` and `a|b` print one name: the pushed cells still tile (`DataSlice.RowPushesTile`),
  but the slices do not (`DataSlice.SharedColumnTilesExactly`, `DataSlice.CollidingSplitsDoNotTile`).
* `perspective.node.ts:87` refuses paths that do not start with the root's characters, which a
  neighbouring directory's do: `DiskBridge.ConfinedExactly` and `DiskBridge.NeighbourIsNotRefused`.
* An explicit sort is not always obeyed. `Views.SortObeyedExactly`: a view sorts by an entry that is
  switched on if and only if, without a split, the entry shares its alias with a data column, which a
  group column is not; and with a split, only flat grouped views sort, by a data column. Rollup views
  with a split and ungrouped ones, flat mode included, ignore every entry (`Views.SplitIgnoresSort`;
  `polars.py:539-542` and `:595-599` look for names the split builders never print), and
  `Views.DefaultOrder` says in which order they are then.
* `session.rs:88` keeps only view-update subscriptions, so a hosted-tables subscription
  (`client.rs:756-782`) behind a proxy hears its first response and no other:
  `Proxy.OtherSubscriptionsGoSilent`. `Proxy.TransparentExactly`: the proxy is transparent in every
  run with requests of given kinds if and only if hosted tables are not among them.
* `local_session.rs:57-58` returns early when the host's polling callback fails, and with that hides
  errors of the callbacks before it. `Server.ReportedIsFirstExactly`: the first error of all is
  reported if and only if the host's callback succeeds, or none before it failed, or it fails with
  that same error.
* `client.rs:419` calls the generated ids unique. Whatever the seeds, the first n ids are all
  different if and only if n <= 2^32, the length of one sequence: `IdGen.UniqueExactly`.
* `client.rs:390-394` awaits between clearing the persistent handlers and draining the others. After a
  transport error the persistent table holds exactly the handlers registered in between and not
  displaced again (`Client.SubsAfterClear`), so one registered there outlives the error
  (`Client.SubscriptionInBetweenStays`).
* The drain of `client.rs:398-400` stops at the first failing handler. The client's own callers hear of
  it, because a dropped handler closes their channel; a client behind `session.rs:93-97` does not.
  `Proxy.ChildWaitsAfterParentFails`: its request is left waiting if and only if a handler drained
  before it failed, or its own call did not get through; a cancelled request of the parent is such a
  handler (`Proxy.CancelledRequestLeavesChildWaiting`).
* In the reconciler a task after the first may still change something. One does, if and only if the
  first task leaves work for the other direction, and a task of that direction is queued already or
  is requested because the first task changed something: `Reconciler.LaterTaskChanges`, a condition
  on the state before the first task, decides it in `Reconciler.Widget.Drain`. With a title on the
  viewer, a theme on the model and one push up queued, the second task restores the theme:
  `Reconciler.TitleAndThemeTakeTwoTasks` and `Reconciler.SecondTaskChangesSomething`.
* `color_utils.ts:24` promises `null` for what is no hex literal, but `parseInt` stops at the first
  bad digit: `HexColor.ReadExactly` says what is read, `HexColor.ReadsNonLiterals` names an input.

## Model

| member | source | states |
|---|---|---|
| Values.KeyLeTransitive | rust/perspective-python/perspective/virtual_servers/polars.py:547 | Comparing rows column by column, each ascending or descending with nulls first, is transitive. |
| Values.KeyLeTotal | rust/perspective-python/perspective/virtual_servers/polars.py:556 | Any two keys are comparable under mixed directions. |
| Values.KeyLeAntisymmetric | rust/perspective-python/perspective/virtual_servers/polars.py:547 | Keys that compare both ways are equal, so a sort on all path columns leaves no ties between different paths. |
| Values.KeyLeAt | rust/perspective-python/perspective/virtual_servers/polars.py:556 | Keys that agree in the columns before one are ordered by that one, so earlier sort columns come first. |
| Values.StrLeMeaning | rust/perspective-python/perspective/virtual_servers/polars.py:547 | Strings compare in dictionary order: a prefix first, else by the first character that differs. |
| Aggregates.ExtremeMeaning | rust/perspective-python/perspective/virtual_servers/polars.py:351-364 | `min` and `max` are a non-null cell of the column that bounds every non-null cell, and null exactly when there is none. |
| Aggregates.AggregateMeaning | rust/perspective-python/perspective/virtual_servers/polars.py:51-62 | Said position by position: the sum is the running total from the front, the count the number of non-null positions, mean times count the total and null without one, first and last the first and last cell and null only without rows, and of numbers the minimum and maximum are bounds in the order of the reals. |
| Aggregates.CombineLaws | rust/perspective-python/perspective/virtual_servers/polars.py:382-416 | Combining partial sums, counts, minima and maxima is commutative and associative, so the order of child rows does not matter. |
| Aggregates.CombineAllUpdate | rust/perspective-python/perspective/virtual_servers/polars.py:382-416 | Adding one more cell to one part of a partition adds it once to the combination of all parts. |
| Tables.PartitionAggregate | rust/perspective-python/perspective/virtual_servers/polars.py:391-394 | For any keys that cover the rows without repeats, the parts' aggregates combine to the aggregate of all rows. |
| Tables.ApplyFilters | rust/perspective-python/perspective/virtual_servers/polars.py:320-348 | The loop over filters, with unknown operators and missing values skipped and comparisons with null unknown, keeps exactly the rows that pass every filter. |
| Tables.FilterRowsCompose | rust/perspective-python/perspective/virtual_servers/polars.py:325-348 | Filtering by two lists of filters one after the other is filtering by their concatenation. |
| Tables.FilterRowsAt | rust/perspective-python/perspective/virtual_servers/polars.py:325-348 | The rows that pass stay in table order, each as often as it was there. |
| Tables.NumberFilterKeeps | rust/perspective-python/perspective/virtual_servers/polars.py:334-346 | A filter of a column of numbers keeps exactly the rows at positions whose cell is there and equal, unequal, greater, less, at least or at most, as its operator says in the order of the reals. |
| Tables.KeyFiltersSelectGroup | rust/perspective-python/perspective/virtual_servers/polars.py:334-336 | Equality filters on the columns of a key without nulls select exactly the rows of that group, in table order. |
| Tables.RowsWhereAt | rust/perspective-python/perspective/virtual_servers/polars.py:391-394 | A group is exactly the rows at ascending positions whose columns hold the key. |
| Tables.GroupsInOrder | rust/perspective-python/perspective/virtual_servers/polars.py:391-392 | Groups are listed in order of first appearance. |
| Frames.SelectCommutes | rust/perspective-python/perspective/virtual_servers/polars.py:357-361 | An aggregate's own filter and the group-by commute: a split column of a group is the group of the split's rows. |
| Frames.Sort | rust/perspective-python/perspective/virtual_servers/polars.py:547 | Any result is a permutation of the rows, in order under the sort specification. |
| Frames.AscendingUnique | rust/perspective-python/perspective/virtual_servers/polars.py:547 | Two strictly ascending lists of the same rows are the same list. |
| Frames.SortOfDistinctIsStrict | rust/perspective-python/perspective/virtual_servers/polars.py:547 | Sorting rows with different paths by path gives strictly ascending paths, whatever the sort does with ties. |
| Planner.PlainAggExprs | rust/perspective-python/perspective/virtual_servers/polars.py:386-389 | The loop makes one expression per data column: the configured aggregate or the default for its type, under its alias. |
| Planner.SplitAggExprs | rust/perspective-python/perspective/virtual_servers/polars.py:628-638 | The nested loops make one block of data columns for each split value, each filtered to that value and named after both. |
| Planner.SplitColumnAt | rust/perspective-python/perspective/virtual_servers/polars.py:628-638 | Column b * m + j of m data columns is data column j for split value b. |
| Planner.WithoutAt | rust/perspective-python/perspective/virtual_servers/polars.py:380 | The data columns are the configured ones that are left, in their order. |
| Planner.HiddenAggExprs | rust/perspective-python/perspective/virtual_servers/polars.py:503-505 | The flat split builder's hidden sort columns are the unsplit aggregates of the data columns. |
| Planner.BuildLevel | rust/perspective-python/perspective/virtual_servers/polars.py:382-414 | One pass groups by the active columns, extends each path with nulls and tags it with the grouping id: the rows of that level, in order of first appearance. |
| Planner.RollupLevels | rust/perspective-python/perspective/virtual_servers/polars.py:376-423 | The loop over levels, deepest first, concatenates to the rollup's rows. |
| Planner.GroupsAreNodes | rust/perspective-python/perspective/virtual_servers/polars.py:391-410 | Each grouped and tagged row is the row of its key's node. |
| RollupTree.GroupingIdClosedForm | rust/perspective-python/perspective/virtual_servers/polars.py:407 | The sum of the bits from k up to n is 2^n - 2^k. |
| RollupTree.GroupingIdInjective | rust/perspective-python/perspective/virtual_servers/polars.py:407-410 | The grouping id determines the number of active groups, and is 0 exactly for leaves, so real and rolled-up rows stay apart. |
| RollupTree.RollupRowsAreNodes | rust/perspective-python/perspective/virtual_servers/polars.py:376-423 | Before sorting, the rollup holds every node of the group tree exactly once, and nothing else. |
| RollupTree.LevelRowsAreNodes | rust/perspective-python/perspective/virtual_servers/polars.py:391-416 | A level's rows are exactly the nodes of that depth, without repeats. |
| RollupTree.LevelInOrder | rust/perspective-python/perspective/virtual_servers/polars.py:391-392 | A level's rows are in the order in which the table first names their groups. |
| RollupTree.DeepestFirst | rust/perspective-python/perspective/virtual_servers/polars.py:376-423 | Before sorting, the levels follow each other from the leaves to the grand total. |
| RollupTree.ParentBeforeChild | rust/perspective-python/perspective/virtual_servers/polars.py:544-547 | In path order with nulls first a group's row comes strictly before every row below it. |
| RollupTree.SiblingsInOrder | rust/perspective-python/perspective/virtual_servers/polars.py:544-547 | Everything below a smaller sibling comes strictly before everything below a larger one, so subtrees are contiguous. |
| RollupTree.WalkListsNodes | rust/perspective-python/perspective/virtual_servers/polars.py:376-423 | The pre-order walk below a node lists exactly the nodes below it, in strictly ascending path order. |
| RollupTree.SortedRollupIsWalk | rust/perspective-python/perspective/virtual_servers/polars.py:544-547 | With no explicit sort and non-null group keys, any sort of the rollup by path is the pre-order walk of the group tree from the grand total. |
| RollupTree.FlatIsLeavesOfRollup | rust/perspective-python/perspective/virtual_servers/polars.py:426-451 | Flat mode is the sorted rollup cut to the rows with grouping id 0: same rows, same order. |
| RollupLaws.PartitionByColumn | rust/perspective-python/perspective/virtual_servers/polars.py:391-394 | A sum, count, minimum or maximum over a table is combined from the parts with each value of one column. |
| RollupLaws.ParentCombinesChildren | rust/perspective-python/perspective/virtual_servers/polars.py:382-416 | Each rolled-up cell is its immediate child rows' cells combined. |
| RollupLaws.LevelCombinesToTotal | rust/perspective-python/perspective/virtual_servers/polars.py:454-460 | The rows of each level combine to the grand total, and the grand total's cells are those of total mode. |
| RollupLaws.SplitsCombine | rust/perspective-python/perspective/virtual_servers/polars.py:470-481 | Over any group of the table, a data column's cells for all split values combine to the unsplit aggregate. |
| RollupLaws.RollupRowConservesSplits | rust/perspective-python/perspective/virtual_servers/polars.py:616-675 | The same in every row of the rollup split builder, against the plain rollup's row. |
| RollupLaws.TotalRowConservesSplits | rust/perspective-python/perspective/virtual_servers/polars.py:463-481 | The same for total mode's one row. |
| RollupLaws.HiddenColumnIsCombination | rust/perspective-python/perspective/virtual_servers/polars.py:491-505 | In the flat split builder the hidden sort column, which is dropped, is the combination of the visible split columns. |
| Views.GatherSortKeys | rust/perspective-python/perspective/virtual_servers/polars.py:533-542 | The loop keeps the sort entries that are switched on and name a column of the result, in order, with their direction. |
| Views.ApplyGroupedSort | rust/perspective-python/perspective/virtual_servers/polars.py:529-557 | Path order without sort keys; otherwise the all-null paths first and the rest sorted by the keys. |
| Views.ApplyLeafSort | rust/perspective-python/perspective/virtual_servers/polars.py:560-582 | Leaf rows keep path order without sort keys and are a sorted permutation by the keys otherwise. |
| Views.ApplyPlainSort | rust/perspective-python/perspective/virtual_servers/polars.py:585-603 | Ungrouped rows keep table order unless a sort key applies. |
| Views.GroupedSortPermutes | rust/perspective-python/perspective/virtual_servers/polars.py:549-557 | Splitting off the total and sorting the rest loses, adds and repeats no row. |
| Views.OnlyRootIsTotal | rust/perspective-python/perspective/virtual_servers/polars.py:550-555 | With non-null group keys a row's path is all null exactly when it is the grand total. |
| Views.GrandTotalFirst | rust/perspective-python/perspective/virtual_servers/polars.py:549-557 | The first row of a rollup view is the grand total, whatever the sort. |
| Views.SortKeysExactly | rust/perspective-python/perspective/virtual_servers/polars.py:533-542 | There are sort keys if and only if an entry that is switched on names a column of the frame. |
| Views.SortObeyedExactly | rust/perspective-python/perspective/virtual_servers/polars.py:173-208 | In every mode, a view has sort keys if and only if an entry that is switched on is by a column the view can sort by. |
| Views.SplitIgnoresSort | rust/perspective-python/perspective/virtual_servers/polars.py:188-195 | Rollup views with a split, and ungrouped ones, ignore every sort entry. |
| Views.HiddenNameIsNotPrinted | rust/perspective-python/perspective/virtual_servers/polars.py:497-505 | A hidden sort column is never taken for a split column, unless a data column has the empty name. |
| Views.DefaultOrder | rust/perspective-python/perspective/virtual_servers/polars.py:173-208 | Without sort keys a view is in table order if ungrouped, the walk of the group tree in rollup mode, and the walk's leaves in flat mode, split or not. |
| Planner.AddColumns | rust/perspective-python/perspective/virtual_servers/polars.py:162-165 | The loop adds the computed columns in turn, each seeing those before it, and fails exactly if a text does not parse. |
| Planner.OtherColumnsStay | rust/perspective-python/perspective/virtual_servers/polars.py:165 | Columns that no expression names keep their cells. |
| Planner.ComputedColumn | rust/perspective-python/perspective/virtual_servers/polars.py:162-165 | A computed column holds its own expression's value in every row, evaluated on the table with the columns before it, and has that expression's type, unless a later expression takes its name. |
| PolarsServer.PolarsHandler.BuildView | rust/perspective-python/perspective/virtual_servers/polars.py:167-208 | In every mode the frame is one the configuration allows. |
| PolarsServer.PolarsHandler.TableMakeView | rust/perspective-python/perspective/virtual_servers/polars.py:150-214 | Stores under the view's name such a frame of the table with its computed columns, and its schema, and changes no other view; an unknown table or an expression that does not parse is an error that changes nothing. |
| PolarsServer.PolarsHandler.ViewDelete | rust/perspective-python/perspective/virtual_servers/polars.py:216-218 | Removes the view and its schema, and nothing else. |
| Views.ViewSchema | rust/perspective-python/perspective/virtual_servers/polars.py:606-613 | The schema names exactly the columns that do not start with two underscores. |
| Views.ViewSchemaAt | rust/perspective-python/perspective/virtual_servers/polars.py:606-613 | The schema's columns are in the frame's order, each as often as it is there. |
| PolarsServer.ViewRowsAreNodes | rust/perspective-python/perspective/virtual_servers/polars.py:180-204 | Every row of every grouped view, in any mode, split or not, sorted or not, is the row of some group of the filtered table; in flat mode of a full key. |
| PolarsServer.NodeHasRow | rust/perspective-python/perspective/virtual_servers/polars.py:180-204 | Every group of the filtered table has its row in a rollup view, under any sort. |
| ViewCells.ColumnAt | rust/perspective-python/perspective/virtual_servers/polars.py:367-389 | Each column shows its data column by the aggregate configured for it, else by the sum of a column of numbers and the count of any other; with a split for the value of its block, by which and by the column it is named. |
| ViewCells.CellMeaning | rust/perspective-python/perspective/virtual_servers/polars.py:167-204 | Every cell of every aggregated view, total mode included, is its column's aggregate, said position by position, over exactly the table's rows that pass the filters, agree with the row's path down to the level its grouping id tells, and have the split value, in table order. |
| ViewCells.UngroupedRows | rust/perspective-python/perspective/virtual_servers/polars.py:193-208 | An ungrouped view shows every row that passes the filters exactly once, in table order without sort keys; each column its own cell, and with a split only where the row has the split value of the column. |
| ViewCells.SortDirection | rust/perspective-python/perspective/virtual_servers/polars.py:533-557 | In an unsplit view with distinct column names, an explicit sort orders any two rows that agree in the columns of the earlier entries: the greater number first for `desc` and `col desc`, the smaller for any other direction, strings likewise, nulls first in both; in a rollup from the first row on whose path is not all null. |
| ViewCells.SplitSortDirection | rust/perspective-python/perspective/virtual_servers/polars.py:560-582 | In a flat view with a split, none of whose data columns has the empty name, the same holds of the unsplit aggregates of the groups behind the rows. |
| DataSlice.VirtualDataSlice.SetPath | rust/perspective-client/src/rust/virtual_server/data.rs:1151-1169 | A path cell the grouping id lets through is appended to its row's path, rows before it are filled with empty paths, and any other path cell is dropped. |
| DataSlice.VirtualDataSlice.SetData | rust/perspective-client/src/rust/virtual_server/data.rs:1172-1183 | A data cell is appended to its column, which is created at the end of the order if new; a cell of another type than the column's is an error that changes nothing. |
| DataSlice.VirtualDataSlice.PushDataColumn | rust/perspective-python/perspective/virtual_servers/polars.py:280-291 | All cells of a column are appended in row order, or none, exactly if the printed name's column has another type. |
| DataSlice.PathStep | rust/perspective-client/src/rust/virtual_server/data.rs:1156-1169 | One pushed path cell takes the row paths from the state after i rows of a path column to the state after i + 1. |
| DataSlice.PathsAreShown | rust/perspective-client/src/rust/virtual_server/data.rs:1151-1169 | After all path columns are pushed, every row's path is exactly the levels its grouping id lets through. |
| DataSlice.PushWindow | rust/perspective-python/perspective/virtual_servers/polars.py:268-291 | The nested loops over columns and rows leave the slice holding the window's paths and columns; they fail exactly if there are rows and two columns print the same name with different types, and then hold the columns before the first such clash. |
| DataSlice.ViewGetData | rust/perspective-python/perspective/virtual_servers/polars.py:227-291 | An unknown view pushes nothing; otherwise the calls are the viewport's cells column by column and the slice holds them, an absent end row reading to the end, unless two columns clash. |
| DataSlice.ColumnOrder | rust/perspective-python/perspective/virtual_servers/polars.py:248-262 | If no two columns print the same name, the slice's columns appear in schema order and no others do. |
| DataSlice.ColumnsAreCells | rust/perspective-python/perspective/virtual_servers/polars.py:268-291 | Under the same condition every column holds exactly its own cells. |
| DataSlice.SliceReads | rust/perspective-python/perspective/virtual_servers/polars.py:238-291 | What a reader of a window finds: each column is the frame's cells of the window's rows, each row path the shown path of its row. |
| DataSlice.SliceShowsCell | rust/perspective-python/perspective/virtual_servers/polars.py:238-291 | If nothing is hidden and no two columns print the same name, the i-th cell under the printed name of the frame's j-th column is the j-th cell of the i-th row from the viewport's first, for every cell in the viewport, and there are as many as it has rows. |
| DataSlice.RowPushesTile | rust/perspective-python/perspective/virtual_servers/polars.py:238-291 | Whatever names the columns print: for each path and data column, the cells pushed for rows [a, b) followed by those for [b, c), moved down by the rows of the first window, are those pushed for [a, c). |
| DataSlice.ColumnPushesTile | rust/perspective-python/perspective/virtual_servers/polars.py:248-291 | Whatever names the columns print: columns [a, c) push the paths, then the data cells of [a, b), then those of [b, c). |
| DataSlice.SharedColumnTilesExactly | rust/perspective-python/perspective/virtual_servers/polars.py:276-278 | The slices of two columns that print one name tile by rows if and only if the first one's later and the second one's earlier cells commute as lists. |
| DataSlice.CollidingSplitsDoNotTile | rust/perspective-python/perspective/virtual_servers/polars.py:276-278 | With two split values that differ in `_` against a pipe alone they do not. |
| DataSlice.RowWindowsTile | rust/perspective-python/perspective/virtual_servers/polars.py:238-246 | If no two columns print the same name, what is read from the slices of rows [a, b) and then [b, c) is, column by column and path by path, what is read from that of [a, c), an end row of 0 included. |
| DataSlice.SliceOrder | rust/perspective-python/perspective/virtual_servers/polars.py:248-262 | A window with rows creates its columns in schema order, one without creates none. |
| DataSlice.ColumnWindowsTile | rust/perspective-python/perspective/virtual_servers/polars.py:248-252 | If no two columns print the same name, the slices of columns [a, b) and [b, c) make up that of [a, c): each column's cells are those of the part it falls in, the orders join, and every part has the same row paths, an absent end column included. |
| CellConfig.RowShowsCell | rust/perspective-client/src/rust/virtual_server/data.rs:1151-1183 | The same cell is found in the JSON row of its own row under the printed name of its own column, and that row's path is the shown path. |
| CellConfig.ShownLevels | rust/perspective-client/src/rust/virtual_server/data.rs:1153-1156 | With polars' grouping id, level L of a row of k of n groups is shown exactly if k = n, or L = 0 and k > 0. |
| CellConfig.ShownLevelsOfSqlMask | rust/perspective-client/src/rust/virtual_server/data.rs:1153-1156 | With SQL's grouping id, level L is shown exactly if it is active. |
| CellConfig.PathCompleteMeaning | rust/perspective-client/src/rust/virtual_server/data.rs:1153-1156 | A grouping id passes the whole path exactly for leaves, the grand total and its children; with at most two group columns always. |
| CellConfig.RowFiltersExactly | packages/viewer-datagrid/src/ts/get_cell_config.ts:39-44 | The row filters of a cell are its group's key equalities if and only if its path is shown in full and no value in it is null, zero or the empty string. |
| CellConfig.ColumnFilterExactly | packages/viewer-datagrid/src/ts/get_cell_config.ts:60-71 | Printing a split value into a column name and parsing it back gives its own filter if and only if it is non-empty and holds neither `_` nor a pipe. |
| CellConfig.ColumnNameExactly | packages/viewer-datagrid/src/ts/get_cell_config.ts:62-63 | For such a split value the source column's name comes back if and only if it holds neither separator. |
| CellConfig.ColumnNames | packages/viewer-datagrid/src/ts/get_cell_config.ts:56-63 | From a one-row window of any grouped view with clean split values, `getCellConfig` returns as column name: without a split the printed name if and only if the column has a name without a pipe; with one split column the source column's own name if and only if it holds neither separator; none with more split columns and a name without a pipe; and an empty list outside the columns. |
| CellConfig.CellFilterSelects | packages/viewer-datagrid/src/ts/get_cell_config.ts:73 | The configured filters, the key equalities and the split equality together select exactly the cell's rows of the source table. |
| CellConfig.ColumnFiltersAreStrings | packages/viewer-datagrid/src/ts/get_cell_config.ts:64-71 | Every column filter compares with a string, so a numeric split value never gets its filter back. |
| CellConfig.SecondSplitTakesColumnName | packages/viewer-datagrid/src/ts/get_cell_config.ts:62-71 | With two or more split columns the second one is compared with the printed column name, and the column's own name is not found. |
| CellConfig.CellFilterForm | packages/viewer-datagrid/src/ts/get_cell_config.ts:27-76 | From a one-row window of any grouped view with clean split values, `getCellConfig` builds the configured filters, those of the shown path and that of the split value, in this order. |
| CellConfig.CellFilter | packages/viewer-datagrid/src/ts/get_cell_config.ts:27-76 | That filter is the one for the cell's own group and split value if and only if the grouping id passes the whole path and no value of the group's key is null, zero or the empty string. |
| CellConfig.DrillDownIsExact | packages/viewer-datagrid/src/ts/get_cell_config.ts:27-76 | For any cell of a rollup or flat view whose row shows its whole path with no empty string or zero in it, with or without a split, under any sort and filters: the column's aggregate over the rows the built filter selects is the cell's value. |
| CellConfig.PathsCompleteInSmallViews | rust/perspective-client/src/rust/virtual_server/data.rs:1151-1169 | In flat views, and in rollups of at most two group columns, every row shows its whole path, so the theorem covers every cell. |
| CellConfig.DrillDownFailsAtInnerLevels | packages/viewer-datagrid/src/ts/get_cell_config.ts:36-44 | For every number of group columns from three on and every level strictly between the first and the leaves, every view of a table of two rows has a cell that shows 1 and whose built filter selects rows that sum to 3. |
| CellConfig.MakeViewWithWrongCell | rust/perspective-python/perspective/virtual_servers/polars.py:150-214 | The server makes such a view. |
| CellConfig.DrillDownFailsAtFalsyGroup | packages/viewer-datagrid/src/ts/get_cell_config.ts:39-44 | For any empty string, zero or null beside another group value, every rollup view of the two has a cell that shows its own number and whose built filter selects both groups. |
| NumberTheory.CertifiedPrime | rust/perspective-client/src/rust/utils/rand_sequence.rs:20 | A number with a base of full multiplicative order along its certificate is prime. |
| NumberTheory.SquaresDoNotCancel | rust/perspective-client/src/rust/utils/rand_sequence.rs:76-87 | A prime that leaves 3 modulo 4 divides a sum of two squares only if it divides both. |
| IdGen.PrimeIsPrime | rust/perspective-client/src/rust/utils/rand_sequence.rs:20 | 4294967291 is prime. |
| IdGen.PermuteInjective | rust/perspective-client/src/rust/utils/rand_sequence.rs:76-87 | The quadratic-residue map, folded at half the prime, is injective on all 32-bit integers. |
| IdGen.XorUndoesItself | rust/perspective-client/src/rust/utils/rand_sequence.rs:51 | Exclusive or with a constant undoes itself. |
| IdGen.IdsAreDistinct | rust/perspective-client/src/rust/utils/rand_sequence.rs:47-68 | The 2^32 ids of one sequence are all different, for every seed. |
| IdGen.RandomSequence.Next | rust/perspective-client/src/rust/utils/rand_sequence.rs:47-68 | Hands out the sequence's ids in order, all 2^32 of them, and then none. |
| IdGen.Generator.Next | rust/perspective-client/src/rust/utils/mod.rs:154-170 | Hands out the ids of one sequence after the other, a new sequence with its own seeds every 2^32 draws. |
| IdGen.UniqueExactly | rust/perspective-client/src/rust/utils/mod.rs:154-170 | Whatever the seeds, the first n ids are all different if and only if n is at most 2^32. |
| Client.EveryHandlerLeavesOnce | rust/perspective-client/src/rust/client.rs:322-334 | In every run, the registrations of a once-handler equal its departures plus those still waiting: none is lost and none leaves twice. |
| Client.InvokedAtMostOnce | rust/perspective-client/src/rust/client.rs:437-454 | A handler registered once is invoked at most once in any run, including when its response arrives during the send. |
| Client.CallerIsAnswered | rust/perspective-client/src/rust/client.rs:322-329 | In every run the caller of a one-shot request is waiting until the first response to its id or the report that its send failed; it then gets that payload or a failure, its handler is gone, and no later step changes what it got. |
| Client.SubscriberHearsAll | rust/perspective-client/src/rust/client.rs:330-334 | While a subscription is in place its handler is given exactly the payloads that arrive under its id, in order. |
| Client.FreshRunsKeepTablesApart | rust/perspective-client/src/rust/client.rs:437-473 | With fresh ids the once and persistent tables never share an id and no registration displaces a handler. |
| Client.GeneratedIdsAreFresh | rust/perspective-client/src/rust/client.rs:419-422 | Ids of different draws among the generator's first 2^32 are fresh, whichever of the draws are registered here. |
| Client.DrainStopsAtFirstFailure | rust/perspective-client/src/rust/client.rs:398-400 | In a drain the i-th handler is invoked if none before it failed, and dropped otherwise. |
| Client.SubsAfterClear | rust/perspective-client/src/rust/client.rs:390-394 | A persistent handler is in the table after it was cleared if and only if it was registered since and not displaced again. |
| Client.TransportErrorResolvesAll | rust/perspective-client/src/rust/client.rs:350-401 | After a transport error no once-handler is left, every request the client itself made is resolved, those that were pending as errors, whichever handlers fail and whatever other tasks did between clearing and draining; the persistent handlers left are exactly those registered in between and not displaced again. |
| Client.SubscriptionInBetweenStays | rust/perspective-client/src/rust/client.rs:390-394 | A subscription registered between clearing and draining outlives the transport error. |
| Client.Connection.HandleResponse | rust/perspective-client/src/rust/client.rs:322-347 | A once-handler is removed and invoked; else a persistent one is invoked and kept; else nothing changes and the result says so. A handler's own error is passed on after it has left. |
| Client.Connection.CloseAndErrorSubscriptions | rust/perspective-client/src/rust/client.rs:380-401 | Clears the persistent table, lets other tasks run, then empties the once table in the given order, and succeeds exactly if no handler fails. |
| Client.Connection.HandleError | rust/perspective-client/src/rust/client.rs:350-374 | Other tasks run while the error callbacks do; if a callback fails no handler is touched, otherwise both tables are closed. |
| Client.Connection.OnError | rust/perspective-client/src/rust/client.rs:403-417 | Adds an error callback under its id and keeps the others. |
| Client.Connection.SubscribeOnce | rust/perspective-client/src/rust/client.rs:437-454 | Registers before sending, allows any steps during the send, and on failure removes what the table then holds under the id. |
| Client.Connection.Subscribe | rust/perspective-client/src/rust/client.rs:456-473 | The same for persistent handlers. |
| Client.Connection.Unsubscribe | rust/perspective-client/src/rust/client.rs:424-434 | Removes the handler, and reports an error exactly if there is none. |
| Proxy.ProxySession.HandleRequest | rust/perspective-client/src/rust/session.rs:84-107 | View-update requests register a forwarding handler that stays, other requests one that leaves at the first response, and an empty request is an error that changes nothing. |
| Proxy.ChildRunsAsIfDirect | rust/perspective-client/src/rust/session.rs:83-107 | With the ids in flight disjoint, a client behind the proxy that subscribes to view updates alone passes through exactly the states, deliveries included, of one connected directly; ids no longer in flight may be used again by either. |
| Proxy.OtherSubscriptionsGoSilent | rust/perspective-client/src/rust/client.rs:772-781 | A hosted-tables subscription behind the proxy hears the first response and not the second. |
| Proxy.TransparentExactly | rust/perspective-client/src/rust/session.rs:87-97 | The proxy is transparent in all runs with requests of given kinds, ids in flight disjoint, if and only if hosted tables are not among them. |
| Proxy.ParentIsUndisturbed | rust/perspective-client/src/rust/session.rs:83-107 | With the ids in flight disjoint, the parent's own handlers and history evolve as if there were no client behind it. |
| Proxy.ChildWaitsAfterParentFails | rust/perspective-client/src/rust/session.rs:93-97 | After a transport error of the parent, a forwarded request of the child is left waiting if and only if a handler drained before it failed or its own call did not get through; and nothing is forwarded any more. |
| Proxy.CancelledRequestLeavesChildWaiting | rust/perspective-client/src/rust/client.rs:477-487 | A cancelled request of the parent's own, drained first, leaves the child waiting; drained last, it does not. |
| Server.RegistryIsOpenSessions | rust/perspective-server/src/server.rs:96-112 | In every run the registry's keys are exactly the sessions opened and not closed. |
| Server.SessionReceivesItsProjection | rust/perspective-server/src/local_session.rs:39-64 | Over its whole life a session receives from each call exactly the in-order messages of that call's batch addressed to it while it was open, and nothing before or after. |
| Server.SessionReceivesSoFar | rust/perspective-server/src/local_session.rs:39-64 | The same for a session still open. |
| Server.FirstErrorMeaning | rust/perspective-server/src/local_session.rs:63 | Collecting the results succeeds exactly if all callbacks did, and otherwise reports the first error. |
| Server.ReportedIsFirstExactly | rust/perspective-server/src/local_session.rs:57-63 | When the host polls, the first error of all is reported if and only if the host's callback succeeds, or none before it failed, or it fails with that same error. |
| Server.ServerObject.Dispatch | rust/perspective-server/src/local_session.rs:43-55 | A failing callback never stops later responses: the whole batch is delivered whatever the results, other tasks' steps coming between. |
| Server.ServerObject.Poll | rust/perspective-server/src/server.rs:157-174 | Delivers the batch and reports the first error. |
| Server.ServerObject.HandleRequest | rust/perspective-server/src/local_session.rs:39-64 | Delivers the request's batch, then polls, other tasks running meanwhile; the first error is reported, except that a failing host callback hides those before it. |
| Server.ServerObject.CloseSession | rust/perspective-server/src/local_session.rs:66-75 | Removes the session's callback; closing twice is an error. |
| Json.IndexKeyInjective | packages/anywidget/src/js/index.js:69-70 | Different array indices have different keys. |
| Json.IsEqualExactly | packages/anywidget/src/js/index.js:64-81 | `isEqual` holds if and only if the two values are the same tree with arrays read as objects keyed by index. |
| Json.IsEqualIsEquivalence | packages/anywidget/src/js/index.js:64-81 | It is reflexive, symmetric and transitive. |
| Reconciler.NormalizeConfig | packages/anywidget/src/js/index.js:161-181 | Keeps exactly the known attributes that are present, parses the strings that are JSON, and fails exactly if one of them has a syntax error. |
| Reconciler.PushedValue | packages/anywidget/src/js/index.js:161-202 | After a push up the model holds, up to structural equality, what the text of a saved attribute parses to; the text itself if it is empty or the attribute is one of the six strings; an empty object for a null plugin configuration; and any other value as it is. |
| Reconciler.RestoreOverrides | packages/anywidget/src/js/index.js:207-221 | Restoring normal values overrides the normalised settings by exactly those values. |
| Reconciler.PullSettles | packages/anywidget/src/js/index.js:190-202 | After pushing up the model holds everything the viewer saves; nothing is left to push down if and only if the model had no attribute the viewer lacks. What was equal or not saved is kept as it was. |
| Reconciler.RestoreSettles | packages/anywidget/src/js/index.js:206-222 | The mirror image for pushing down. |
| Reconciler.SharedEqual | packages/anywidget/src/js/index.js:190-222 | Either direction being settled makes viewer and model equal on every shared attribute. |
| Reconciler.Widget.SetDiffering | packages/anywidget/src/js/index.js:193-198 | The loop takes over exactly the differing attributes and requests one push down for each. |
| Reconciler.Widget.PushViewerToModel | packages/anywidget/src/js/index.js:190-202 | Pushes the normalised settings up; a syntax error changes nothing. |
| Reconciler.Widget.PushModelToViewer | packages/anywidget/src/js/index.js:206-222 | Restores exactly the differing attributes in one call, and makes no call if there is none. |
| Reconciler.Widget.RunTask | packages/anywidget/src/js/index.js:183-187 | A task settles its own direction, never unsettles the other, changes nothing exactly if its direction was settled, and queues only tasks of the other direction. |
| Reconciler.Widget.DrainRest | packages/anywidget/src/js/index.js:183-187 | Once one direction is settled, at most one more task changes anything, and one does exactly if the other direction is unsettled and a task of it is queued. |
| Reconciler.Widget.Drain | packages/anywidget/src/js/index.js:183-187 | Running tasks until none is queued terminates, settles the direction of every queued task, loses no attribute, ends with both stores equal on shared attributes, and lets at most one task after the first change anything: one exactly under a condition on the state before the first task. |
| Reconciler.TitleAndThemeTakeTwoTasks | packages/anywidget/src/js/index.js:190-222 | A viewer with a title and a model with a theme meet that condition. |
| Reconciler.SecondTaskChangesSomething | packages/anywidget/src/js/index.js:190-222 | Draining one push up from there lets a second task restore the theme to the viewer. |
| Color.WrapMeaning | packages/viewer-datagrid/src/ts/color_utils.ts:131 | The doubled remainder, with JavaScript's sign, is the one angle of [0, 360) a whole number of turns away. |
| Color.HueIsPeriodic | packages/viewer-datagrid/src/ts/color_utils.ts:130-168 | `hslToRgb` has period 360 in the hue, rounded or not. |
| Color.ChannelsAreSectors | packages/viewer-datagrid/src/ts/color_utils.ts:139-167 | The three shifted channel functions are the six sectors of the colour circle: one channel at the top, one at the bottom, one on a ramp. |
| Color.RgbRoundTrip | packages/viewer-datagrid/src/ts/color_utils.ts:105-127 | For every real colour `rgbToHsl` is in its stated ranges, and `hslToRgb` before rounding gives the colour back. |
| Color.UnitMeaning | packages/viewer-datagrid/src/ts/color_utils.ts:105-127 | The lightness is midway between the greatest and the least channel, the saturation the share their distance has of the greatest possible at that lightness, and the hue within a sixth of a turn of the greatest channel. |
| Color.RoundsToNearest | packages/viewer-datagrid/src/ts/color_utils.ts:163-167 | `hslToRgb` takes each exact channel to the nearest whole number, halves up. |
| Color.WholeRgbRoundTrip | packages/viewer-datagrid/src/ts/color_utils.ts:163-167 | On whole channels the rounded conversion gives the colour back. |
| Color.HslRoundTrip | packages/viewer-datagrid/src/ts/color_utils.ts:130-168 | Colours stay in range; on the way to RGB and back greys lose their hue, black and white their saturation too, and every other colour comes back with its hue wrapped. |
| Color.HslRoundTripExactly | packages/viewer-datagrid/src/ts/color_utils.ts:130-168 | That way is the identity if and only if the colour is a hueless grey, or saturated with lightness strictly inside (0, 1) and a hue in [0, 360). |
| HexColor.HexRoundTrip | packages/viewer-datagrid/src/ts/color_utils.ts:93-102 | Reading a printed colour gives its channels rounded and clamped, for all real channels. |
| HexColor.PrintedIsNearest | packages/viewer-datagrid/src/ts/color_utils.ts:93-102 | Of a colour in range it gives the nearest whole channels, halves up. |
| HexColor.WholeHexRoundTrip | packages/viewer-datagrid/src/ts/color_utils.ts:93-102 | Whole channels in range come back themselves. |
| HexColor.ReadExactly | packages/viewer-datagrid/src/ts/color_utils.ts:25-44 | Which strings are read as colours: the short forms exactly with three hex digits, the long ones already when `parseInt` makes out each pair. |
| HexColor.ReadsNonLiterals | packages/viewer-datagrid/src/ts/color_utils.ts:24-44 | A string that is no hex literal and is read as a colour. |
| HexColor.ShortFormDoublesDigits | packages/viewer-datagrid/src/ts/color_utils.ts:27-33 | The short form stands for the long form with each digit doubled, 17 times its value. |
| ZeroSlots.PackedBit | rust/perspective-js/src/rust/typed_array.rs:60 | Bit i of a packed word is the i-th validity. |
| ZeroSlots.PackIsFull | rust/perspective-js/src/rust/typed_array.rs:58 | A word of n bits is the largest of its width exactly if no bit is clear. |
| ZeroSlots.FullChunk | rust/perspective-js/src/rust/typed_array.rs:58 | The skipped chunks are exactly those without a null. |
| ZeroSlots.ZeroInvalidSlots | rust/perspective-js/src/rust/typed_array.rs:52-75 | For any length and bitmap the chunked loops, in place and in bounds, leave every null slot with the default and every other slot as it was. |
| Market.FewOpen | examples/blocks/src/market/market.js:186-193 | If only the last ten batches may be open, at most a hundred orders are. |
| Market.ClosedIds | examples/blocks/src/market/market.js:178-183 | Clearing adds exactly the cleared ids to the closed ones of their side, none of which was closed before. |
| Market.StepKeepsInvariant | examples/blocks/src/market/market.js:139-148 | Every step keeps ids counting up, as many buys closed as sells, time running with ids, and at most a hundred orders open; orders only go from open to closed or expired. |
| Market.BestOpenPriceMeaning | examples/blocks/src/market/market.js:44-68 | The best bid is an open one that no open bid exceeds, the best offer an open one that no open offer undercuts, and 20 where there is none. |
| Market.BatchPrices | examples/blocks/src/market/market.js:150-171 | Each entered bid is priced against the lowest open offer and each offer against the highest open bid, of the table before the batch, with the next id, open, and at the batch's one time. |
| Market.StepMeaning | examples/blocks/src/market/market.js:139-199 | Order by order: bids above the offer price and offers below the bid price close, the better price and then the earlier time first, as many of one as of the other until one side has none left; open orders from before the last hundred expire; every other order stays as it was entered. |
| Market.FirstAreBest | examples/blocks/src/market/market.js:70-85 | The first n of a ranking rank, by price and then time, before every matched order left out. |
| Market.OrderBook.AskBestOpenPrice | examples/blocks/src/market/market.js:60-68 | The price is the one first asked for since the last reset, however the table has changed. |
| Market.OrderBook.MatchedOrders | examples/blocks/src/market/market.js:70-85 | All open orders of the side that beat the price, ranked by price and then time. |
| Market.Market.GenerateTrades | examples/blocks/src/market/market.js:150-171 | A batch is priced against the other side as it was before the batch, and those prices stay remembered. |
| Market.Market.ClearTrades | examples/blocks/src/market/market.js:173-184 | Closes equal numbers of the best matches of each side, all of them on the shorter side, at the remembered prices. |
| Market.Market.ExpireTrades | examples/blocks/src/market/market.js:186-199 | Exactly the open orders from more than ten batches ago expire. |
| Market.Market.RunMarketStep | examples/blocks/src/market/market.js:139-148 | One step of the market as a relation between the tables before and after, and the invariant. |
| Market.Market.Poll | examples/blocks/src/market/market.js:126-137 | Steps at least once and until enough orders have been entered; the invariant and the orders' histories hold throughout. |
| DiskBridge.NodeDiskBridge.Store | rust/perspective-js/src/ts/perspective.node.ts:110-136 | Under any schedule of partial writes the file is exactly the data if no call throws; otherwise -1, with a proper prefix left in that file and every other file as it was. |
| DiskBridge.NodeDiskBridge.Load | rust/perspective-js/src/ts/perspective.node.ts:137-168 | Under any schedule of partial reads the file's bytes up to the length are copied and counted and the rest of the heap is unchanged; a missing file gives 0 and changes nothing; a throwing read gives 0 with a proper prefix copied. |
| DiskBridge.NodeDiskBridge.Remove | rust/perspective-js/src/ts/perspective.node.ts:169-175 | Removes exactly that file, if it is there. |
| DiskBridge.StoreAndLoad | rust/perspective-js/src/ts/perspective.node.ts:110-168 | Storing and loading back moves exactly the stored bytes, as many as asked for, to the target and changes no other byte. |
| DiskBridge.RemoveAndLoad | rust/perspective-js/src/ts/perspective.node.ts:169-175 | After a removal a load gives 0 and changes nothing. |
| DiskBridge.AlwaysCompletes | rust/perspective-js/src/ts/perspective.node.ts:124-126 | A loop whose calls always move at least one byte and never throw reaches the end. |
| DiskBridge.ConfinedExactly | rust/perspective-js/src/ts/perspective.node.ts:83-89 | No path under the root is refused, and one that is not refused is under it if and only if it is the root or a `/` follows the root. |
| DiskBridge.NeighbourIsNotRefused | rust/perspective-js/src/ts/perspective.node.ts:82-89 | The directory of a process whose id begins with this one's digits is not refused. |

## Left out

* The C++ engine, protobuf and Arrow encodings, DuckDB and ClickHouse execution and the SQL builder:
  responses are opaque tagged values.
* `Client::table` from a view: it rests on engine deltas that are not part of this model.
* What expressions compute: parsing yields a column type and a function of the table. The operator,
  type and aggregate lookup tables. Aggregates given as a list or a dictionary, and the error for an
  unknown aggregate: the model's aggregates are typed.
* Booleans and dates as cells: a cell is null, a number or a string.
* Floating point: numbers are reals. NaN, which `view_get_data` pushes as null, does not occur.
  Sums over strings count as zero.
* Null group keys in the tree-order and grand-total theorems: with them an all-null path may be a
  group of its own. Null split values, on which `sorted` raises.
* Total mode together with group columns, where `view_get_data` raises on a missing path column.
* Column names that are unknown raise in polars; the model reads null. Sort entries by unknown names
  are skipped, as in the code.
* Polars' own order of ties, and its alignment of frames with different columns: all frames of a
  rollup have the same.
* `2_i32.pow` overflows for 31 or more group columns; the grouping id's width is unbounded here.
* JavaScript moves integer-like keys to the front of `Object.keys`; the model keeps column order.
* Null cells of some column types are skipped when rows are rendered; here a null is a cell.
* `set_col` for data columns ignores the row index and appends, as the model does; a caller that
  pushes rows out of order is not part of it.
* `get_features` and its cache, the parser of responses, the lock mechanics: each critical section is
  one atomic step.
* What reconnect callbacks do. An error callback either succeeds or fails.
* The ids in flight of a client and its parent are disjoint in the proxy theorems: nothing in
  `session.rs` enforces that. Their runs have no transport error of the parent; what one does to the
  child is a theorem of its own, and what it does to the requests that follow is not modelled.
* The drill-down theorem is about at most one split column, whose values are strings without `_` and
  `|`: for other split values and for more split columns the built filter is not the cell's own
  (`CellConfig.ColumnFilterExactly`, `CellConfig.ColumnFiltersAreStrings`,
  `CellConfig.SecondSplitTakesColumnName`). Group keys are not null, and column aliases are distinct.
* The viewer's `save` after `restore(diff)` is taken to be the old settings overridden by `diff`, and
  both sides' values to be in normal form; the viewer announces a restore any number of times. An
  edit from outside while tasks are queued is not modelled.
* `typeof` function values in `isEqual`: JSON has none.
* `parseColor`'s cache and canvas, `parse_rgb_fn`, `mixRgb` (square roots), `rgbaToRgb` and the
  gradients. White space beyond Latin-1 in `parseInt`; negative zero.
* The bitmap's byte layout and offset, which the Arrow library hides behind its chunk iterator; a
  64-bit word is a number below 2^64 and `chunk & (1 << bit)` its binary digit.
* `Market.stop`, the GUI, timers and the random model. Prices are reals. That matched pairs cross
  pairwise is not promised by the code: only that each beats the other side's remembered price.
* `ensureOpen`, the cleanup on exit, the creation of directories, and what `path.join` does: its result
  is a parameter, with `/` as the separator. A write or read that returns 0 before the end would loop
  or stop early; the schedules exclude it, as the operating system does for regular files.
