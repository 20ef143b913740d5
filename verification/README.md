# Google Play achievement unlocker — a Dafny model

The Google Play achievement unlocker works on a copy of the Play Games
database (`games_*.db`, SQLite). It does not talk to any server. It appends
rows to the `achievement_pending_ops` table, and the Games service later
replays those rows as achievement unlocks. Every other table is only read:

- achievement definitions and instances;
- client contexts;
- game instances;
- game player ids;
- games;
- images;
- players.

The model covers:

- **Structure** (`structure.dfy`, from `gpau_objects/structure.py`): the
  record classes. A record is an immutable value built from the positional
  row of its table. The model covers:
  - the attribute filter (`attrs`, `values`, `dict`);
  - `get_arg`;
  - the changers: account-name masking and the timestamp conversion;
  - the state and type predicates;
  - the one-line summaries.
- **Database** (`database.dfy`, from `gpau_objects/dbfile.py`):
  - `select` and `search` over the tables, in `_id` order;
  - the in-memory `search_instances` and `search_instances_by`;
  - the pending-operation queue. `DbFile` is a class whose one mutable
    field is the database; the methods that change the queue are:
    - `add_pending_op`;
    - `empty_pending_ops`;
    - `remove_duplicate_pending_ops`.

    `get_next_pending_op_id` only reads the queue's largest id.
- **Finder** (`finder.dfy`, from the `Finder` class of
  `gpau_objects/structure.py`): every relationship lookup is a
  first-or-all exact `select` on one or two columns. The by-id lookups
  (`AchDefById` … `ImageById`) are one-line calls of `ByColumn` and share its
  rows below, as do the list forms (`GameInstsByGames`, `GamesByAchDefs`,
  `AchDefsByAchInsts`).
- **Funcs** and **Values** (`funcs.dfy`, `values.dfy`): `get_arg`, and
  Python's `str`, `lower`, `in` and `join` on the values stored in cells.
- **Unlocker** (`gpau.dfy`, from `gpau_objects/gpau.py`):
  - `unlock_achievement`: the lookups it chains, the quiet test and the
    already-unlocked test, the steps to increment, and the row it queues;
  - `get_increment_value`, `get_player_id`, `get_app`, `find_achievements`.
- **Cli** (`nicecli.py`):
  - `sort_rows`, a stable sort by a case-insensitively named column;
  - the empty-table placeholder of `table`;
  - the rows of `show_all_games`, and the type and state labels;
  - `find_game`, with its recursion through client contexts;
  - `unlock_ach`, `unlock_achs` and `unlock_all_achs`, as runs of unlocks
    over the database.
- **Legacy** (`legacy.dfy`, from `db_objs.py`): the older revision.
  - It loads seven tables into memory, and its constructors squash every
    falsy value to None.
  - It looks everything up with the case-insensitive substring `findby` and
    `find`.

`Result<T>` distinguishes three outcomes:

- `Ok`: normal return;
- `Abort`: the program stops on purpose (`ex`, `Logger.error_exit`);
- `Crash`: an uncaught Python exception, such as AttributeError,
  IndexError, TypeError or a recursion error.

## Model

| member | source | states |
|---|---|---|
| Structure.FieldNames | gpau_objects/structure.py:108-336 | every record class has exactly as many attributes as positional arguments its constructor reads |
| Structure.FieldNamesListed | gpau_objects/structure.py:63-64 | every attribute a constructor sets passes the `attrs()` filter (no dunder, not hidden) |
| Structure.Attrs | gpau_objects/structure.py:63-64 | `attrs()` is exactly the constructor's attribute list, in assignment order |
| Structure.BookkeepingHidden | gpau_objects/structure.py:50-58 | the class-level bookkeeping names (`_changers`, `_args`, `_hidden_attrs`) are all removed by the filter |
| Structure.AttrsKeepIdDropHidden | gpau_objects/structure.py:54-64 | `_id` survives the filter and comes first; none of the three hidden names is an attribute |
| Structure.WrapperGetArg | gpau_objects/structure.py:82-83 | a non-negative index past the end gives None, one inside gives the element |
| Structure.GetArgAgrees | gpau_objects/structure.py:82-83 | `Wrapper.get_arg` and the free `get_arg` agree on every index, negative ones included |
| Structure.Decode | gpau_objects/structure.py:145-160 | a constructed record keeps its args, takes argument i as attribute i, and gives None to the attributes past the end of a short row |
| Structure.ValueList | gpau_objects/structure.py:66-67 | `values()` has one entry per attribute, each the value of that attribute in order |
| Structure.Dict | gpau_objects/structure.py:69-70 | `dict()` pairs each attribute name with its value, in attribute order |
| Structure.DecodeValuesRoundTrip | gpau_objects/structure.py:97-101 | rebuilding a record from its own `dict().values()` yields the same fields and the same `dict()` |
| Structure.Find | gpau_objects/structure.py:193 | `str.find` gives -1 or an index that holds the character |
| Structure.FindFirst | gpau_objects/structure.py:193 | `find` gives the first occurrence, and -1 exactly when the character is absent |
| Structure.PySliceTo | gpau_objects/structure.py:193 | `x[:e]` is the prefix for an in-range end and the whole string past the end |
| Structure.PySliceFrom | gpau_objects/structure.py:193 | `x[s:]` is the suffix for an in-range start and counts from the end for a negative start |
| Structure.Stars | gpau_objects/structure.py:193 | `"*" * n` is n stars, and empty when n is not positive |
| Structure.MaskWithAt | gpau_objects/structure.py:193 | with `@` at position 2 or later, the masked name is two leading characters, stars, then the text from two before `@` |
| Structure.MaskKeepsEnds | gpau_objects/structure.py:193 | the masked name starts with the first two characters and ends with everything from `@` on |
| Structure.MaskWithoutAt | gpau_objects/structure.py:193 | with no `@` (`find` is -1) the name becomes its first two characters, length-1 stars and its last three characters |
| Structure.RunChanger | gpau_objects/structure.py:192-194 | the account-name changer succeeds exactly on strings and gives their mask; the timestamp changer succeeds exactly when the conversion is defined; neither aborts |
| Structure.ChangeStep | gpau_objects/structure.py:98-100 | one changer leaves the values untouched unless its attribute is present and requested, and then changes only that attribute |
| Structure.ChangeFrom | gpau_objects/structure.py:98-100 | running the changers in order keeps one value per attribute |
| Structure.Requested | gpau_objects/structure.py:94-95 | no subset means every changer key is requested; a given subset is used as is |
| Structure.ApplyChangers | gpau_objects/structure.py:93-101 | succeeds exactly when every requested changer does; the result is a record of the same class whose fields and args are the changed dict values |
| Structure.ChangeFromNothingChosen | gpau_objects/structure.py:98-100 | when no changer is requested the values come back unchanged |
| Structure.ApplyNothingIsCopy | gpau_objects/structure.py:93-101 | `apply_changers([])` is a copy with the same `dict()` |
| Structure.ChangeFromKeepsOthers | gpau_objects/structure.py:98-100 | a position that no requested changer targets keeps its value |
| Structure.OnlyChosenFieldsChange | gpau_objects/structure.py:93-101 | an attribute that no requested changer targets keeps its value in the result |
| Structure.AccountNamePosition | gpau_objects/structure.py:196-201 | `account_name` is the fourth attribute of a client context |
| Structure.MaskEntry | gpau_objects/structure.py:98-100 | the account-name changer on a string replaces exactly that entry by its mask |
| Structure.MaskOnClientContext | gpau_objects/structure.py:188-201 | `apply_changers(["account_name"])` on a client context replaces only the account name, by its mask |
| Structure.IsLocked | gpau_objects/structure.py:165-166 | `is_locked` is defined only for an integer state (TypeError otherwise) and is true exactly when the state is positive |
| Structure.PredicatesExclusive | gpau_objects/structure.py:127-166 | an unlocked instance is not locked; no definition is both normal and incremental |
| Structure.TagOf | gpau_objects/structure.py:137-138 | the tag is one of the four brackets, its letter follows the incremental flag, and it has `|SEC` exactly for secret definitions |
| Structure.Clip | gpau_objects/structure.py:141-142 | pad 0 leaves `str(v)`; a non-zero pad needs a string (TypeError otherwise), cuts it to the pad and adds `...` only when it is longer |
| Structure.DefinitionSummary | gpau_objects/structure.py:136-143 | succeeds exactly when both clips succeed; the text is the tag, the external id, the clipped name, the clipped description and the xp value followed by `xp`, joined by the separator |
| Structure.DefinitionLine | gpau_objects/structure.py:136-143 | the definition's line is its tag, external id, name, description and the xp value followed by `xp`, joined by the separator; it opens with the tag and closes with the xp value |
| Structure.InstanceSummary | gpau_objects/structure.py:168-169 | the text is the definition id, the state, the current steps and the xp value, joined by the separator |
| Structure.PendingOpSummary | gpau_objects/structure.py:185-186 | the text is the client context id, the external achievement id, the external game id and the external player id, joined by the separator |
| Structure.ClientContextSummary | gpau_objects/structure.py:203-204 | the text is the id, the separator and the package name |
| Structure.GameSummary | gpau_objects/structure.py:280-282 | the text is the external game id, the package name when an instance is given (else the developer), and the display name, joined by the separator |
| Structure.PlayerSummary | gpau_objects/structure.py:335-336 | the text is the external player id, the profile name and `Level ` with the current level, joined by the separator |
| Values.Slot | gpau_objects/funcs.py:8-9 | an index past the end gives None, one inside gives the element |
| Values.NatToString | gpau_objects/structure.py:86-87 | `str` of a natural number is a non-empty digit string, a single digit exactly below ten |
| Values.NatToStringRoundTrip | gpau_objects/structure.py:86-87 | reading the digits of `str(n)` back gives n |
| Values.Lower | gpau_objects/dbfile.py:65 | `lower()` keeps the length and lowers each character |
| Values.LowerIdempotent | gpau_objects/dbfile.py:65 | lowering twice is lowering once |
| Values.Join | gpau_objects/structure.py:85-87 | the joined text starts with the first part, and a single part is returned as is |
| Values.JoinEnds | gpau_objects/structure.py:85-87 | with two or more parts, the text starts with the first part and the separator and ends with the separator and the last part |
| Values.ContainsAt | gpau_objects/dbfile.py:67 | `s in t` holds exactly when s occurs at some position of t |
| Values.ContainsSelfAndEmpty | gpau_objects/dbfile.py:67 | every text contains itself and the empty text |
| Seqs.Filter | gpau_objects/dbfile.py:66-67 | the filter keeps exactly the elements that pass, no more of them than the input has |
| Funcs.GetArg | gpau_objects/funcs.py:8-9 | a non-negative index gives the element or None past the end; only an index below minus the length raises IndexError |
| Funcs.NegativeIndex | gpau_objects/funcs.py:8-9 | a negative index counts from the end, or raises IndexError below minus the length |
| Database.Records | gpau_objects/dbfile.py:109-112 | reading a table gives one record per row, in `_id` order, each built by the table's class |
| Database.Zip | gpau_objects/dbfile.py:104 | `zip` pairs columns with values and stops at the shorter list |
| Database.Select | gpau_objects/dbfile.py:92-116 | aborts exactly when both lists are given with different lengths; crashes exactly when a clause names a column the table lacks; otherwise picks the first row or all rows that satisfy every clause |
| Database.SelectAll | gpau_objects/dbfile.py:103-112 | the selection is exactly the rows that satisfy all clauses, in table order |
| Database.SelectFirst | gpau_objects/dbfile.py:114-116 | with `first`, the result is None exactly when no row matches, and otherwise the earliest matching row |
| Database.SelectWithoutClauses | gpau_objects/dbfile.py:96-99 | missing or empty column and value lists select the whole table |
| Database.Search | gpau_objects/dbfile.py:43-61 | with `first`, None exactly when nothing matches; otherwise all matching rows |
| Database.SearchFirst | gpau_objects/dbfile.py:43-61 | with `first`, None exactly when no row matches; otherwise the earliest matching row in `_id` order |
| Database.SearchAll | gpau_objects/dbfile.py:47-56 | a row is found exactly when one of its non-NULL cells equals or contains the lowered term |
| Database.SearchSkipsNullRows | gpau_objects/dbfile.py:49-53 | a row whose cells are all NULL is never found, because SQL `lower(NULL)` never matches |
| Database.SearchInstances | gpau_objects/dbfile.py:64-71 | the result holds exactly the objects for which `str()` of some value matches, in order; with `first`, a matching object or None |
| Database.SearchInstancesFirst | gpau_objects/dbfile.py:63-71 | with `first`, None exactly when no object matches; otherwise the earliest matching object of the list |
| Database.SearchMatchesInstances | gpau_objects/dbfile.py:43-71 | on a table without NULL cells, the SQL search and the in-memory search give the same result |
| Database.NoneDivergence | gpau_objects/dbfile.py:43-71 | on a record whose values are all None, `search_instances` matches `none` exactly but the SQL search does not |
| Database.SearchInstancesBy | gpau_objects/dbfile.py:73-90 | no objects gives `[]`; no columns falls back to `search_instances` without `exact`; otherwise picks the objects where a requested column they have matches |
| Database.KeepWhere | gpau_objects/dbfile.py:81-86 | the loop's result is the ordered filter of the objects |
| Database.MatchingMeaning | gpau_objects/dbfile.py:81-86 | the kept objects are an ordered subsequence, holding exactly the objects where a requested column matches |
| Database.UnknownColumnsIgnored | gpau_objects/dbfile.py:82-83 | requested columns that the class lacks change nothing |
| Database.NextOpId | gpau_objects/dbfile.py:144-146 | 0 for an empty queue, otherwise one more than an existing id and above every id |
| Database.DictValues | gpau_objects/dbfile.py:141 | `op.values()` lists the values in key order |
| Database.Stored | gpau_objects/dbfile.py:138-142 | the stored row is the given one, except that a NULL `_id` becomes the id SQLite assigns an integer primary key: 1 in an empty queue, else one more than the largest id, which is free |
| Database.AutoId | gpau_objects/dbfile.py:138-142 | the id of a NULL-id insert is 1 in an empty queue, else one more than the largest id, and above every id |
| Database.AutoIdAgainstNextOpId | gpau_objects/dbfile.py:138-146 | on an empty queue `get_next_pending_op_id` gives 0 while a NULL-id insert gets 1; on any other queue the two agree |
| Database.InsertRow | gpau_objects/dbfile.py:138-142 | an insert adds exactly one row |
| Database.InsertRowMembers | gpau_objects/dbfile.py:138-142 | the rows after an insert are the rows before plus the new one |
| Database.InsertRowSorted | gpau_objects/dbfile.py:138-142 | after an insert the queue still has distinct ids in increasing order |
| Database.InsertRowAppends | gpau_objects/dbfile.py:138-142 | a row whose id is above every id goes to the end |
| Database.NextIdAppends | gpau_objects/dbfile.py:138-146 | inserting with the next id, or a NULL id, never fails and appends the row at the end; the row's id is the next id, or SQLite's assigned id for a NULL one |
| Database.KeyColumn | gpau_objects/dbfile.py:126 | the key is read from `_id` for the `id` property and from the named field for a pending-op field; any other name is treated as missing (see Left out) |
| Database.DropKeepsValid | gpau_objects/dbfile.py:127 | deleting one row keeps the ids distinct and increasing |
| Database.DeleteFirstOfRest | gpau_objects/dbfile.py:127 | deleting by a row's id removes that row and nothing else |
| Database.DedupDistinct | gpau_objects/dbfile.py:121-132 | the kept rows have pairwise different keys, none of them already seen |
| Database.DedupSubsequence | gpau_objects/dbfile.py:121-132 | the kept rows are an ordered subsequence of the queue |
| Database.DedupKeys | gpau_objects/dbfile.py:121-132 | the keys kept are exactly the queue's keys minus those already seen |
| Database.DistinctKeysCount | gpau_objects/dbfile.py:121-132 | rows with distinct keys have as many keys as rows |
| Database.DedupCount | gpau_objects/dbfile.py:121-132 | every key survives, once; the number removed is the number of rows minus the number of keys |
| Database.DedupKeepsDistinct | gpau_objects/dbfile.py:121-132 | a queue whose keys are already distinct is left as it is |
| Database.DedupIdempotent | gpau_objects/dbfile.py:121-132 | removing duplicates twice removes nothing more |
| Database.DedupFirstWins | gpau_objects/dbfile.py:125-130 | a row is kept exactly when no earlier row has its key |
| Database.DbFile.constructor | gpau_objects/dbfile.py:19-21 | the file object holds the opened database |
| Database.DbFile.NextPendingOpId | gpau_objects/dbfile.py:144-146 | returns the next pending-op id of the current queue |
| Database.DbFile.EmptyPendingOps | gpau_objects/dbfile.py:134-136 | the queue becomes empty and no other table changes |
| Database.DbFile.AddPendingOp | gpau_objects/dbfile.py:138-142 | succeeds exactly when the insert breaks no constraint, then inserts the stored row (a NULL `_id` takes SQLite's assigned id, 1 in an empty queue); on failure nothing changes |
| Database.DbFile.RemoveDuplicatePendingOps | gpau_objects/dbfile.py:121-132 | crashes exactly when the queue is not empty and the column is unknown; otherwise the queue keeps the first row per key and the count removed is returned |
| Database.DbFile.DropRepeatedKeys | gpau_objects/dbfile.py:122-131 | the loop leaves the first-occurrence deduplication of the queue, keeps it valid, and counts the deletions |
| Database.DbFile.VisitRow | gpau_objects/dbfile.py:126-130 | one iteration deletes the row exactly when its key was seen, and otherwise records the key |
| Finder.ByColumn | gpau_objects/structure.py:345-367 | a one-column lookup gives None exactly when no row's cell equals the value, and otherwise a row of the table whose cell equals it |
| Finder.ByColumnIsSelect | gpau_objects/structure.py:345-346 | the one-column lookup is `select_by_cls_fe` on that column |
| Finder.ByColumnUnique | gpau_objects/structure.py:345-367 | when exactly one row matches, the lookup returns it |
| Finder.ByColumns | gpau_objects/structure.py:375-376 | a two-column lookup (used for a game's installed instance) gives None exactly when no row matches both values, and otherwise a row of the table that matches both |
| Finder.ByColumnsIsSelect | gpau_objects/structure.py:375-376 | the two-column lookup is `select_by_cls_fe` on both columns |
| Finder.GameByAchInstChain | gpau_objects/structure.py:393-397 | no definition means no game; a game found is the game of a definition whose id is the instance's `definition_id` |
| Finder.GameByName | gpau_objects/structure.py:399-400 | None exactly when no game has a cell equal to the lowered search; otherwise a game of the table with such a cell |
| Finder.GamesByName | gpau_objects/structure.py:402-403 | an ordered subsequence of the games: exactly those with a cell containing the lowered search |
| Finder.AllByColumn | gpau_objects/structure.py:411-412 | the definitions of a game id are exactly the definitions whose `game_id` equals it, in table order |
| Finder.AllByColumnIsSelect | gpau_objects/structure.py:411-412 | this list is the all-rows exact `select` |
| Finder.InstancesOfDefinitions | gpau_objects/structure.py:420-421 | one entry per definition, each that definition's instance or None |
| Finder.AchInstsByGameIdMeaning | gpau_objects/structure.py:423-429 | an unknown game gives `[]`; otherwise one instance entry per definition of the game |
| Unlocker.IncrementValue | gpau_objects/gpau.py:168-180 | never aborts; succeeds exactly when some answer is a non-negative integer, and the value is not negative |
| Unlocker.IncrementValueFirst | gpau_objects/gpau.py:168-180 | the value is the first acceptable answer; every earlier answer was refused |
| Unlocker.FirstPlayer | gpau_objects/gpau.py:200-203 | aborts exactly when there is no player, and otherwise gives the first player's external id |
| Unlocker.PlayerId | gpau_objects/gpau.py:197-203 | a missing attribute crashes; a given override is used whole; otherwise the first player, aborting when there is none |
| Unlocker.PlayerIdTruncated | gpau_objects/gpau.py:198-199 | as written, the override `g1234` becomes `g`; the corrected lookup keeps `g1234` |
| Unlocker.PlayerIdAgreeWithoutOverride | gpau_objects/gpau.py:200-203 | without an override, both versions give the first player |
| Unlocker.PlayerIdAsWritten | gpau_objects/gpau.py:197-203 | as written: a missing attribute crashes; a string override gives its one-character prefix; no override gives the first player |
| Unlocker.GetApp | gpau_objects/gpau.py:205-224 | never crashes; aborts only when not optional; `-a` wins over `-aid`; with neither option, or when the package name or external id finds nothing, None when optional and a fatal error otherwise; a package found gives the game of its instance, an external id found gives that game |
| Unlocker.AppPriority | gpau_objects/gpau.py:211-217 | when `-a` is given, `-aid` is ignored |
| Unlocker.AppMeaning | gpau_objects/gpau.py:211-224 | with `-a`, the game's id is the `instance_game_id` of an instance with that package; with `-aid`, the game's external id is the one given |
| Unlocker.Resolve | gpau_objects/gpau.py:136-139 | never aborts; no instance crashes; on success the instance belongs to the definition, the installed game instance belongs to the game, and a client context shares its package name |
| Unlocker.Minus | gpau_objects/gpau.py:152 | subtraction succeeds exactly on two integers (TypeError otherwise) |
| Unlocker.Steps | gpau_objects/gpau.py:149-154 | empty for non-incremental definitions; total minus current under auto-increment; otherwise the first accepted answer as an integer, and a crash of the prompt (input ran out) is passed on unchanged |
| Unlocker.PendingOp | gpau_objects/gpau.py:156-166 | the dict's values are the queued row, in column order |
| Unlocker.Unlock | gpau_objects/gpau.py:128-166 | no definition does nothing; a failed lookup crashes; otherwise the decision on the resolved records |
| Unlocker.DecideOutcomes | gpau_objects/gpau.py:140-145 | a missing `quiet` crashes; with `quiet` present, a missing client context aborts with "No client context found for this game" when not quiet and with an empty message when quiet, and it is exactly the case that aborts with one of these; "already unlocked" is reported exactly when the client context exists and the state is NULL; other fatal errors (an empty player table) are possible further on |
| Unlocker.DecidePastChecks | gpau_objects/gpau.py:149-166 | once the client context exists and the state is not NULL, the only fatal error left is "Couldn't find any player", and success always queues a row |
| Unlocker.Decide | gpau_objects/gpau.py:140-166 | never reports "not given"; a queued row has the table's nine columns and carries the next free pending-op id |
| Unlocker.PendingRow | gpau_objects/gpau.py:156-166 | the row has the table's nine columns and its `_id` is the id given |
| Unlocker.UnlockedStateStillQueued | gpau_objects/gpau.py:142-145 | an instance whose state is 0 (what `is_unlocked` tests) is not reported as already unlocked |
| Unlocker.QueuedRow | gpau_objects/gpau.py:156-166 | a queued row is built from the next id, the client context, the definition, the steps, the game and the player |
| Unlocker.QueuedKeepsValid | gpau_objects/gpau.py:156-157 | the queued row has the next id, so the queue stays sorted by distinct ids |
| Unlocker.Gpau.constructor | gpau_objects/gpau.py:11-34 | the unlocker holds the arguments and the opened file |
| Unlocker.Gpau.UnlockAchievement | gpau_objects/gpau.py:128-166 | the outcome is the modelled decision; the database grows by the queued row and is otherwise unchanged |
| Unlocker.Gpau.Queue | gpau_objects/gpau.py:140-166 | the outcome of the decision on resolved records, with the same effect on the queue |
| Unlocker.Gpau.FindAchievements | gpau_objects/gpau.py:182-195 | the definitions found are an ordered subsequence of the candidates: exactly those whose name or description contains the lowered search |
| Unlocker.Candidates | gpau_objects/gpau.py:183 | an ordered subsequence of the definitions: all of them without a package, else exactly those whose `game_id` is the package's `_id` |
| Cli.LessIrreflexive | nicecli.py:69 | no string sorts before itself |
| Cli.LessTotal | nicecli.py:69 | two different strings are ordered exactly one way |
| Cli.LessTransitive | nicecli.py:69 | the string order is transitive |
| Cli.Insert | nicecli.py:69 | an insertion adds exactly the new line |
| Cli.SortOn | nicecli.py:69 | sorting is a permutation of the lines |
| Cli.InsertSorted | nicecli.py:69 | inserting into sorted lines keeps them sorted |
| Cli.SortOnSorted | nicecli.py:69 | the sorted lines are ordered by the key column |
| Cli.InsertStable | nicecli.py:69 | inserting keeps the relative order of lines with equal keys |
| Cli.SortOnStable | nicecli.py:69 | sorting is stable: lines with equal keys keep their order |
| Cli.SortRows | nicecli.py:61-70 | `sort_rows` never aborts |
| Cli.SortColumn | nicecli.py:64-68 | the sort column is the first header equal to the name ignoring case, or none when no header matches |
| Cli.SortRowsUnchanged | nicecli.py:62-67 | without a sort name, or with a name no header matches, the rows are returned unchanged |
| Cli.SortRowsSorts | nicecli.py:68-70 | succeeds exactly when every data row has the column; the header stays first, and the data rows are a stable, sorted permutation |
| Cli.TypeLabel | nicecli.py:160-165 | the four labels correspond one to one to the incremental and secret flags |
| Cli.TypeLabels | nicecli.py:160-165 | a definition's label is `Inc/...` exactly when it is incremental, and `.../Sec` exactly when it is secret |
| Cli.AchievementType | nicecli.py:160-165 | one of the four labels `Inc/Sec`, `Inc/Nor`, `Sec`, `Nor`; an `Inc/` label exactly for an incremental definition |
| Cli.AchievementState | nicecli.py:167-172 | a locked incremental achievement shows current and total steps |
| Cli.StateLabels | nicecli.py:167-172 | the state is `UNLOCKED` exactly for unlocked instances; a step count exactly for locked incremental ones; `LOCKED` otherwise |
| Cli.Dashes | nicecli.py:53 | the placeholder row has one run of dashes per header cell, of the same width |
| Cli.PlaceholderOnce | nicecli.py:50-53 | a header-only table gets one dash row, under its header, and applying it again adds nothing; other tables are untouched; once the row is added the title is no longer marked `(NOTHING FOUND)` |
| Cli.WithPlaceholder | nicecli.py:49-53 | the data is kept as a prefix; a header-only table gains one line as wide as the header, other tables are unchanged |
| Cli.Heading | nicecli.py:49-52 | a title is present exactly when one was given; it changes only for header-only data and a non-empty title, and then ends in ` (NOTHING FOUND)` |
| Cli.TableData.constructor | nicecli.py:49 | the table holds the given lines |
| Cli.TableData.Placeholder | nicecli.py:50-53 | the lines gain the placeholder row, and the heading is the one computed from the old lines |
| Cli.UnlockedCount | nicecli.py:139 | the unlocked count never exceeds the number of instances |
| Cli.IncompleteMeaning | nicecli.py:146 | a game is not complete exactly when it has definitions and some instance is missing or not unlocked |
| Cli.NotCompleteFilter | nicecli.py:146-147 | with the not-100% filter a game gets a line exactly when it gets one without the filter and is not complete; the line is the same |
| Cli.AllGamesLine | nicecli.py:128-150 | a line has the six header columns; a game with no display name and no instance is skipped, and without the not-100% filter only such a game is |
| Cli.Collect | nicecli.py:128-150 | no more lines than games |
| Cli.CollectMembers | nicecli.py:128-150 | every line comes from a game, and every game that has a line contributes it |
| Cli.CollectLines | nicecli.py:128-150 | the loop collects exactly the line of each game that has one |
| Cli.AllGames | nicecli.py:122-155 | the rows are the header followed by the lines of the games |
| Cli.AllGamesNotComplete | nicecli.py:146-150 | every row of the not-100% listing is the line of a game that is not complete |
| Cli.FindGame | nicecli.py:201-211 | never aborts; a game found is in the table |
| Cli.FindGameByPackage | nicecli.py:210-211 | a non-numeric name finds the game of an instance with that package, or None when no instance has it |
| Cli.FindGameByGameId | nicecli.py:202-205 | a numeric name with the game-id flag finds the game of an instance with that game id, or None when there is none |
| Cli.FindGameByContext | nicecli.py:207-208 | otherwise a numeric name is a client context id: none gives None, and one recurses on its package name |
| Cli.SessionArgsQuiet | nicecli.py:253-256 | as written, every unlock whose lookups succeed crashes on `quiet`; with the attribute present the same unlock queues a row |
| Cli.SessionArgsAsWritten | nicecli.py:253-256 | the object `main` builds has neither a `quiet` nor a `player_id` attribute |
| Cli.SessionArgs | nicecli.py:253-256 | the corrected object is not quiet and has no player override |
| Cli.NewSession | nicecli.py:253-256 | the unlocker is built over the file with the attributes it reads |
| Cli.Batch | nicecli.py:221-222 | a run of unlocks changes only the queue and has at most one outcome per definition |
| Cli.UnlockStep | nicecli.py:224-231 | on a valid queue and a definition (or none) the step is exactly the unlocker's `unlock_achievement` with no typed answers |
| Cli.BatchStep | nicecli.py:221-222 | one more definition adds its outcome and its queued row to a run that has not stopped |
| Cli.BatchStays | nicecli.py:221-222 | once a run has stopped, later definitions change nothing |
| Cli.BatchKeepsValid | nicecli.py:221-222 | a run of unlocks keeps the queue sorted by distinct ids |
| Cli.BatchAppends | nicecli.py:221-222 | the queue after a run is the old queue followed by the queued rows, in order |
| Cli.BatchStopsAtFailure | nicecli.py:221-222 | every outcome but the last succeeded; a run shorter than the list has stopped |
| Cli.LookupIgnoresQueue | nicecli.py:227 | the definition lookup does not depend on the pending queue |
| Cli.Named | nicecli.py:235-236 | one looked-up definition, or None, per external id |
| Cli.UnlockAch | nicecli.py:224-232 | sets auto-increment, then unlocks the definition with that external id (nothing when there is none); the database gains the queued row |
| Cli.UnlockAchs | nicecli.py:234-236 | the loop is the run of unlocks over the named definitions, and the database is the run's |
| Cli.UnlockNext | nicecli.py:235-236 | one iteration extends the run by the next id |
| Cli.Present | nicecli.py:220 | each definition of the game is passed on, in order |
| Cli.UnlockAllAchs | nicecli.py:213-222 | a failed game lookup crashes or aborts and leaves the database; a found game runs the unlocks over all its definitions |
| Cli.UnlockEach | nicecli.py:221-222 | the loop is the run of unlocks over the definitions |
| Cli.UnlockOne | nicecli.py:222 | one iteration extends the run by the next definition |
| Legacy.LegacyDecode | db_objs.py:39-56 | crashes exactly when the row is too short; each attribute is its argument when truthy and None otherwise |
| Legacy.NoFalsyFields | db_objs.py:43-56 | a legacy record holds no falsy value other than None |
| Legacy.LegacyAgreesOnTruthyRows | db_objs.py:39-56 | on a row without falsy values both revisions build the same fields |
| Legacy.ZeroStateBecomesNone | db_objs.py:70 | a state of 0 becomes None in the legacy record but stays 0 in the current one |
| Legacy.LegacyAttrs | db_objs.py:10-11 | the legacy `attrs()` is the same attribute list as the current one |
| Legacy.DecodeRows | db_objs.py:273-275 | a table loads exactly when every row is long enough; one record per row |
| Legacy.Load | db_objs.py:258-275 | loads the seven tables, or crashes when one has a short row |
| Legacy.LegacyPick | db_objs.py:292 | `found[0]` only when asked for one and something was found; otherwise the whole list |
| Legacy.FindResult | db_objs.py:294-299 | `find` picks from the objects where some value contains the lowered search |
| Legacy.FindByResult | db_objs.py:277-292 | no objects gives None; otherwise the first match or the list of matches, and the empty list on a miss even with `first` |
| Legacy.FindByMeaning | db_objs.py:277-292 | a single hit is a matching object; a list is the ordered matches; with `first`, one object exactly when something matches |
| Legacy.MissIsEmptyList | db_objs.py:292 | with `first`, a miss gives `[]` and not None |
| Legacy.FindBy | db_objs.py:277-292 | the loop computes `findby` |
| Legacy.FindByAgainstSearchInstancesBy | db_objs.py:277-292 | `findby` agrees with the substring `search_instances_by` on hits and differs on a miss (`[]` against None) |
| Legacy.SingleColumnHit | db_objs.py:286-289 | matching on one column is containment in the lowered `str()` of that attribute |
| Legacy.ById | db_objs.py:182-201 | a record found is in the table and its `_id` text contains the value |
| Legacy.AchDefsByAchInsts | db_objs.py:208-209 | one definition lookup per instance |
| Legacy.GameByAchInst | db_objs.py:211-216 | corrected: the game lookup runs only when a definition was found |
| Legacy.GameByAchInstMiss | db_objs.py:211-216 | when no definition matches, the original crashes and the corrected version gives None |
| Legacy.GameByAchInstAgrees | db_objs.py:211-216 | when the definition is found or the table is empty, both versions agree |
| Legacy.GameByAchInstAsWritten | db_objs.py:211-216 | as written: crashes exactly when the definition lookup answers a list; otherwise the intended result |
| Legacy.AchDefsByGameId | db_objs.py:222-223 | None exactly for an empty table; otherwise always a list |
| Legacy.AchDefsByGameIdSubstring | db_objs.py:222-223 | a definition of game 10 is listed for game 1 |
| Legacy.AchInstsByAchDefs | db_objs.py:231-232 | one instance lookup per definition |
| Legacy.AchInstsByGameId | db_objs.py:234-241 | corrected: `[]` unless the game is found; otherwise one instance lookup per definition of the game |
| Legacy.AchInstsByGameIdMiss | db_objs.py:234-241 | when no game matches, the original crashes and the corrected version gives `[]` |
| Legacy.AchInstsByGameIdAgrees | db_objs.py:234-241 | unless the game lookup gives a list, both versions agree |
| Legacy.AchInstsByGameIdAsWritten | db_objs.py:234-241 | as written: crashes exactly when the game lookup answers a list; otherwise the intended result |

## Left out

- Files, SQLite connections, `glob`, `os.access`, argument parsing, `input()`, printing and `AsciiTable` rendering are not modelled. The database is a value. Answers to `input()` are a parameter. The unlocker's arguments are a record.
- `run()` of the unlocker, its `__init__` file probing, `dump` and `__repr__` are left out because they are I/O and printing.
- `show_games`, `show_players`, `show_ops`, `show_achs` and `show_game_info` are left out: they only render lookups that are modelled.
- `find_achievements` prints `print_string(w)` with an instance where a width is expected. That raises TypeError whenever an instance exists; the model stops at the list it returns, which is computed before the printing.
- Unlocker.IncrementValue: Python's recursion limit is not modelled, so running out of answers stands for it. `find_game`'s recursion limit is modelled as a depth parameter.
- Structure.RunChanger: `datetime.fromtimestamp` is a parameter, so only whether it succeeds is stated.
- Values.Lower: only ASCII letters are lowered, as SQLite's `lower` does. Python's full Unicode case folding is not modelled.
- SQL quoting is not modelled: a value containing `'` or `%` would change the query.
- SQL type affinity is approximated: a cell matches when its text equals the value's text.
- Unlocker.Minus: floats are not modelled, so subtracting anything but two integers crashes.
- The `_id` column of each table is taken to be an integer primary key, as the unlocker assumes.
- Database.NextOpId: an id can be reused after the row with the largest id is deleted, as the code does. The model does not promise ids that are never reused.
- Cli.Batch: an abort inside a batch ends the whole program (`ex` exits), so the run stops at the first failure. It does not skip the failure and go on.
- Cli.UnlockStep: its crash for an invalid queue cannot be reached from a valid database.
- Cli.SortOn: TimSort is modelled by an insertion sort with the same specification (sorted, stable, a permutation).
- `show_all_games` writes the package name into the game's `display_name`; the model keeps it as a local value.
- `main` stores `-p` in `Dummy.player`, which the unlocker never reads. It is not modelled.
- Legacy.Load: the legacy loader has no `order by`, so its order is the table's storage order, taken as given.
- Values.IsDigitString: Python's `str.isdigit()` also accepts non-ASCII digits (superscripts, Arabic-Indic digits and so on); the model accepts only `0`-`9`, so such a game argument is treated as a package name rather than an id.
- Database.KeyColumn: only the `id` property and the pending-op field names are modelled as keys. Python's `getattr` also resolves other names: `_args` (the row tuple), bound methods such as `values`, and class attributes such as `__class__`. The model treats all of these as missing and crashes.
- Database.DbFile.RemoveDuplicatePendingOps: inherits KeyColumn's gap. With `_args` or a method name the source removes nothing. With `__class__` it keeps only the first row. The model crashes on these names instead.
- Cli.AllGamesLine: cells are taken as their `str()` text. The source puts the package name and the display name into the row raw, and the display name falls back to the instance's package name. A NULL package name of an installed instance therefore stays `None` in the source row, and sorting on that column (`--sort "package name"` or `--sort name`) raises TypeError when `None` meets a string. In the model the cell is the text "None" and the line sorts.
- Legacy.LegacyDecode: values other than integers, strings and NULL (floats, blobs) are opaque and always count as truthy. So a stored `0.0` or an empty blob is kept, where the legacy `args[i] or None` turns it into None. NoFalsyFields and LegacyAgreesOnTruthyRows are stated for this model of truthiness.

## Findings

| source | as written | input that shows it | evidently intended | confidence | as-written member | corrected member |
|---|---|---|---|---|---|---|
| gpau_objects/gpau.py:140-146 | `unlock_achievement` reads `self.args.quiet`, but the `Dummy` built by `main` (nicecli.py:253-256) has no `quiet` attribute, so AttributeError is raised | `nicecli -i <db> --unlock <id>` for any achievement whose instance, game, game instance and client context all exist | the unlocker treats the missing option as "not quiet" and queues the row | not executed | Cli.SessionArgsQuiet | Cli.SessionArgs |
| gpau_objects/gpau.py:198-199 | `-pid` is declared without `nargs` (gpau.py:20), so `player_id[0]` is the first character of the id | `-pid g1234` queues player `g` | the whole external player id is queued | not executed | Unlocker.PlayerIdTruncated | Unlocker.PlayerId |
| db_objs.py:211-216 | `findby(..., first=True)` returns `[]` on a miss (db_objs.py:292); `[] is not None` holds, so `udef.game_id` raises AttributeError | an instance whose `definition_id` matches no definition in a non-empty table | a miss gives None, and no game is looked up | not executed | Legacy.GameByAchInstMiss | Legacy.GameByAchInst |
| db_objs.py:234-241 | the same `[]` from `game_by_id` passes `is not None`, so `ugame.id` raises AttributeError | a game id that matches no game in a non-empty table | a miss gives `[]` | not executed | Legacy.AchInstsByGameIdMiss | Legacy.AchInstsByGameId |
