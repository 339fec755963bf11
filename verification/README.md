# A verified model of the notebook's question bank

The notebook keeps a bank of questions sorted into a tree of groups. The bank is held three times
(group tree, id-to-name index, persisted id list), each group's questions live in a store that is a
file on disk, and a small user interface walks the tree with Next and Previous. This project models
that code in Dafny and proves what it keeps over all runs.

Check it with `dafny verify dfyconfig.toml`.

## How it is organised

- `Bytes`: strings as bytes, UTF-8 as a predicate of the bytes, paths joined with a backslash.
- `Wire`, `Messages`: the generated serializer. `Wire` gives the bytes, the parse tables, merging
  and sizes as functions; `Messages` has the message objects, whose loops are proved against them.
- `Records`, `Stores`: the lists of records (linear search, swap with last), the store object and
  the disk it is opened from and closed to.
- `Groups`, `Bank`: the group tree, replacing one node of it, and every call on a bank as a function
  from state to state, disk included. A failing directory operation is a boolean of the call.
- `Agreement`: which calls keep tree, index and list in agreement, exactly.
- `Layout`, `Calls`: names, paths and files of a bank whose directories lie as its tree says
  (`Settled`), and exactly which calls keep it so.
- `Reload`, `Restart`: `uninit` followed by `init` of a fresh object, for every order in which the
  directory may list and the hash map may iterate.
- `Parents`, `PlainBank`, `Lives`: which group is whose subgroup, as a set of edges; the bank as a plain
  map from id to parent, name and questions, with an operation of its own for every call, renames
  included; whole lives of calls and restarts as runs of that map.
- `Places`, `Aliases`: following paths instead of comparing their bytes; that the two agree over whole
  lives of the calls considered, and what happens with the names and ids that are left out.
- `Moves`, `Renamed`: what a rename does to the disk and to the stores in memory, and what a restart
  after it brings back.
- `FromDisk`, `Clashes`: what `init` makes of any directory and any list; exactly when a restart after any
  calls agrees again, and after which renames.
- `Departures`: directories that cannot be made, every departure listed below at states a few calls from
  the first start, and the child loop of `deleteGroup` as written.
- `Rebuild`, `Walks`: `init` folded over any preorder listing gives back exactly the listed tree, and
  every saved bank has such a listing as a directory walk.
- `QuestionBank`: the objects of `src/notebook_impl.cpp`, loops and recursion as written, proved
  against the functions of `Bank` and `Reload`.
- `Walker`, `Hanging`, `QuestionTree`: the Next/Previous loop, what it finds, exactly on which trees
  it hangs, sessions of presses, and the tree of items a bank is shown as.
- `HangingBank`: a bank six calls from the first start on which Previous hangs after Next.
- `CallOnce`: the one-time initialisation protocol, any number of threads, every interleaving.

`Agree` says that tree ids are distinct, that they are the keys of index and list, and that the list
has the tree's names. `Settled` adds that the index has them too, that all names are distinct and
usable, that every path is its parent's path plus backslash plus name, that no group's directory lies
where a file belongs, and that the directories and files under the root are the groups' and the live
stores'; the rest of the disk may hold anything. `Sound` adds to `Agree` only that every group's path is
the root's path and valid names, that ids are free of separators, and that stores are open at their files
with distinct ids; renames and failing directories keep it. `Welcome`, `Proper` and `Regular` are
conditions on a call that its caller can check beforehand: `Welcome` keeps `Agree`, `Proper` keeps
`Settled`, and `Regular` calls answer as the plain map does. `Regular` asks, beyond `Welcome`, that a new
name is a directory entry of its own and a new id free of separators, that a directory that is there
counts as made, that the store of a question call is open or opens empty, and that no store of a deleted
group that is closed empty lies at a directory.

The disk lists files and directories by the bytes of their paths. That is the disk the calls see as long as
paths that differ in their bytes lead to different places, which is so on every path a sound bank uses
(`Aliases.UsedPathsArePlaces`) and stays so over every life of regular calls and restarts
(`Aliases.LifeKeepsClean`).

## Where the code departs from what it is for

- The child loop of `deleteGroup` (src/notebook_impl.cpp:367-370) erases from the vector it walks.
  Read literally, with iterators as positions, it is defined exactly when no group of the deleted
  subtree has two subgroups, and then it equals "delete every child" (`Agreement.LiteralDeleteIffThin`;
  `Departures.LiteralDeleteFails` gives settled states where it is not defined, three calls away from the
  first start). All other results use "delete the first child until there is none".
- `deleteGroup` erases from index and list before it looks for the id
  (src/notebook_impl.cpp:346-347). The three copies stay in agreement exactly when the id is a
  subgroup of the parent named, or unknown, or the parent is unknown (`Agreement.DeleteKeepsAgreement`).
  A subgroup of a group, deleted under the root, breaks it (`Departures.WrongParentFails`).
- `addGroup` accepts the empty id, which is the root's. Agreement is kept exactly when the id is not
  empty, or the name is taken, or the parent is unknown (`Agreement.AddKeepsAgreement`); a first group
  with the empty id breaks it (`Departures.EmptyIdFails`).
- `updateGroup` (src/notebook_impl.cpp:404-407) changes the name in tree and list but leaves the
  name in the index and every path. The index agrees afterwards exactly when the name did not
  change (`Agreement.UpdateKeepsAgreement`, `Departures.RenameFails`). To a caller only the name changes
  (`PlainBank.RenameSteps`). On the disk, a store opened before, of any group, can be written back exactly
  when the name did not change, or its group is neither the renamed one nor below it and the new directory
  is not at the store's file; the same for the id list (`Moves.RenameStrandsStores`). A group renamed to
  its parent's id plus ".dat" blocks the parent's store: the parent's question calls no longer answer
  (`Departures.RenameBlocksQuestions`). A restart brings back the new name and, below the renamed group,
  the questions as last written before the rename (`Renamed.RenameComesBack`). Until then nothing is left
  at the old paths, so a second rename there finds no directory (`Moves.RenamedIsGone`).
- `updateGroup` accepts a name that another group has, and changes the list before it tries the disk. After
  a restart the copies agree exactly when the name did not change, or the directory was moved and no other
  group has the name (`Clashes.RenameAgreesIff`; settled exactly when the name is new in the whole tree,
  `Clashes.RenameSettlesIff`; `Clashes.TakenNameHere` is two calls from the first start). In general a
  restart after any calls agrees exactly when the directories on the disk have the names of the list, none
  twice (`FromDisk.RestartAgreesIff`).
- `addGroup` takes any name. A bank stays settled exactly when the name is one path component that is
  not empty, "." or "..", is not the root's, and is not the parent's id plus ".dat" ("ids.dat" in the
  root), and the id is one component that is not empty or "ids" (`Calls.CallSettles`;
  `Departures.MisfitFails` has every other name and id, in a new bank).
- A group named "", "." or ".." gets its parent's directory or the one above it, which is there
  (src/notebook_impl.cpp:335-336). Deleting it removes that directory with everything in it
  (src/notebook_impl.cpp:374-378): in the root, the whole bank, of which memory still shows every group;
  nothing can be saved any more and the next start is empty (`Aliases.AddThenDelete`,
  `Aliases.DotsTakeAll`). The window for group names turns down only the empty text
  (ui/group_dashboard.cpp:29). A name leads to one entry in its parent's directory exactly when it is valid
  (`Places.NameLeadsIntoDirIff`).
- An id with separators puts the group's store file outside the group's directory
  (`Aliases.FileIsAtHomeIff`): with the id `..\h\H` it is the file of group `H` in the directory `h`
  beside it (`Aliases.FileOfAnother`), so that a question call on one group answers from the other's.
- `addGroup` whose directory cannot be made fails but keeps its edits (src/notebook_impl.cpp:326-340).
  A restart forgets the group, whatever its name and id, while both stay taken
  (`Departures.UnmadeGroupIsForgotten`).
- A string that is not UTF-8 can be saved but not read back. Restart and reopening succeed exactly when all
  strings saved are UTF-8 (`Restart.RestartKeepsTheBank`, `Stores.CloseThenOpen`, `Wire.ListRoundTrip`).
- `findTreeWidgetItem` leaves its step at 0 when it descends onto an empty group
  (ui/notebook.cpp:444-454) and then turns for ever. `Walker.LoopEndsIffStops` gives the exact condition
  for one search, `Hanging.AllStopIffNoTrap` and `QuestionTree.ButtonStopsIffUntrapped` for all searches
  from a question of a tree and of a bank, `Hanging.StopsAnywhereIffNoSnag` for those from any item.
- Previous after a successful Next need not come back: where group 1 holds a group of one question and
  then an empty group, and group 4 holds one question, Next goes from the first question to the second
  and Previous from there turns for ever (`Walker.LastMayNotReturn`; `HangingBank.LastMayHang` for the
  bank). It comes back exactly when Previous stops (`Walker.LastUndoesNext`).

## Model

| member | source | states |
|---|---|---|
| `Restart.RestartKeepsTheBank` | src/notebook_impl.cpp:7-103 | uninit then init of a fresh object, for every settled bank and every order of directory and hash map: init succeeds exactly when all strings saved are UTF-8, and then the tree is the same up to sibling order, index and list are equal, the map from groups to questions is equal (empty stores, which left no file, included), and the bank is settled again |
| `Lives.LifeRefines` | src/notebook_impl.cpp:35-222 | over any sequence of regular calls, renames and failing directories included, and of restarts of a settled readable bank, all replies and the final state are those of the plain map (id to parent, name, first name, questions) run by its own operations on the same sequence, and the state stays sound |
| `PlainBank.CallSteps` | src/notebook_impl.cpp:111-222 | from every sound state, after any renames, every regular call gives the flag and answer of its operation on the plain map, turns the map the state stands for into that operation's result, and leaves the state sound |
| `Places.BytesArePlaces` | src/notebook_impl.cpp:295-332 | of paths made of one root and valid names, two lead to the same place only if they are equal byte by byte, and one leads below another exactly when it is under it |
| `Places.NameLeadsIntoDirIff` | src/notebook_impl.cpp:332-336 | joined to a directory, a name leads to one entry in it if and only if it is one component, not empty, "." or ".." |
| `Aliases.UsedPathsArePlaces` | src/notebook_impl.cpp:293-378 | the paths of groups, stores, the list, new groups and new names of a sound bank are such paths |
| `Aliases.EntriesArePlaces` | src/notebook_impl.cpp:295-378 | on a disk that lists the bank's directory under one path, looking an entry up, or all below a path, by bytes finds what following the paths finds |
| `Aliases.LifeKeepsClean` | src/notebook_impl.cpp:35-222 | over every life of regular calls and restarts the disk stays such a disk |
| `Aliases.RemovedIsRemoved` | src/notebook_impl.cpp:374-378 | remove_all with the path followed is the removal the calls are modelled with |
| `Aliases.AddThenDelete` | src/notebook_impl.cpp:324-389 | adding a group to the root and deleting it, under any name and id, gives back tree, index and list |
| `Aliases.DotsTakeAll` | src/notebook_impl.cpp:332-378 | but deleting a group named "", "." or ".." with its path followed removes the bank's directory: nothing is saved any more, and the next start finds an empty bank |
| `Aliases.FileIsAtHomeIff` | src/notebook_impl.cpp:295 | a group's store file lies in the group's directory if and only if its id is free of separators |
| `Aliases.FileOfAnother` | src/notebook_impl.cpp:295 | with an id that leads up and into another group's directory, two groups have one store file under two paths |
| `PlainBank.RenameSteps` | src/notebook_impl.cpp:391-422 | updateGroup with any arguments, whether or not the directory can be moved: the flag says whether a subgroup of that parent was found and moved, and on the map one name changes and nothing else |
| `PlainBank.DeleteSteps` | src/notebook_impl.cpp:344-389 | deleting a subgroup takes out of the map exactly the ids from which climbing parents gets to the deleted id |
| `PlainBank.SubtreeIsKeys` | src/notebook_impl.h:10-25 | those ids are the ones of the subgroup's nodes |
| `PlainBank.QuestionsStepIffOpenable` | src/notebook_impl.cpp:289-322 | all question calls on a known group answer and move as on the map if and only if its store is open or opens empty |
| `PlainBank.StandsIsAbs` | src/notebook_impl.h:10-25 | a map that has every subgroup as edge and index tell it, and no other id, is the one the state stands for |
| `Lives.ProperLifeSettles` | src/notebook_impl.cpp:35-222 | from a settled bank a life of proper calls and restarts is such a life, and ends settled |
| `Lives.RestartSteps` | src/notebook_impl.cpp:7-103 | a restart of a readable bank keeps the plain map: every id its parent, name and questions |
| `Lives.ParentByPath` | src/notebook_impl.cpp:44-76 | in a laid tree the directory of a group's path is its parent's path, so the path alone tells the parent |
| `Restart.InitRestores` | src/notebook_impl.cpp:42-78 | every node of the reloaded tree is a saved node (without its store if that was empty) and the other way round, ids and names unique, paths rebuilt |
| `Restart.InitLoads` | src/notebook_impl.cpp:7-91 | the same for any state, settled or not, whose closing leaves a given tree on the disk: init succeeds exactly when the strings of that tree and of the list are UTF-8, and brings back that tree |
| `Restart.LoadsTheTree` | src/notebook_impl.cpp:42-78 | the walk in any order over a disk that holds a tree builds that tree, up to sibling order |
| `Restart.LoadsPrefix` | src/notebook_impl.cpp:42-78 | after any prefix of the directory walk: success so far exactly when every file listed so far is readable, and the tree built is exactly the listed part of the saved one |
| `Restart.MirrorsAreAlike` | src/notebook_impl.h:10-25 | two placed trees with the same nodes, names and paths distinct, are the same tree up to the order of siblings |
| `Restart.FirstStart` | src/notebook_impl.cpp:7-38 | opening a bank on a directory that is empty, or not there yet and could be made, succeeds and gives a settled, empty bank, whatever else is on the disk |
| `Moves.RenameStrandsStores` | src/notebook_impl.cpp:391-422 | after a rename to a path that was free, every store opened before can be written back if and only if the name did not change, or the store's group is neither the renamed one nor below it and the new path is not the store's file; the id list if and only if the name did not change or the new path is not its file |
| `Moves.RenameBlocksStore` | src/notebook_impl.cpp:289-308 | a subgroup renamed to its parent's store file: the parent's store opened empty before and cannot be opened afterwards |
| `Renamed.RenameComesBack` | src/notebook_impl.cpp:391-422 | a rename to a name that is new and fits, then uninit and init: init succeeds exactly when all strings are UTF-8, and gives a settled bank with the branch at its new path under its new name, the questions in it as their files had them before the rename, and every other group as it was in memory |
| `Moves.RenamedIsGone` | src/notebook_impl.cpp:391-422 | after a rename nothing is at the old path or below it, which is where memory still looks |
| `FromDisk.InitAgreesIff` | src/notebook_impl.cpp:7-91 | init on any disk, list and walk: when it comes up, tree, index and list agree if and only if the directories listed and the list have the same names, none twice on either side, and the list no id twice and not the empty one; and names are unique in the tree if and only if no two directories, and no directory and the root, share one |
| `FromDisk.RestartAgreesIff` | src/notebook_impl.cpp:7-103 | uninit then init after any calls that kept the agreement: the copies agree if and only if the directories on the disk have the list's names, none twice |
| `Clashes.RenameAgreesIff` | src/notebook_impl.cpp:391-422 | after a rename of a settled bank to any name, moved or not, and a restart that comes up, the copies agree if and only if the name did not change, or the directory was moved and no other group has the name |
| `Clashes.RenameSettlesIff` | src/notebook_impl.cpp:391-422 | with a valid name that is no file name of the parent and the directory moved, the bank is settled after the restart if and only if the name did not change or no node has it |
| `Clashes.TakenNameFails` | src/notebook_impl.cpp:391-422 | a bank without stores whose subgroup took another group's name comes up after the restart, and its copies do not agree |
| `Clashes.TakenNameHere` | src/notebook_impl.cpp:391-422 | for one: a group and a subgroup of it renamed to the group's name, two calls from the first start |
| `Departures.UnmadeGroupIsForgotten` | src/notebook_impl.cpp:324-342 | after an accepted addGroup, of any name and id, whose directory could not be made, a restart succeeds exactly when all strings are UTF-8 and brings back tree and questions from before the call, while no addGroup with that id or name is accepted any more |
| `Departures.WrongParentFails` | src/notebook_impl.cpp:346-358 | two calls from the first start: a subgroup deleted under the root leaves index, list and tree in disagreement |
| `Departures.EmptyIdFails` | src/notebook_impl.cpp:324-342 | a first group with the empty id does too |
| `Departures.MisfitFails` | src/notebook_impl.cpp:324-342 | a first group whose name or id does not fit, or whose directory is not made, is entered all the same, and the bank is no longer settled |
| `Departures.RenameFails` | src/notebook_impl.cpp:404-407 | the first group renamed: tree and list agree, the index does not |
| `Departures.RenameBlocksQuestions` | src/notebook_impl.cpp:289-308 | two calls from the first start: before the rename of the subgroup to the group's store file all question calls on the group answer as the map, afterwards one does not |
| `Rebuild.RebuildInvertsListing` | src/notebook_impl.cpp:42-78 | folding the walk's loop over any preorder listing of a tree of distinct names, from the bare root, with an index of distinct names and the stores' files on the disk, gives exactly that tree: sibling order, ids found by name, stores read back |
| `Rebuild.LoadsGroup` | src/notebook_impl.cpp:229-272 | the same for one group hanging anywhere in a tree: its listing fills in exactly that group and changes no other node |
| `Rebuild.ListingIsPreorder` | src/notebook_impl.cpp:42-78 | flattening a tree gives a preorder listing, so rebuilding inverts flattening |
| `Walks.SavedBankHasAWalk` | src/notebook_impl.cpp:42-78 | the flattening of a settled bank's tree, behind the id list's entry, is a walk of the directory after uninit: everything once, directories before what is in them |
| `Walks.RestartGivesTheTree` | src/notebook_impl.cpp:7-103 | along that walk init gives back the very tree, sibling order included, without the stores that had no questions |
| `Reload.SavedStore` | src/notebook_impl.cpp:274-287 | after uninit the file of a group whose store was in memory is there exactly when the group has questions, and holds their encoding; any other group's file is as it was |
| `Reload.SavedFile` | src/notebook_impl.cpp:93-103 | after uninit no file is left under the root but the id list's and those of groups with questions |
| `Reload.SavedHolds` | src/notebook_impl.cpp:93-103 | after uninit the disk under the root is exactly the tree's: its directories, and a file for every group with questions that opens to them |
| `Reload.LoadDir` | src/notebook_impl.cpp:56-78 | a directory entry of the walk adds exactly its group, with its saved id, under its parent |
| `Reload.LoadFile` | src/notebook_impl.cpp:46-55 | a file entry of the walk is loaded exactly when readable, and then adds exactly its store to its group |
| `Bank.VisitIsOneEdit` | src/notebook_impl.cpp:424-450 | with unique keys the recursive search is one edit at the one node with that key and nothing when there is none; a failed edit sends the search on but never causes a second edit |
| `Bank.CtrlIsOneEdit` | src/notebook_impl.cpp:424-450 | ctrlGroup from the root: one edit at the node whose id is pid, the root when pid is empty, no change and failure when pid is absent |
| `Agreement.CallKeepsAgreementIffWelcome` | src/notebook_impl.cpp:111-222 | for every call and every agreeing state: tree, index and list still agree afterwards if and only if the call was welcome |
| `Agreement.RunKeepsAgreement` | src/notebook_impl.cpp:194-222 | every run of welcome calls keeps tree, index and list in agreement, and the index's names too when nothing was renamed |
| `Agreement.AddKeepsAgreement` | src/notebook_impl.cpp:194-212 | addGroup, whether or not the directory can be made, keeps the agreement if and only if it is welcome |
| `Agreement.DeleteKeepsAgreement` | src/notebook_impl.cpp:344-389 | deleteGroup keeps the agreement if and only if the id is a subgroup of the parent named, or unknown, or the parent is unknown |
| `Agreement.UpdateKeepsAgreement` | src/notebook_impl.cpp:391-422 | updateGroup always keeps tree and list in agreement; the index's names agree afterwards if and only if nothing was renamed |
| `Agreement.QuestionKeepsAgreement` | src/notebook_impl.cpp:111-192 | no question call, whether it opens a store or fails, disturbs the agreement |
| `Agreement.DeleteTakesSubtree` | src/notebook_impl.cpp:344-389 | deleting a subgroup takes exactly the nodes of its subtree from the tree and exactly their ids from index and list; all else is unchanged |
| `Agreement.DeleteEffect` | src/notebook_impl.cpp:344-389 | for any tree, unique ids or not, the recursion removes from index and list exactly the ids of the deleted subtree |
| `Agreement.LiteralDeleteIffThin` | src/notebook_impl.cpp:360-386 | the child loop as written is defined if and only if no group of the subtree has two subgroups, and then does what deleting every child does |
| `Departures.LiteralDeleteFails` | src/notebook_impl.cpp:367-370 | from the first start, a group and two subgroups of it, under any usable names and ids, give a settled bank on which deleting the group is a proper call and the loop as written reads past the end |
| `Departures.LiteralDeleteFailsHere` | src/notebook_impl.cpp:367-370 | for one: bank "B", group "c" with id 3, subgroups "a" and "b" with ids 1 and 2 |
| `Layout.PathsDiffer` | src/notebook_impl.cpp:295-332 | in a settled bank no two groups share a path and no two stores share a file |
| `Layout.NewPathIsFree` | src/notebook_impl.cpp:332-340 | the path of a new group with a new, usable name that is no file name of its parent is taken by nothing on the disk |
| `Layout.StoreFileIsFree` | src/notebook_impl.cpp:293-308 | a group without a store has no file yet, so opening one late gives an empty store; its directory is there to write to |
| `Calls.CallSettles` | src/notebook_impl.cpp:111-222 | a settled bank is settled after a call if and only if the call is proper: a new group accepted fits and gets its directory, an id to delete is a subgroup of the parent named or unknown, a rename changes no name, and question calls always |
| `Calls.AddSettlesIff` | src/notebook_impl.cpp:194-212 | addGroup leaves a settled bank settled if and only if it is refused, or the name and id fit and the directory was made |
| `Calls.AddSettles` | src/notebook_impl.cpp:194-212 | addGroup of a fitting group succeeds exactly when id and name are new and the parent is there; then the tree gains exactly one node, at the parent's path plus name; otherwise nothing changes |
| `Calls.DeleteSettles` | src/notebook_impl.cpp:344-389 | after a delete of a subgroup the bank is settled: the subtree's directories and files are gone, those of all other groups are still there |
| `Calls.DeleteDisk` | src/notebook_impl.cpp:360-384 | closing the stores, deleting below and removing the directory together touch nothing outside the deleted group's directory |
| `Calls.QuestionCallRefines` | src/notebook_impl.cpp:111-192 | add, delete, query and update of questions through the tree: flag, answer and new contents are those of the map operation, every other group keeps its contents, opening a store late shows nowhere, an unknown group changes nothing |
| `Calls.AddContents` | src/notebook_impl.cpp:324-342 | a new group starts with no questions and no other group's questions change |
| `Calls.DeleteContents` | src/notebook_impl.cpp:344-389 | a delete drops exactly the contents of the deleted subtree's groups |
| `QuestionBank.QuestionBankImpl.CtrlGroup` | src/notebook_impl.cpp:424-450 | the find_if recursion over the subgroups computes the search of `Bank` on tree, index, list and disk together |
| `QuestionBank.QuestionBankImpl.AddGroupTo` | src/notebook_impl.cpp:324-342 | edits index, list and tree first and the directory last; new shared state and result are those of `Bank.AddIn` |
| `QuestionBank.QuestionBankImpl.DeleteGroupFrom` | src/notebook_impl.cpp:344-389 | the recursive delete, stores closed, children first, directory removed: new shared state and group are those of `Bank.DeleteIn` |
| `QuestionBank.QuestionBankImpl.UpdateGroupIn` | src/notebook_impl.cpp:391-422 | name changed in list and tree, directory moved, index and paths left |
| `QuestionBank.QuestionBankImpl.AskContext` | src/notebook_impl.cpp:289-322 | the search for a store by group id, opening it when the group has none, and the call on it, compute the search of `Bank` |
| `QuestionBank.QuestionBankImpl.InitQuestionBank` | src/notebook_impl.cpp:229-272 | the recursion by parent name attaches one store or one group, with the first id the hash map lists for its name, at the named node and changes nothing else |
| `QuestionBank.QuestionBankImpl.Init` | src/notebook_impl.cpp:7-91 | the method's loops, from opening the id list to the end of the walk, compute `Reload.Init` for the order in which the hash map iterates, failures included |
| `QuestionBank.QuestionBankImpl.Uninit` | src/notebook_impl.cpp:93-103 | the list and every store of the tree are closed: the disk is the saved one and the tree keeps no store |
| `QuestionBank.QuestionBankImpl.AddGroup` | src/notebook_impl.cpp:194-212 | the public call is the state function that the lemmas above are about |
| `QuestionBank.QuestionBankImpl.DeleteGroup` | src/notebook_impl.cpp:214-217 | likewise |
| `QuestionBank.QuestionBankImpl.UpdateGroup` | src/notebook_impl.cpp:219-222 | likewise |
| `QuestionBank.QuestionBankImpl.OnQuestion` | src/notebook_impl.cpp:111-192 | likewise for the four question calls, with flag and answer |
| `Stores.QuestionCallsRefineMap` | src/question_answer_impl.cpp:181-292 | for every open store: flags, answers and new contents are those of the map operations, a failure changes nothing, ids stay distinct |
| `Stores.GroupCallsRefineMap` | src/question_answer_impl.cpp:103-179 | the same for the group entries: only they change, and nothing does on failure |
| `Stores.CloseThenOpen` | src/question_answer_impl.cpp:7-59 | close then open in the same mode succeeds exactly when all strings are UTF-8 and then restores the list, the empty one through the removed file |
| `Stores.EmplacedKeepsFirst` | src/question_answer_impl.cpp:66-80 | getGroups: entries already in the map stay, else the first record with an id gives its name |
| `Stores.QuestionAnswerStore.Open` | src/question_answer_impl.cpp:7-42 | the object's open against the store function, every branch |
| `Stores.QuestionAnswerStore.Close` | src/question_answer_impl.cpp:44-59 | the disk after close: no file for an empty store, else the encoded lists |
| `Stores.QuestionAnswerStore.GetGroups` | src/question_answer_impl.cpp:66-80 | the loop computes the emplaced map, or fails when not open |
| `Stores.QuestionAnswerStore.DeleteGroup` | src/question_answer_impl.cpp:129-153 | search, swap with last and drop, in place |
| `Stores.QuestionAnswerStore.AddQuestion` | src/question_answer_impl.cpp:181-208 | appended exactly when the id is absent |
| `Stores.QuestionAnswerStore.DeleteQuestion` | src/question_answer_impl.cpp:210-234 | search, swap with last and drop, in place |
| `Stores.QuestionAnswerStore.QueryQuestion` | src/question_answer_impl.cpp:236-258 | the answer of the first question with that id, or failure |
| `Stores.QuestionAnswerStore.UpdateQuestion` | src/question_answer_impl.cpp:260-292 | overwritten in place exactly when the id is present and not changed |
| `Records.RemoveRefines` | src/question_answer_impl.cpp:210-234 | swap-with-last removal keeps ids distinct and takes exactly that id from the map |
| `Records.RemoveDropsOne` | src/question_answer_impl.cpp:129-153 | for any list, removal drops as a multiset exactly the first record with that id |
| `Records.AddRefines` | src/question_answer_impl.cpp:181-208 | append-if-absent keeps ids distinct and is insert-if-absent on the map |
| `Records.OverwriteRefines` | src/question_answer_impl.cpp:260-292 | overwriting keeps ids distinct and changes one entry of the map |
| `Records.QuestionsRoundTrip` | src/xn.pb.cc:661-738 | decoding the bytes of a question list gives the list back exactly when every string is UTF-8, and fails otherwise |
| `Records.GroupsRoundTrip` | src/xn.pb.cc:1192-1269 | the same for group lists |
| `Wire.ListRoundTrip` | src/xn.pb.cc:661-738 | parsing undoes serialization for lists of records of any arity up to 15, empty fields and all-empty records included, exactly when all strings are UTF-8 |
| `Wire.RecordRoundTrip` | src/xn.pb.cc:343-468 | the same for one record |
| `Wire.RecordDecodesToMerge` | src/xn.pb.cc:511-532 | parsing a record's bytes on top of another record merges: a non-empty field replaces, an empty one keeps |
| `Wire.RecordConcat` | src/xn.pb.cc:343-388 | for any bytes the parser accepts, parsing two inputs concatenated is parsing one on top of the other |
| `Wire.ListConcat` | src/xn.pb.cc:768-779 | for any bytes the parser accepts, the lists of two inputs concatenated are appended |
| `Wire.ListDecodesToAppend` | src/xn.pb.cc:768-779 | parsing a written list on top of another appends it |
| `Wire.RecordSizeIsLength` | src/xn.pb.cc:474-508 | ByteSizeLong of a record is the length of its bytes |
| `Wire.ListSizeIsLength` | src/xn.pb.cc:744-765 | ByteSizeLong of a list is the length of its bytes, so every nested prefix delimits its record |
| `Wire.ReadVarintUndoes` | src/xn.pb.cc:415-468 | reading a written varint gives the number and leaves exactly the rest, within ten bytes for 64-bit values |
| `Messages.RecordMessage.ByteSizeLong` | src/xn.pb.cc:474-508 | the accumulating loop returns and caches the record's size |
| `Messages.RecordMessage.InternalSerialize` | src/xn.pb.cc:415-468 | appends exactly the record's encoding to the target |
| `Messages.RecordMessage.MergeImpl` | src/xn.pb.cc:511-532 | in place, non-empty fields of the other message win |
| `Messages.RecordMessage.CopyFrom` | src/xn.pb.cc:534-539 | the fields become the other message's, self-copy included |
| `Messages.RecordList.ByteSizeLong` | src/xn.pb.cc:744-765 | returns the list's size and leaves every item's cached size right |
| `Messages.RecordList.InternalSerialize` | src/xn.pb.cc:711-738 | with cached sizes right, appends exactly the list's encoding, prefixes written from the cache |
| `Messages.RecordList.Serialize` | src/xn.pb.cc:711-765 | sizes first, then bytes: the encoding, and its length is the cached size |
| `Messages.RecordList.MergeImpl` | src/xn.pb.cc:768-779 | appends fresh copies of the other list's items and keeps its own |
| `Walker.LoopEndsIffStops` | ui/notebook.cpp:411-458 | the loop ends if and only if nothing lies ahead or the nearest item that is not an empty group leads to a question by first (last) children alone |
| `Walker.NeverStops` | ui/notebook.cpp:444-454 | otherwise the loop is still running after any number of turns |
| `Walker.NoEmptyEdgeStops` | ui/notebook.cpp:444-454 | when no group but the root begins (for Previous: ends) with an empty group every search stops |
| `Walker.TurnSound` | ui/notebook.cpp:418-455 | one turn keeps the set of questions still ahead, or ends with the nearest one, or with null when there is none |
| `Walker.TurnProgress` | ui/notebook.cpp:418-455 | every turn enters a new item or climbs (lexicographic measure), except the one that stays on an empty group |
| `Walker.QuestionsAreListed` | ui/notebook.cpp:411-458 | the left-to-right list holds exactly the question items, each ahead of the ones after it |
| `Walker.NearestIsNeighbour` | ui/notebook.cpp:411-458 | the nearest question ahead of (behind) the k-th is the neighbour in that list, null exactly at the end |
| `Walker.ReturnsNearest` | ui/notebook.cpp:411-458 | for any start the loop returns exactly when `Stops` holds, and then the nearest question ahead, or null when there is none |
| `Walker.PressFromQuestion` | ui/notebook.cpp:93-119 | from the k-th question the loop returns its neighbour in the list, or null at the end, if and only if it stops |
| `Walker.NextVisitsAll` | ui/notebook.cpp:107-119 | pressing Next from the first question until it reports the end runs through if and only if Next stops at every question, and then it has shown every question exactly once, left to right |
| `Walker.NextReadsOut` | ui/notebook.cpp:107-119 | it does where no group but the root starts with an empty group |
| `Walker.LastUndoesNext` | ui/notebook.cpp:93-119 | after a Next that returned, Previous returns to where Next was pressed if and only if it stops, and returns nothing else |
| `Walker.LastMayNotReturn` | ui/notebook.cpp:93-119 | a tree on which Next returns and Previous from there turns for ever |
| `Hanging.AllStopIffNoTrap` | ui/notebook.cpp:411-458 | a button returns from every question of a tree if and only if no two siblings, in its direction, are one that holds a question and one that is no empty group and leads by first (last) children to an empty group |
| `Hanging.StopsAnywhereIffNoSnag` | ui/notebook.cpp:411-458 | a button returns from every item of a tree, groups included, if and only if no item with a sibling before it (after it, for Previous) is no empty group and leads by first (last) children to an empty group |
| `Hanging.LandingIsFirst` | ui/notebook.cpp:424-430 | climbing and stepping sideways passes nothing but empty groups before it lands |
| `Walker.Notebook.FindTreeWidgetItem` | ui/notebook.cpp:411-458 | the loop as written returns what its turns return, which is the nearest question ahead of the start item in the direction asked for, null exactly when there is none, and makes it current |
| `Walker.Notebook.OnBtnClickedNextQuestion` | ui/notebook.cpp:107-119 | Next moves the current item to the nearest question ahead, or reports the end and stays |
| `Walker.Notebook.OnBtnClickedLastQuestion` | ui/notebook.cpp:93-105 | Previous likewise |
| `QuestionTree.InitQuestionTree` | ui/notebook.cpp:377-409 | the loops build subgroups' items first, then one item a question of the group's stores |
| `QuestionTree.TreeIsWellFormed` | ui/notebook.cpp:377-409 | the tree built from any bank is one the walk is defined on: question items have no children |
| `QuestionTree.TreeShowsReading` | ui/notebook.cpp:377-409 | left to right the question items show exactly the bank's questions, subgroups before own questions |
| `QuestionTree.ReadingIsTheBank` | ui/notebook.cpp:377-409 | a question is shown exactly when a store of some group of the bank gives it |
| `QuestionTree.NextReadsTheBank` | ui/notebook.cpp:107-119 | a session of Next presses runs through if and only if Next stops at every question, and then reads out the whole bank in order, one question a press |
| `QuestionTree.ButtonStopsIffUntrapped` | ui/notebook.cpp:93-119 | Next (Previous) returns from every question of a bank if and only if the bank has no subgroup that is not blank, leads by first subgroups (last items) to a blank one, and has a question before (after) it in its parent |
| `QuestionTree.BankIsReadIffUntrapped` | ui/notebook.cpp:107-119 | the whole bank is read out by Next if and only if it has no such subgroup |
| `QuestionTree.EdgesAlike` | ui/notebook.cpp:377-409 | no group below the root begins (ends) with a blank subgroup exactly when no item of the tree below the root begins (ends) with an empty group |
| `QuestionTree.FilledBankIsRead` | ui/notebook.cpp:93-119 | on such a bank a session reads everything out, and Previous undoes every Next |
| `HangingBank.LastMayHang` | ui/notebook.cpp:93-119 | six calls from the first start, under any usable names and ids, give a settled bank on whose tree Next goes from the first question to the second and Previous from there turns for ever |
| `CallOnce.RunsExactlyOnce` | dep/include/absl/base/call_once.h:168-190 | any number of threads, any interleaving, spurious wake-ups included: the callable is started at most once, no two threads are in it, nobody has returned before it finished, the debug check never fails |
| `CallOnce.WordMovesForward` | dep/include/absl/base/call_once.h:139-149 | from every reachable state on the word only moves forward: it leaves kOnceInit once, never returns, and kOnceDone is final |
| `CallOnce.NoWaiterIsLost` | dep/include/absl/base/call_once.h:180-189 | a thread sleeps only while the mark is set or a wake-up is due; while the mark is set some thread is still to finish, its exchange sees the mark and wakes, and after the wake-up nobody sleeps |
| `CallOnce.EveryScheduleEnds` | dep/include/absl/base/call_once.h:214-222 | without any fairness assumption a schedule of n threads has at most 20n + 3 moves, and where no thread can move all have returned and the callable ran exactly once |
| `CallOnce.NextInv` | dep/include/absl/base/call_once.h:168-190 | every atomic step of every thread keeps the protocol's invariant |

## Left out

- Lives.LifeRefines: a restart in a life is of a settled bank; what a restart brings back after a rename is `Renamed.RenameComesBack`, after a directory that could not be made `Departures.UnmadeGroupIsForgotten`. Question calls are of groups whose store is open or opens empty, the exact condition by `PlainBank.QuestionsStepIffOpenable`.
- Renamed.RenameComesBack: one rename, of a settled bank, to a name that no group has and that fits; other names are `Clashes.RenameAgreesIff`. After several renames before a restart whether the copies agree is `FromDisk.RestartAgreesIff`; the tree and the questions that come back are not stated.
- PlainBank.DeleteSteps: an empty open store whose path is a directory, which a rename can bring about, makes the code's remove throw when the directory is not empty; the lives of `Lives.LifeRefines` leave such deletes out (`Regular`).
- A directory that cannot be made is a reply of false; that `create_directory` mostly reports it by an exception, which leaves `addGroup` with its edits made all the same, is not told apart.
- File names that the file system itself changes or forbids: letter case, trailing dots and spaces, device names, other forbidden characters.
- QuestionBank.QuestionBankImpl.DeleteGroupFrom: deletes the first child until there is none where the code erases while iterating; what the loop as written does is stated by `Agreement.LiteralDeleteIffThin`.
- QuestionBank.QuestionBankImpl.CtrlGroup: subgroups and their stores are values handed down and back, where the code edits them through references and shares stores by pointer; that a copy of the tree given out by getQuestionsBank shares its stores with the bank is not captured.
- Stores.QuestionAnswerStore.Open: what a failed parse leaves in the list is not stated; the callers drop such an object.
- Messages.RecordMessage.InternalSerialize: the four and three per-field blocks of the generated code are one loop over the fields.
- Wire.RecordConcat: a field with another wire type or an unknown number makes the parser fail, where the library would keep it as an unknown field; no message of this program has one.
- Messages of 2 GiB and more, arenas, descriptors, the internals of UTF-8 checking and of the table-driven parser.
- Calls on a bank that is not initialised, where the code dereferences a null list.
- Restart.FirstStart: a root directory that cannot be made is a parameter of the method `QuestionBank.QuestionBankImpl.Init`, where it fails.
- Disk faults other than a directory that cannot be made or moved, and `deleteGroup`'s failure branch.
- CallOnce.RunsExactlyOnce: a callable that throws, memory orderings weaker than sequential consistency, and the build without the debug check are not modelled; the spin wait is the transition table, its internals are not part of this model.
- Walker.Notebook.FindTreeWidgetItem: asks for `Stops`, the exact condition under which the loop ends; that it turns for ever otherwise is `Walker.NeverStops`.
- Error texts, widgets, dialogs, icons and the network client of the user interface.
