# Work breakdown structure: tasks and tree layout

This project models the core of a small work-breakdown-structure editor:

- **Tasks** (`tasks.dfy`, module `Tasks`).
  - The technical-id counter and the task record.
  - Parent/child links between tasks, and their removal.
  - A task's saved record: serialising it and reading it back.
  - The registry of all tasks by id, as the class `TaskStore`.
- **The canvas over tasks** (`wbs_graph.dfy`, module `WbsGraph`). It lays out the task hierarchy as a tree, working on task ids.
  - A parent goes at the midpoint of its leftmost and rightmost direct children.
  - `organize` selects the parentless tasks, lays them out from row 1, shifts every row up by one, and moves each handler's rectangle.
  - The lookup from task id to graphical handler.
  - The canvas's `tree_link`, which turns both link errors into `InvalidLink`.
- **The earlier canvas** (`early_wbs_graph.dfy`, module `EarlyWbsGraph`). Tree nodes refer to each other as objects (`TreeNode`, a class whose `parent` and `children` are updated in place).
  - A parent goes at the arithmetic mean of every column in its subtree.
  - `organize` lays out a throw-away metatask and drops the metatask's own entry, so the roots land on row 1 and no row is shifted.
  - `tree_link` has no self-link guard.
  - `GraphicalIdCounter` hands out the ids `graph_0`, `graph_1`, and so on.
- **Layout entries** (`grid.dfy`, module `Grid`), shared by both canvases.
  - An entry is a node with its column and row: a task id in one canvas, a node object in the other.
  - Also here: the concatenation of the loop's subtrees, the offset where the next subtree starts, and the column facts both layouts rely on.
- **Shared helpers** (`base.dfy`, module `Base`): `Option`, `Result`, `Outcome`, and `max`, `min`, `sum` and `mean` over columns.

How the layout is specified:
- The task graph and the node objects are turned into a tree value, `Tree` or `NTree`.
- A ghost rank map makes this possible: it gives every child a lower rank than its parent.
- The layout functions `Place` and `PlaceForest` are pure recursive functions on that tree.
- The imperative `make_tree` loops (`MakeTree` and `MakeSubtrees`) are proved equal to those functions.
- The layout's properties are lemmas about the functions.

## Model

Paths are relative to the repository root.

| member | source | states |
|---|---|---|
| Tasks.TechnicalIdGen.constructor | src/datamodel/object_permanence/tasks.py:7 | the counter starts at 0 |
| Tasks.TechnicalIdGen.ResetTo | src/datamodel/object_permanence/tasks.py:9-11 | the next id handed out is `num` |
| Tasks.TechnicalIdGen.NextNum | src/datamodel/object_permanence/tasks.py:18-20 | returns the current counter and advances it by one |
| Tasks.TechnicalIdGen.SetMinimum | src/datamodel/object_permanence/tasks.py:13-16 | the counter becomes the larger of its value and `num`; it never goes back and is at least `num` afterwards |
| Tasks.Linked | src/datamodel/object_permanence/tasks.py:49-55 | `children_of` fails with `OnlyOneParent` when the task already has a parent, else with `NoChildOfItself` on a self-link; it succeeds exactly when neither applies, and then it sets the task's parent, appends the task's id to the other's children, and changes no other task |
| Tasks.Unlinked | src/datamodel/object_permanence/tasks.py:57-59 | `remove_child` succeeds exactly when the child's id is among the parent's children; it removes the first occurrence, clears the child's parent, and changes no other task; otherwise it fails with `NotAChild` |
| Tasks.IndexOf | src/datamodel/object_permanence/tasks.py:58 | the position `list.remove` deletes: the first occurrence |
| Tasks.RemoveFirst | src/datamodel/object_permanence/tasks.py:58 | `list.remove` drops exactly one copy of the value, as a multiset difference |
| Tasks.LinkedKeepsConsistent | src/datamodel/object_permanence/tasks.py:49-55 | a successful link keeps the registry consistent: every child names its parent back, every parent lists its child, and no child is listed twice |
| Tasks.UnlinkedKeepsConsistent | src/datamodel/object_permanence/tasks.py:57-59 | a successful unlink of a registered child keeps the registry consistent |
| Tasks.RemoveFirstNoDuplicates | src/datamodel/object_permanence/tasks.py:58 | in a list without duplicates, removing a value leaves every other value and no copy of it |
| Tasks.UnlinkUndoesLink | src/datamodel/object_permanence/tasks.py:49-59 | on a consistent registry, `remove_child` after `children_of` restores the registry exactly |
| Tasks.LinkUnderOwnChild | src/datamodel/object_permanence/tasks.py:49-55 | a parentless task linked under its own child passes both guards, and the two then name each other as parent: the guards do not prevent cycles |
| Tasks.Serialize | src/datamodel/object_permanence/tasks.py:41-42 | the record has exactly the four field names and carries the technical id |
| Tasks.RecordId | src/datamodel/object_permanence/tasks.py:46 | reading `technical_id` gives `KeyError` when the key is missing and `TypeError` when the field is not an integer; otherwise it yields exactly that integer |
| Tasks.FromRecord | src/datamodel/object_permanence/tasks.py:31-47 | `cls(**dct)` succeeds exactly when every key is one of the four field names, `name` is a string, `technical_id` an integer, `children` (if present) a list of integers and `parent` (if present) an integer or None; an unknown key or a missing `name` is a `TypeError`; the task has the record's id and name, a missing `children` defaults to `[]` and a missing `parent` to None, and every field of the record is that field of the task's own record |
| Tasks.RecordRoundTrip | src/datamodel/object_permanence/tasks.py:41-47 | reading back a serialised task gives the same task |
| Tasks.TaskStore.constructor | src/datamodel/object_permanence/tasks.py:68 | the registry starts empty |
| Tasks.TaskStore.Register | src/datamodel/object_permanence/tasks.py:38-39 | a new task is entered under its id, replacing any earlier entry |
| Tasks.TaskStore.NewTask | src/datamodel/object_permanence/tasks.py:31-39 | a new task has no children and no parent, takes the next id, and is registered; if every registered id was below the counter, the new id is fresh |
| Tasks.TaskStore.Deserialize | src/datamodel/object_permanence/tasks.py:44-47 | the counter is raised past the record's id before the task is built; a record with no id changes nothing; a decoded task is registered, below the counter |
| Tasks.TaskStore.ChildrenOf | src/datamodel/object_permanence/tasks.py:49-55 | the registry becomes `Linked` of the old one, or stays unchanged with `Linked`'s error |
| Tasks.TaskStore.ParentOf | src/datamodel/object_permanence/tasks.py:61-62 | `children_of` with the roles swapped |
| Tasks.TaskStore.RemoveChild | src/datamodel/object_permanence/tasks.py:57-59 | the registry becomes `Unlinked` of the old one, or stays unchanged with `NotAChild` |
| Tasks.TaskStore.RemoveParent | src/datamodel/object_permanence/tasks.py:64-65 | `remove_child` with the roles swapped |
| WbsGraph.IdToGraphicalHandler | src/graphical_interface/work_breakdown_structure/graph.py:80-83 | finds the first handler of the id, and fails (`StopIteration`) exactly when there is none |
| WbsGraph.Unfold | src/graphical_interface/work_breakdown_structure/graph.py:126 | the tree of a ranked task has that task at its root |
| WbsGraph.RootOf | src/graphical_interface/work_breakdown_structure/graph.py:123-126 | the tree `make_tree` walks has `start_id` at its root, whether its children come from `id_list` or from the task |
| WbsGraph.UnfoldProper | src/graphical_interface/work_breakdown_structure/graph.py:118 | no ranked task's tree holds the sentinel id -1 |
| WbsGraph.RootProper | src/graphical_interface/work_breakdown_structure/graph.py:118-126 | only the root of `make_tree`'s tree can be the sentinel |
| WbsGraph.ChildColumns | src/graphical_interface/work_breakdown_structure/graph.py:138-139 | the columns the `task in children` filter keeps, in order: at most one per entry, each that of an entry naming a child, and ending with the last entry's column when that entry names a child |
| WbsGraph.ParentColumn | src/graphical_interface/work_breakdown_structure/graph.py:140-143 | the parent's column lies between the smallest and the largest child column, and is the only child's column when there is one |
| WbsGraph.Place | src/graphical_interface/work_breakdown_structure/graph.py:128-148 | a layout is never empty, and it ends with its root's entry unless the root is the sentinel -1 |
| WbsGraph.PlaceForest | src/graphical_interface/work_breakdown_structure/graph.py:132-136 | one subtree per child; the last is non-empty and ends with the last child's own entry |
| Grid.NextOffsetBeyond | src/graphical_interface/work_breakdown_structure/graph.py:134 | the first subtree starts at the given offset, and each later one right of every column of the subtree before it |
| WbsGraph.Layout | src/graphical_interface/work_breakdown_structure/graph.py:116-148 | `make_tree` always returns at least one entry |
| WbsGraph.MakeTree | src/graphical_interface/work_breakdown_structure/graph.py:116-148 | `make_tree`, with the loop and the handler lookups, returns exactly `Layout` |
| WbsGraph.MakeSubtrees | src/graphical_interface/work_breakdown_structure/graph.py:130-136 | the loop lays out each child's subtree in list order at the next offset, and concatenates them |
| WbsGraph.MakeChild | src/graphical_interface/work_breakdown_structure/graph.py:132-136 | one pass of the loop adds the next child's subtree, placed at the offset the earlier ones leave; the offset then moves one past its largest column |
| WbsGraph.PlaceWithin | src/graphical_interface/work_breakdown_structure/graph.py:128-148 | every entry lies at or right of the offset and at or below the row |
| WbsGraph.PlaceForestSeparated | src/graphical_interface/work_breakdown_structure/graph.py:132-136 | sibling subtrees are non-empty, their column ranges are disjoint and increase left to right, and the next offset lies right of all of them |
| WbsGraph.PlaceNodes | src/graphical_interface/work_breakdown_structure/graph.py:128-148 | a layout ends with its root's own entry at row `y`, and every other entry names a node below the root |
| WbsGraph.PlaceOrder | src/graphical_interface/work_breakdown_structure/graph.py:128-148 | a layout names the tree's nodes in post-order, one entry per occurrence: each child's subtree in turn, then the node itself; the sentinel root has no entry unless it is alone |
| WbsGraph.PlaceForestOrder | src/graphical_interface/work_breakdown_structure/graph.py:132-136 | the loop's concatenated subtrees name the children's trees in post-order, left to right |
| WbsGraph.LayoutOrder | src/graphical_interface/work_breakdown_structure/graph.py:116-148 | the layout of a ranked task names exactly its tree's nodes in post-order |
| WbsGraph.PlaceMidpoint | src/graphical_interface/work_breakdown_structure/graph.py:138-146 | the parent's entry is last, at row `y`, at its only child's column or at the midpoint of its first and last child's columns, which are the smallest and largest |
| WbsGraph.ParentColumnMidpoint | src/graphical_interface/work_breakdown_structure/graph.py:139-143 | on increasing child columns, `(max + min) / 2` is the midpoint of the first and the last |
| WbsGraph.LayoutOfTask | src/graphical_interface/work_breakdown_structure/graph.py:116-148 | the layout of a ranked task is `Place` of its tree, and the loop's subtrees are those of its children |
| WbsGraph.LayoutChildren | src/graphical_interface/work_breakdown_structure/graph.py:128-148 | with children, the layout is the children's subtrees in list order, each ending with that child at row `y + 1`, followed by the task's own entry at row `y` |
| WbsGraph.LayoutMidpoint | src/graphical_interface/work_breakdown_structure/graph.py:138-146 | on a registry whose children name their parent, the task's column is the midpoint of its first and last child's columns, which increase left to right |
| WbsGraph.LayoutSiblings | src/graphical_interface/work_breakdown_structure/graph.py:128-136 | a task's layout stays right of the offset and below its row; its children's subtrees are separated and lie one row down |
| WbsGraph.UnfoldKidsNotBelow | src/graphical_interface/work_breakdown_structure/graph.py:138 | no descendant of a child is itself a child, so the `task in children` filter keeps only direct children |
| WbsGraph.RootsNotBelow | src/graphical_interface/work_breakdown_structure/graph.py:61-67 | the same holds for the parentless tasks under the sentinel |
| WbsGraph.RootsOnTop | src/graphical_interface/work_breakdown_structure/graph.py:61-67 | with no roots the result is the placeholder `(-1, 0, 0)`; otherwise it is the roots' subtrees in list order, each ending with its root at row 1, with no sentinel entry |
| WbsGraph.RootsLayoutRanked | src/graphical_interface/work_breakdown_structure/graph.py:61-68 | every entry of the roots' layout names a ranked, hence registered, task |
| WbsGraph.RootIds | src/graphical_interface/work_breakdown_structure/graph.py:62-66 | the root ids are exactly the handlers' tasks that have no parent |
| WbsGraph.Locate | src/graphical_interface/work_breakdown_structure/graph.py:68 | the lookup fails exactly when some entry's id has no handler; otherwise each entry is paired with its id's first handler |
| WbsGraph.Position | src/graphical_interface/work_breakdown_structure/graph.py:69-73 | one row up and scaled by 200 and 100: roots land on canvas row 0, and nothing is placed above it or left of column 0 |
| WbsGraph.Moved | src/graphical_interface/work_breakdown_structure/graph.py:69-73 | after the loop, a rectangle has a position exactly when it had one before or some entry moves it |
| WbsGraph.MovedLast | src/graphical_interface/work_breakdown_structure/graph.py:69-73 | a rectangle ends where its last entry puts it |
| WbsGraph.MovedElsewhere | src/graphical_interface/work_breakdown_structure/graph.py:69-73 | a rectangle with no entry stays where it was |
| WbsGraph.OrganizeLookups | src/graphical_interface/work_breakdown_structure/graph.py:61-68 | the handler lookups fail exactly when no task is parentless and no handler's task has the id -1: then only the placeholder -1 is looked up |
| WbsGraph.RootsHandled | src/graphical_interface/work_breakdown_structure/graph.py:61-68 | with a parentless task, every entry of the layout names a task that has a handler |
| WbsGraph.CycleUnranked | src/graphical_interface/work_breakdown_structure/graph.py:126 | two tasks that list each other as children admit no ranking |
| WbsGraph.LocatedAway | src/graphical_interface/work_breakdown_structure/graph.py:68-73 | no entry of a layout of ranked tasks moves the rectangle of a handler whose task is unranked |
| WbsGraph.OrganizeSkipsUnranked | src/graphical_interface/work_breakdown_structure/graph.py:61-73 | with a parentless task, the lookups succeed and the rectangle of a handler whose task is unranked, such as one on a cycle, stays where it was |
| WbsGraph.WbsCanvas.constructor | src/graphical_interface/work_breakdown_structure/graph.py:38 | a new canvas has no handlers and no rectangle positions |
| WbsGraph.WbsCanvas.Organize | src/graphical_interface/work_breakdown_structure/graph.py:58-73 | fails with `StopIteration` and moves nothing exactly when no task is parentless and no handler's task has the id -1; otherwise moves every laid-out task's rectangle to its `Position` |
| WbsGraph.WbsCanvas.MoveAll | src/graphical_interface/work_breakdown_structure/graph.py:69-73 | the loop moves each entry's rectangle in turn |
| WbsGraph.WbsCanvas.TreeLink | src/graphical_interface/work_breakdown_structure/graph.py:281-285 | makes the handler's task the parent of the other's; either guard's error becomes `InvalidLink` and changes nothing |
| EarlyWbsGraph.TreeNode.constructor | src/work_breakdown_structure/graph.py:55-57 | a new node has no parent and no children |
| EarlyWbsGraph.TreeNode.TreeLink | src/work_breakdown_structure/graph.py:76-80 | `InvalidLink`, with nothing changed, exactly when `other` already has a parent; otherwise `other`'s parent is this node and `other` is appended to its children, even when `other` is this node |
| EarlyWbsGraph.OwnChildUnranked | src/work_breakdown_structure/graph.py:62-70 | a node that is its own child, as a self-link leaves it, admits no ranking, so `make_tree` from it does not terminate |
| EarlyWbsGraph.TreeOf | src/work_breakdown_structure/graph.py:62-67 | the tree `make_tree` walks from a node has that node at its root |
| EarlyWbsGraph.TreesOfAt | src/work_breakdown_structure/graph.py:66-67 | the loop's `i`th child is the root of the `i`th subtree |
| EarlyWbsGraph.Place | src/work_breakdown_structure/graph.py:59-74 | a layout is never empty and ends with its root's entry |
| EarlyWbsGraph.TreeNode.MakeTree | src/work_breakdown_structure/graph.py:59-74 | `make_tree` over the node objects returns exactly `Place` of the tree they form |
| EarlyWbsGraph.PlaceForest | src/work_breakdown_structure/graph.py:66-70 | one non-empty subtree per child |
| EarlyWbsGraph.MakeSubtrees | src/work_breakdown_structure/graph.py:66-70 | the loop lays out each child's subtree in list order at the next offset, and concatenates them |
| EarlyWbsGraph.MakeChild | src/work_breakdown_structure/graph.py:66-70 | one pass of the loop adds the next child's subtree, placed at the offset the earlier ones leave; the offset then moves one past its largest column |
| EarlyWbsGraph.PlaceNodes | src/work_breakdown_structure/graph.py:59-74 | the layout names every node of the tree in post-order: each child's subtree in turn, then the node, one entry per node |
| EarlyWbsGraph.PlaceWithin | src/work_breakdown_structure/graph.py:59-74 | every entry lies at or right of the offset and at or below the row |
| EarlyWbsGraph.PlaceForestSeparated | src/work_breakdown_structure/graph.py:66-70 | sibling subtrees have disjoint column ranges that increase left to right, and the next offset lies right of all of them |
| EarlyWbsGraph.MeanWithin | src/work_breakdown_structure/graph.py:72 | the mean column of a subtree lies between its smallest and its largest column |
| EarlyWbsGraph.ParentAtMean | src/work_breakdown_structure/graph.py:62-74 | a childless node's layout is one entry at the offset; otherwise the node's entry is last, at row `y`, at the mean of all its descendants' columns, which lie one row down or more; so the node lies between its leftmost and rightmost descendant |
| EarlyWbsGraph.ForestRoots | src/work_breakdown_structure/graph.py:66-70 | each child's subtree ends with that child's entry, at the loop's row |
| EarlyWbsGraph.Roots | src/work_breakdown_structure/graph.py:28 | the metatask's children are exactly the parentless tasks |
| EarlyWbsGraph.Without | src/work_breakdown_structure/graph.py:31 | the filter keeps exactly the entries that do not name the metatask |
| EarlyWbsGraph.WithoutAbsent | src/work_breakdown_structure/graph.py:31 | filtering a node that no entry names changes nothing |
| EarlyWbsGraph.TreeOfRanked | src/work_breakdown_structure/graph.py:62-70 | every node reached from a ranked node is ranked, so none is a fresh metatask |
| EarlyWbsGraph.TreeOfExtend | src/work_breakdown_structure/graph.py:25-30 | creating the metatask does not change any task's tree |
| EarlyWbsGraph.MetataskDropped | src/work_breakdown_structure/graph.py:25-31 | the metatask's layout without its own entry is the roots' layout from column 0 and row 1, and is empty when there is no root |
| EarlyWbsGraph.LayOutUnderMetatask | src/work_breakdown_structure/graph.py:25-31 | a fresh metatask adopting the roots yields exactly the roots' layout from row 1 |
| EarlyWbsGraph.RootsLayout | src/work_breakdown_structure/graph.py:25-31 | one subtree per parentless task |
| EarlyWbsGraph.OrganizeRoots | src/work_breakdown_structure/graph.py:25-31 | `organize` lays out the parentless tasks in list order, each ending its own subtree at row 1, with no shift |
| EarlyWbsGraph.OrganizeBounds | src/work_breakdown_structure/graph.py:25-31 | every entry `organize` lays out is at column 0 or right and at row 1 or below, and the roots' subtrees do not overlap |
| EarlyWbsGraph.PlacementOf | src/work_breakdown_structure/graph.py:33-34 | a rectangle 50 wide and 20 high at the cell's corner `(x * 70, y * 40)`, with the title anchored at that corner |
| EarlyWbsGraph.Drawn | src/work_breakdown_structure/graph.py:32-34 | after the loop, a task has items placed exactly when it had them before or some entry names it |
| EarlyWbsGraph.DrawnAt | src/work_breakdown_structure/graph.py:32-34 | a task's rectangle and title end where its last entry puts them |
| EarlyWbsGraph.DrawnElsewhere | src/work_breakdown_structure/graph.py:32-34 | the items of a task with no entry stay where they were |
| EarlyWbsGraph.OrganizeSkipsUnranked | src/work_breakdown_structure/graph.py:24-34 | the items of a node that is not ranked, such as one on a cycle, are neither added nor moved by `organize` |
| EarlyWbsGraph.WbsCanvas.constructor | src/work_breakdown_structure/graph.py:13 | a new canvas has no handlers and no items placed |
| EarlyWbsGraph.WbsCanvas.Organize | src/work_breakdown_structure/graph.py:24-34 | every laid-out task's rectangle and title move to where the roots' layout from row 1 puts them |
| EarlyWbsGraph.WbsCanvas.DrawAll | src/work_breakdown_structure/graph.py:32-34 | the loop moves each entry's items in turn |
| EarlyWbsGraph.NatToString | src/work_breakdown_structure/graph.py:44 | the decimal form of a number is a non-empty string of digits |
| EarlyWbsGraph.GraphId | src/work_breakdown_structure/graph.py:44 | the id is `graph_` followed by the decimal digits of the counter value, which read back to that value |
| EarlyWbsGraph.ParseNatToString | src/work_breakdown_structure/graph.py:44 | reading the decimal form back gives the number |
| EarlyWbsGraph.GraphIdInjective | src/work_breakdown_structure/graph.py:44 | two counter values give the same `graph_N` id exactly when they are equal |
| EarlyWbsGraph.GraphicalIdCounter.constructor | src/work_breakdown_structure/graph.py:40 | the counter starts at 0 |
| EarlyWbsGraph.GraphicalIdCounter.NewId | src/work_breakdown_structure/graph.py:42-45 | the id is `graph_` and the current counter, which then moves on by one; no later id equals it |
| Base.MaxOf | src/graphical_interface/work_breakdown_structure/graph.py:134 | Python's `max`: an element of the list, and no element is larger |
| Base.MinOf | src/graphical_interface/work_breakdown_structure/graph.py:143 | Python's `min`: an element of the list, and no element is smaller |
| Base.Mean | src/work_breakdown_structure/graph.py:72 | `statistics.mean`: the value that, times the count, gives the sum |
| Base.MeanBetween | src/work_breakdown_structure/graph.py:72 | the mean of values within a range lies within that range |

## Left out

- Drawing is not modelled: the tkinter canvas, its items, colours, tags, bindings and scroll region, `delete("arrow")`, `draw_arrow_to_children`, `arrow_drag` and the mouse handling of `link_rect`. Only the coordinates `organize` gives each rectangle, and each title in the earlier canvas, are modelled.
- Saving and loading (`WBSCanvas.save`/`load`, JSON files) is not modelled. The model covers the record round trip they rely on (`Serialize`, `FromRecord`, `Deserialize`).
- `create_task` in both canvases is not modelled as its own operation. It appends a new handler (`NewTask` and, in the earlier canvas, `NewId`) and then calls `organize`.
- Python's global state becomes explicit objects: the `itertools.count` counter is `TechnicalIdGen`, `ID_TO_RESOURCE` is `TaskStore.resources`, and the class attribute `GraphicalId._id` is `GraphicalIdCounter`.
- WbsGraph.Layout and EarlyWbsGraph.TreeOf need the tasks they walk to form no cycle, given as a ghost rank. `organize` only asks this of the parentless tasks and what lies below them: it never reaches a cycle. When every child names its parent back, which linking preserves (`Tasks.LinkedKeepsConsistent`), a task on a cycle has its parent on the cycle, so no walk from a parentless task gets to it. Such tasks cannot be ranked (`WbsGraph.CycleUnranked`, `EarlyWbsGraph.OwnChildUnranked`), and `organize` leaves their rectangles and titles where they were (the two `OrganizeSkipsUnranked` lemmas). Only `make_tree` called directly on a task of a cycle would recurse without end, and `organize` never makes that call.
- WbsGraph.WbsCanvas.Organize requires every ranked task to have a handler. A child id without a handler would make the lookup in `make_tree` raise `StopIteration` part-way through; that partial failure is not modelled.
- WbsGraph.LayoutMidpoint requires that every child names its parent back. Without that, the `task in children` filter can also pick up descendants that are listed as children elsewhere, and the column is not the first and last child's midpoint.
- WbsGraph.WbsCanvas keys rectangle positions by handler index rather than by canvas item.
- Tasks.FromRecord rejects ill-typed field values with `TypeError`, where the dataclass would store them unchecked.
- Task ids are unbounded integers, and columns are reals. Python's `statistics.mean` and `/` on the integer columns are exact here; floating-point rounding is not modelled.
- Object identity is modelled by equality of ids. `Tasks.Linked` compares two tasks by id where `children_of` tests `self is other_task`, since a registered task is the only one under its id. A handler of the later canvas is its task's id, so `handler.task_data` is the registry entry under that id.
- Each handler is one object in the source. In the model a handler of the earlier canvas is a `TreeNode`, and its id and canvas items are kept apart from it.
