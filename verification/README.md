# A verified model of ocfl-index

ocfl-index keeps every version of every OCFL object of a storage root in one
SQLite database and answers path queries from it. Trees of logical paths are
stored as a shared, content-addressed graph: one row for each distinct file or
directory, keyed by digest and kind, and one row for each name that leads from a
directory to a child. This project models that program in Dafny and proves what
its parts promise one another.

The modules follow the program:

| module | part of the program |
|---|---|
| `Ordering`, `Trees`, `Paths`, `PathMaps`, `States` | values: sorted names, trees, slash-separated paths, path maps, version states |
| `Digests` | the listing that a directory's digest is the hash of |
| `PathTree`, `Walks`, `Copies` | the mutable tree of `internal/pathtree`, on the heap, with a ghost layout from paths to nodes |
| `IndexTree` | `PathTree` and `dirDigests` of `internal/index/pathtree.go` |
| `Merkle` | the invariant of the nodes and names tables |
| `Objects` | the meaning of the root, inventory, version and content tables |
| `Tables` | the transaction: a class whose fields are the tables |
| `Lookup`, `Queries`, `Listings`, `Paging` | the read side and the client's pager |
| `Sweep`, `Indexer`, `Runs` | indexing runs: marking and sweeping roots, batched commits, every interleaving |
| `Token`, `Pipeline`, `Scheduler`, `Monitor` | the channel protocols, as state machines with one step for each channel operation |
| `Handoff`, `Replay` | the goroutines of an indexing run together: the pipeline with the transaction's token, and how its every run is a run of the indexer |
| `Cases` | concrete cases in which what a reader might expect does not hold |

Five results carry the rest.

* **The deduplicating insert is right to stop at an existing row.** Between
  calls, every directory row has all its names. During a call only the rows on
  the recursion stack may miss some, and a row that is found cannot be one of
  those, because no tree occurs strictly inside itself (`Merkle.FoundIsComplete`,
  `Tables.Tx.AddPathtreeChild`). Unfolding any row then gives back exactly the
  tree it was made for (`Merkle.GraphRepresents`). All this holds whenever keys
  (digest and kind) tell apart the trees stored and to be stored, and no tables
  whatever can hold trees that their keys do not tell apart (`Merkle.OnlyIfTold`).
* **What is read is what was indexed.** `IndexObjectInventory` succeeds exactly on
  acceptable inventories and leaves the tables showing the library with that
  object as the inventory describes it. `GetObjectState` returns exactly the
  answer read off the indexed state, although it goes through a lookup pruned with
  `LIKE` and a recursive listing. End to end: once an inventory is indexed, each of
  its versions is answered from the inventory's own state after any later history
  in which the object is not removed (`Runs.IndexedThenAnswered`), and serving
  requests on the tables is such a history (`Runs.Serve`). For each file in such an
  answer there is a place where its content is stored (`Queries.GetContentPath`).
* **Indexing runs keep whole inventories.** For every order of listing,
  parsing and delivery, every commit shows the effect of a prefix of the results,
  and after a complete run every root's valid inventory is indexed as it is now. A
  run that breaks off loses fewer than ten inventories and leaves a database that the
  next run can start from (`Runs.IndexInventories`, `Runs.IndexAll`). A run over roots
  that have not changed indexes nothing (`Indexer.NothingToIndex`).
* **The goroutines can do nothing else.** Every move of the setup, the workers and
  the caller, as the pipeline and the token allow them, is one action of the
  indexer or none (`Replay.MoveIsAction`), so every run of any number of workers
  leaves the database with the inventories indexed in the order in which their
  results were delivered (`Replay.IndexByGoroutines`). Every such run is finite and
  ends with the transaction closed (`Handoff.RunsEnd`).
* **The heap tree refines path maps.** Each mutating method of the path tree has an
  exact description of when it fails and of the tree it leaves, or, for `Set`, of when
  it leaves none; and `Rename` is all-or-nothing.

Where the code and its comments part, the model follows the code:

* A directory line is `"%x %s\n"`, and names with a newline make different
  directories share a digest (`Digests.NewlineNamesCollide`), and then they cannot
  both be stored (`Cases.CannotStoreBoth`). Nothing in the program refuses such names.
  A collision-free hash tells all trees with names free of newlines apart
  (`Merkle.PlainTreesAreTold`); with newlines in names, the index is right exactly as
  long as keys tell the trees in it apart.
* `Set` refuses a child that stands above or below the node, but neither the node
  itself nor a child that shares nodes with the tree. A tree comes out of it exactly
  if no node of the child's tree stands in the tree outside of what is replaced
  (`PathTree.Node.Set`); a node set inside itself makes a cycle
  (`PathTree.SelfNeverFits`).
* `MkdirAll` returns an existing file without an error when it is the last element
  of the path, and `Set` then writes into its absent map. `SetFate` and
  `RenameFate` name that case: the call panics exactly when the target's parent is
  an existing file below the root (`PathTree.RenamePanics`), as it is when g is
  renamed to f/x beside a file f (`PathTree.RenameCanPanic`). `Rename` leaves the
  tree as it was in every other failure.
* After a failed result, a worker can take nil from the closed transaction channel
  and use it. The program can come to that exactly when some worker has yet to look
  its object up at the time of the close (`Handoff.LateLookup`), which no run without
  a failed result does (`Handoff.NoPanic`) and a run of two workers over two roots
  does (`Handoff.FailedRunPanics`).
* The monitor's loop and a session's handler can wait for each other for ever
  (`Monitor.CanLockUp`). The loop can never move again if and only if it is about to
  send on a full error channel whose handler asks for its session to be freed
  (`Monitor.StuckIffJammed`), and then nobody who waits for it is ever served
  (`Monitor.JammedForEver`). The safety properties hold all the same.
* A session is not always removed before its error channel is closed
  (`Monitor.CanCloseFirst`): a session's channel is closed if and only if its handler
  is gone between the loop's taking the request to free it and the deletion
  (`Monitor.ClosedSession`). No send falls in between.
* Asking for the head looks the version up by name, so it succeeds exactly when that
  version was first indexed under the name the inventory gives it now
  (`Runs.HeadIsFoundByName`). An object indexed with version v1, whose inventory
  later writes v001, loses its head (`Cases.HeadCanBeLost`).
* Indexing an object again as it was can add content rows, when its manifest stores a
  file that is in none of its states and another object has brought in a node for
  it (`Cases.ReindexingCanAddContent`). No other table but the root's time changes.
* `GetObjectState` replaces a limit of zero and one above 1000 by 1000, and passes
  negative ones on. To the database a negative limit is none, so a directory is answered
  whole; but one more than -1 is the number of rows then found, none, and the program
  slices out of range (`Queries.WhenPanicked`). A page size in a request can be -1.
* The comment on `IndexObjectRoot` speaks of truncating times to seconds; the code
  stores them as they are. A sweep keeps a root that was not found if its time is
  not before the start of the scan (`Sweep.SyncObjectRoots`).

What the proofs take as given, as hypotheses of the members concerned: keys tell apart
the trees among `told`, which holds all that is stored and all states to be indexed
(`KeysTell`, `Stocked`, `StatesIn`; as `told` one can take all trees with plain names, for
a collision-free hash and logical paths without newlines: `Objects.PlainStatesIn`,
`Indexer.PlainIsTelling`); an inventory that passes validation has version names that
match their numbers, states in which no logical path lies below another one, and state
digests that are all in its manifest (section 3.5.3.1 of the OCFL Specification
v1.0); in a whole run, inventories with equal digests are equal and no two roots hold the
same object id; the clock does not go backwards. A whole run also starts from a
database whose objects are each as some inventory describes them (`Sourced`). That
holds of an empty database, and every run leaves it so, however it ends.

## Model

| member | source | states |
|---|---|---|
| Ordering.SortedIsTheOnlyOne | internal/pathtree/pathtree.go:308-312 | a strictly sorted list of names is determined by the set of its names, whatever order a map gives them in |
| Ordering.LessMeaning | internal/pathtree/pathtree.go:308-312 | one text is less than another exactly if they agree up to a place where it ends or has the smaller character |
| Trees.NeverInsideItself | internal/sqlite/tx.go:234-238 | no tree is found strictly inside itself, at any path |
| Digests.HexMeaning | internal/index/pathtree.go:70 | the text of a digest has two lower-case hexadecimal digits for each byte, in order, the one for its upper half first |
| Digests.ListedTexts | internal/index/pathtree.go:61-73 | the very texts hashed for a directory of one file, of two files, and of a directory and a file: the lines in the order of names, a slash after the name of a directory |
| Digests.HexIsInjective | internal/index/pathtree.go:70 | two digests with the same hexadecimal text are equal |
| Digests.ListingIsInjective | internal/index/pathtree.go:61-73 | a listing of names without newline and slash can be read back in only one way: digests, names and kinds are determined by the text |
| Digests.DigestIdentifies | internal/index/pathtree.go:56-76 | under a collision-free hash two trees of the same kind with plain names have equal digests if and only if they are equal |
| Digests.NewlineNamesCollide | internal/index/pathtree.go:70 | for every hash, a directory of two files and one of a single file whose name holds a newline differ and have the same digest |
| Paths.ValidPathMeaning | internal/pathtree/pathtree.go:93-98 | the paths that are refused are exactly those, other than ".", in which an empty name, "." or ".." stands between two slashes or ends |
| Paths.SplitMeaning | internal/pathtree/pathtree.go:99-111 | the names that a path is cut into are exactly those that stand in it between slashes or ends |
| Paths.ElemsOfText | internal/pathtree/pathtree.go:101-111 | the text of a list of valid names is a valid path and splits into that list again |
| Paths.DirAndBase | internal/pathtree/pathtree.go:129-130 | a valid path other than "." consists of the names of its valid directory path followed by its valid base name |
| PathMaps.PutUndoesRemove | internal/pathtree/pathtree.go:206-218 | putting back at its path what was taken out restores the path map |
| PathMaps.RemoveUndoesPut | internal/pathtree/pathtree.go:118-137 | taking out what was put at a free path leaves the map with only the directories that were made on the way |
| PathTree.Node.NewDir | internal/pathtree/pathtree.go:34-36 | a directory without children and with the zero value |
| PathTree.Node.NewFile | internal/pathtree/pathtree.go:40-42 | a file with the value |
| PathTree.InsertEntry | internal/pathtree/pathtree.go:308-312 | putting one more entry in its place keeps a list sorted |
| PathTree.Node.DirEntries | internal/pathtree/pathtree.go:51-66 | the names of all children, each once, in increasing order, with their kinds; none for a file |
| PathTree.Node.Get | internal/pathtree/pathtree.go:92-113 | the very node that stands at the path; not found exactly when none does; invalid exactly for paths, other than ".", with an empty name, "." or ".." in them |
| PathTree.Node.EnterOrMake | internal/pathtree/pathtree.go:155-161 | an existing child is entered with no change; a missing one is added as an empty directory and nothing else changes |
| PathTree.Node.MkdirAll | internal/pathtree/pathtree.go:144-168 | fails, with no change at all, exactly when the path is invalid or a file stands on the way; otherwise adds exactly the missing directories and returns the node at the path, be it a file |
| PathTree.Node.MakeWay | internal/pathtree/pathtree.go:151-167 | its loop over the names: it stops at the first file on the way, before anything is made, and otherwise makes exactly what is missing |
| PathTree.Node.IsParentOf | internal/pathtree/pathtree.go:253-263 | true if and only if the node stands at a path strictly below this one |
| PathTree.Node.Set | internal/pathtree/pathtree.go:118-137 | at "." it is always done. At any other valid path it is refused as related if and only if the child stands strictly below this node or this node strictly below the child; else it fails exactly if a file stands on the way to the parent, and dies exactly if the parent is a file. When done, a tree comes out, unshared and acyclic, if and only if no node of the child's tree stands in this one outside of what is replaced; its map is then the old one with the child's tree in place of whatever stood there. In every other case nothing has changed |
| PathTree.SetFateMeaning | internal/pathtree/pathtree.go:118-137 | how Set ends, case by case: each outcome exactly if its own condition holds |
| PathTree.Node.SetFile | internal/pathtree/pathtree.go:139-141 | the same for a new file, which is never related to the tree |
| PathTree.Node.SetUnrelated | internal/pathtree/pathtree.go:129-136 | the part of Set after the checks, with the same exact outcome: a tree if and only if nothing is shared with what stays |
| PathTree.Node.MakeParent | internal/pathtree/pathtree.go:129-134 | makes the missing directories, or fails with no change; the child's tree keeps all its edges, and stays as it is if it shares nothing with what stays |
| PathTree.Node.Remove | internal/pathtree/pathtree.go:174-202 | succeeds exactly for paths that are there; splits the tree into what stood at the path, with all its nodes, and the rest, which share no node; removing the root leaves an empty node of the same kind |
| PathTree.Node.CopyAndClear | internal/pathtree/pathtree.go:178-186 | the returned copy of the root has the former tree below it and the root stands alone |
| PathTree.Node.Detach | internal/pathtree/pathtree.go:187-201 | deleting a child entry takes out exactly the paths at and below it |
| PathTree.Node.Become | internal/pathtree/pathtree.go:122-125 | taking over another root's fields makes this node the root of a tree with the other's meaning, unless it stands below that root: then no tree comes out |
| PathTree.Node.Attach | internal/pathtree/pathtree.go:135 | linking in a tree that shares nothing with what stays replaces exactly what was at and below the name; if it shares a node, no tree comes out |
| PathTree.SelfNeverFits | internal/pathtree/pathtree.go:118-137 | a node set at a path inside itself leaves no tree |
| PathTree.BackInPlace | internal/pathtree/pathtree.go:211-215 | setting a node again where it has just been removed always succeeds and restores the tree, so the panic of Rename is never reached |
| PathTree.RenamePanics | internal/pathtree/pathtree.go:206-219 | renaming dies in a nil map if and only if both paths are valid, the source is there, and the parent of the target is a file, other than the root, that is left when the source is taken out |
| PathTree.RenameFateMeaning | internal/pathtree/pathtree.go:206-219 | how Rename ends, case by case, as far as what is left without the source decides it |
| PathTree.RenameCanPanic | internal/pathtree/pathtree.go:206-219 | a directory with files f and g in which renaming g to f/x dies |
| PathTree.Node.Rename | internal/pathtree/pathtree.go:206-219 | invalid exactly if the source path is, or the target path once the source is found; not found exactly if the source is not there; on success the tree is what is left without the source, with the former subtree set at the target; on an error it is the old tree unchanged |
| Copies.OneMoreSet | internal/pathtree/pathtree.go:223-232 | when a node is visited after its directory, the callback's Set succeeds and adds just that node |
| Copies.Builder.Visit | internal/pathtree/pathtree.go:317-328 | a call adds a mapped copy of the node at the same path, leaves the walked tree alone, and is recorded |
| Copies.Builder.constructor | internal/pathtree/pathtree.go:315-316 | nothing built and no call recorded |
| Copies.WalkInto | internal/pathtree/pathtree.go:283-298 | the calls recorded grow by one for each path at and below the node, in the order of the names along them, and so a directory's before those of what it holds; just those nodes are added; it goes on exactly as long as the function does not fail |
| Copies.WalkChildren | internal/pathtree/pathtree.go:290-296 | the calls that follow the one for the node cover all its children, each with everything below it |
| Copies.WalkEntries | internal/pathtree/pathtree.go:290-296 | the loop over the entries: one after another, until one fails |
| Copies.WalkChild | internal/pathtree/pathtree.go:291-295 | one more child is covered, or some value at or below the node cannot be mapped |
| Copies.NamedPrecede | internal/pathtree/pathtree.go:290-296 | a directory and all that is below its first children comes before the next child in the order of names |
| Copies.MapTree | internal/pathtree/pathtree.go:315-333 | yields a tree exactly when every value can be mapped: the same paths and kinds, mapped values, only new nodes; the function was then called once for each node, directories first and names in order |
| Copies.Copy | internal/pathtree/pathtree.go:221-237 | a tree with the same meaning that shares no node with the original |
| Copies.PutKeepsNames | internal/pathtree/pathtree.go:118-137 | setting valid trees at valid paths keeps all names valid, which is what copying relies on |
| States.StateTreeMeaning | internal/index/pathtree.go:21-53 | the tree of a prefix-free state holds each file at its path, directories exactly above files, and nothing else |
| States.StateTreeChildren | internal/index/pathtree.go:21-53 | the children of a directory are the names that lead to a file or to a directory holding one |
| States.StateTreeIsInjective | internal/sqlite/tx.go:173-175 | states with equal trees are equal |
| States.AddFile | internal/index/pathtree.go:27-41 | setting one more file of a prefix-free state turns the tree of the files so far into the tree of one more |
| IndexTree.DirDigests | internal/index/pathtree.go:56-76 | writes into each directory at and below the node the recursive digest of the tree there, which is the hash of the listing whose texts `Digests.HexMeaning` and `Digests.ListedTexts` give, and changes nothing else |
| IndexTree.ChildLine | internal/index/pathtree.go:61-73 | labels a child that is a directory first, and writes its line |
| IndexTree.BuildPathTree | internal/index/pathtree.go:21-53 | fails exactly on an invalid logical path; otherwise the heap tree shows the whole state, whatever order the paths come in, with the right digest in every node |
| IndexTree.LabelTree | internal/index/pathtree.go:45-48 | afterwards every node of the tree carries its digest and nothing else has changed |
| IndexTree.StateIsStorable | internal/index/pathtree.go:27-41 | valid logical paths give a tree with names fit for the index |
| IndexTree.StateIsPlain | internal/index/pathtree.go:27-41 | logical paths without newlines give a tree with plain names |
| Merkle.GraphRepresents | internal/sqlite/schema.sql:60-75 | in a finished graph, unfolding a row through the names table gives exactly the tree it stands for |
| Merkle.FoundIsComplete | internal/sqlite/tx.go:234-238 | if keys tell the trees apart, a row found under the key of the tree being added stands for that tree, is not on the recursion stack, and so has all its names |
| Merkle.OnlyIfTold | internal/sqlite/schema.sql:60-75 | whatever tables unfold to the trees of a set of rows, keys tell these trees and all their parts apart |
| Merkle.PlainTreesAreTold | internal/index/pathtree.go:56-76 | a collision-free hash tells all trees with plain names apart |
| Cases.CannotStoreBoth | internal/index/pathtree.go:70 | no tables hold both of two directories whose listings are the same text because of a newline in a name |
| Merkle.NewRow | internal/sqlite/tx.go:262-270 | a new row keeps the invariant as one more row on the stack |
| Merkle.NewEdge | internal/sqlite/sqlc_queries.sql:180-181 | inserting a true name or ignoring one that is there keeps the invariant, and a name ignored leads to the same row |
| Merkle.RowFinished | internal/sqlite/tx.go:239-246 | a row leaves the stack when its names are all there |
| Merkle.PartsAreStored | internal/sqlite/tx.go:217-247 | whatever a stored tree holds has a row of its own |
| Tables.Tx.GetSetNode | internal/sqlite/tx.go:253-281 | the row for the key, inserted when it is missing; it stands for the tree and is on the stack exactly if it is new |
| Tables.Tx.InsertIgnoreName | internal/sqlite/sqlc_queries.sql:180-181 | a name that is there stays as it is; otherwise it is added |
| Tables.Tx.LinkName | internal/sqlite/tx.go:223-233 | after it the parent has the name, leading to this very row |
| Tables.Tx.AddPathtreeChild | internal/sqlite/tx.go:218-247 | the returned row stands for the tree given; the tables only gain rows, each for a part of that tree, stay sound, and only rows that were on the stack may miss names; a known root changes nothing |
| Tables.Tx.AddChildren | internal/sqlite/tx.go:239-245 | the loop over the entries of a new row takes it off the stack |
| Tables.Tx.AddEntry | internal/sqlite/tx.go:239-244 | one more entry of the row has its name, and nothing is added but parts of the tree |
| Tables.Tx.AddPathtreeNodes | internal/sqlite/tx.go:213-215 | if keys tell the trees apart, unfolding the returned row gives exactly the tree passed in, and the rows of all trees added before still unfold to theirs |
| Tables.Tx.IndexObjectRoot | internal/sqlite/tx.go:86-101 | refused exactly for an empty path; otherwise the root is there with the new time and everything else is as it was |
| Tables.Tx.RemoveObjectsBefore | internal/sqlite/tx.go:79-84 | removes exactly the roots with an earlier time and the objects at them, and the tables show the remaining library |
| Tables.Tx.UpsertInventory | internal/sqlite/sqlc_queries.sql:41-58 | refused, with no change, exactly when another inventory sits at the root; otherwise the object is shown with the new fields and its former versions |
| Tables.Tx.WriteRows | internal/sqlite/tx.go:65-116 | root and inventory row: an empty path and a root that another object holds are refused, each with its own error, and nothing else is; an object that is up to date keeps its row |
| Tables.Tx.InsertVersion | internal/sqlite/tx.go:148-191 | a new number is added; a known one is left alone and accepted exactly when the states and messages are equal, the times lie in one and the same second, and a user, if one is given, has the same name and address |
| Tables.Tx.IndexVersion | internal/sqlite/tx.go:118-135 | one version: its paths being invalid and its differing from what is indexed are refused, each with its own error, and nothing else is; a known version leaves nodes, names and versions unchanged |
| Tables.Tx.IndexVersions | internal/sqlite/tx.go:118-135 | all versions, in whatever order; if any is refused, the error is that of a version at fault |
| Tables.Tx.InsertContent | internal/sqlite/tx.go:193-209 | every stored file of the manifest has a content row afterwards, in whatever order; if all had one before, nothing changes |
| Tables.Tx.AddContent | internal/sqlite/sqlc_queries.sql:189-193 | inserts a row only for a stored file without one |
| Tables.Tx.IndexObjectInventory | internal/sqlite/tx.go:65-141 | succeeds if and only if the inventory is acceptable; an empty path and a root taken by another object have their own errors, and any other error is that of a version at fault. On success the tables show the library with the object as indexed. If the object was up to date before, nodes, names, inventories and versions are exactly as before, and content is if and only if the stored files of the manifest all had their content rows, which they had if the manifest is used in full. New nodes are parts of the inventory's states and new content rows are its own |
| Tables.Tx.NothingDangles | internal/sqlite/schema.sql:19-85 | in a valid database every reference between tables leads to a row |
| Objects.RemovalShown | internal/sqlite/schema.sql:27-38 | a cascade from deleted roots leaves tables that show exactly the objects whose roots are left |
| Objects.WithRootShown | internal/sqlite/sqlc_queries.sql:17-20 | renewing or adding a root keeps the tables showing the library |
| Objects.WithInvShown | internal/sqlite/sqlc_queries.sql:41-58 | writing an inventory row, new or renewed, makes the tables show the object with its new fields and its former versions and content |
| Objects.WithVersionShown | internal/sqlite/sqlc_queries.sql:134-137 | adding a version row makes them show the object with one more version |
| Objects.WithContentShown | internal/sqlite/sqlc_queries.sql:189-193 | inserting or ignoring a content path makes them show the object with one more manifest entry |
| Objects.RootTakenMeaning | internal/sqlite/schema.sql:36-37 | the unique constraint on roots fails exactly when another object of the library sits there |
| Objects.VersionNamesAreUnique | internal/sqlite/schema.sql:51-52 | names determine numbers, so the unique constraint on version names is never violated |
| Objects.SameSecond | internal/sqlite/tx.go:179-181 | times are equal in seconds if and only if there is a second in which both lie, before the epoch too |
| Objects.AgreesMeaning | internal/sqlite/tx.go:173-190 | a version agrees with the one indexed if and only if state, message, second and any user given are the same |
| Objects.NumberOfDigits | internal/sqlite/sqlite.go:254-257 | the number of a version name is the decimal number that its digits spell, with or without the v and any zeros before it |
| Objects.SameNodeSameState | internal/sqlite/tx.go:173-175 | two version rows lead to the same node if and only if their states are equal |
| Objects.NowComplete | internal/sqlite/tx.go:136-139 | once the manifest is listed every file of every version has a content row |
| Objects.IndexedIsUpToDate | internal/sqlite/tx.go:104-141 | after indexing, the object is up to date with the inventory |
| Objects.PlainStatesIn | internal/index/pathtree.go:56-76 | without newlines in logical paths and under a collision-free hash, keys tell the trees of all states apart |
| Objects.OthersKeepUpToDate | internal/sqlite/tx.go:104-141 | changes to other objects that leave its root alone keep an object up to date |
| Objects.UpToDateContent | internal/index/indexer.go:212-215 | an object that is up to date with an inventory whose content is all used has all its content rows |
| Cases.ReindexingCanAddContent | internal/sqlite/tx.go:193-209 | an object that is up to date is indexed again: content rows are added, for a file of its manifest that only another object uses; no row goes, and of the other tables only its root's time changes |
| Objects.VersionsAreAppendOnly | internal/sqlite/tx.go:143-191 | over an object indexed from one inventory, a later one is acceptable if and only if the versions they share have equal states and messages, were made in the same second, and have the same user unless the later one names none; and earlier versions stay as they were |
| Lookup.FollowIsGet | internal/sqlite/get_node_by_path.sql:13-22 | walking names from a row is walking the tree it stands for |
| Lookup.LikeItself | internal/sqlite/get_node_by_path.sql:21 | a text is like itself followed by `%`, even if it holds wildcards |
| Lookup.LikeMeaning | internal/sqlite/get_node_by_path.sql:21 | without wildcards in a name, the texts like it and `%` are exactly those that begin with it |
| Lookup.KeepsTheWay | internal/sqlite/get_node_by_path.sql:20-21 | the pruning condition keeps every ancestor of the target |
| Lookup.KeepsMeaning | internal/sqlite/get_node_by_path.sql:20-21 | without wildcards in the path so far, the search goes on exactly along the way to the target |
| Lookup.FindNode | internal/sqlite/get_node_by_path.sql:5-25 | the recursive query ends and finds exactly the row that the names along the path lead to, or none if there is none |
| Lookup.ListBelow | internal/sqlite/get_node_children.sql:5-18 | the recursive query ends with exactly the rows below the base, each under its path |
| Paging.SelectAfter | internal/sqlite/sqlc_queries.sql:22-24 | the first keys after the cursor, in order, as many as the limit allows, or all if it is negative |
| Paging.PageSize | internal/sqlite/sqlite.go:137-139 | the size asked for if it is between 1 and 1000, and 1000 otherwise |
| Paging.PageIs | internal/sqlite/sqlite.go:141-152 | a page holds all that is left, without a cursor, or as many keys as its size, with the last one as cursor |
| Paging.CutPage | internal/sqlite/sqlite.go:146-152 | the extra row decides whether there is a next page, and the cursor is the last key returned |
| Paging.NextPageGoesOn | internal/sqlite/sqlite.go:146-152 | the page after a cursor begins exactly where the page before it stopped |
| Paging.PagesAreComplete | internal/sqlite/sqlite.go:136-160 | following cursors from the start ends and gives every non-empty key once, in order, for any page size |
| Paging.Pager.constructor | cmd/ox/cmd/root/root.go:119-125 | a new pager has everything still to come |
| Paging.Pager.Fetch | cmd/ox/cmd/root/root.go:136-150 | taking a page changes nothing of what is still to come |
| Paging.Pager.Next | cmd/ox/cmd/root/root.go:135-165 | returns the next of what is still to come; at the end it says so, and goes on saying so |
| Paging.DrainAll | cmd/ox/cmd/root/root.go:119-175 | a client that asks until the end sees each key once, in order, for any page size asked for |
| Queries.RowWantedMeaning | internal/sqlite/get_node_by_path.sql:7-12 | the version row selected by name stands for the state of the version wanted; there is none exactly when there is no such version |
| Queries.StateLimit | internal/sqlite/sqlite.go:284-289 | the limit asked for, but 1000 if that is zero or more than 1000 |
| Queries.PageOfAnswer | internal/sqlite/sqlite.go:284-341 | a directory is answered with a thousand items, or with the smaller positive number asked for, and the last name as cursor; with all of them and no cursor if there are no more, or if the number is negative |
| Queries.WhenPanicked | internal/sqlite/sqlite.go:337-341 | a query dies, slicing out of range, if and only if it asks for -1 items of a directory that is there |
| Queries.AnswerIs | internal/sqlite/sqlite.go:311-342 | what a state answers at a path: the file with its digest; the directory with its own and one page of its names, or of the paths of all files below it; nothing if no file lies at or below the path |
| Queries.NameInState | internal/sqlite/sqlite.go:345-366 | the names in a directory are those that lead to a file or to a directory holding one |
| Queries.NodeOf | internal/sqlite/get_node_by_path.sql:23-25 | the digest and kind of what the state has at the path that the row stands for |
| Queries.GetNodeChildren | internal/sqlite/sqlite.go:345-366 | the immediate children of the directory in the state, sorted, after the cursor, with digests and kinds |
| Queries.GetNodeChildrenAll | internal/sqlite/sqlite.go:368-392 | all files below the directory in the state, sorted by path, after the cursor, with their own digests |
| Queries.CutChildren | internal/sqlite/sqlite.go:337-341 | cutting the extra child leaves a page and its cursor; without a limit there is none |
| Queries.LookUp | internal/sqlite/sqlite.go:311-342 | from the root row of a version: the answer that its state gives |
| Queries.GetObjectState | internal/sqlite/sqlite.go:283-343 | the answer for any object, version, path, mode, limit and cursor equals the one read off the indexed state. A limit of zero or above 1000 gives the first 1000 children after the cursor and the last one's name as cursor, or all of them and no cursor if there are no more; one from 1 to 1000 just so many; a negative one all of them, but for -1, which is fatal on directories. Invalid and missing paths are told apart |
| Queries.GetContentPath | internal/sqlite/sqlite.go:394-405 | a root and a path where content with the digest is stored; there is an answer if and only if there is a content row for it, and so for every file of every version of every object |
| Queries.AnswersAreStored | internal/index/service.go:149-166 | each file that a path query answers with, itself or as an item, is a file of some version, so its content can be found |
| Listings.ListObjectRoots | internal/sqlite/sqlite.go:136-160 | one page of the roots with their times: the size asked for if that is between 1 and 1000, and else 1000, with the last path as cursor; or all that are left and no cursor |
| Listings.GetObjectByPath | internal/sqlite/sqlite.go:227-240 | the object at a root, or none if there is none: every field its own, and the versions in order of their numbers, each with its name, message and time and, if its user has a name, that user's name and address |
| Listings.ListVersions | internal/sqlite/sqlite.go:241-267 | the versions of an object as first indexed, in increasing order of their numbers |
| Listings.IndexedIsShown | internal/sqlite/sqlite.go:241-280 | of an object just indexed the inventory's own fields are shown, its new versions with their own names, messages, times and users, and those indexed earlier as they were |
| Listings.JoinedMeaning | internal/sqlite/sqlc_queries.sql:82-88 | the joins find an object exactly when it has a first version and the version named as its head, and find their times |
| Listings.ListObjects | internal/sqlite/sqlite.go:163-206 | one page, of the size asked for or of 1000, of those objects whose ids pass the filter and which have a first version and the version named as their head: each with its own root, id, head and specification, the time of its first version and the time of its head |
| Sweep.MarkedRoots | internal/sqlite/sqlc_queries.sql:17-20 | marking roots one after another: those found carry a time of the scan, the others are as they were, ids do not change |
| Sweep.MarkRoots | internal/index/indexer.go:80-119 | no commit of a scan removes a root or touches an object; there is one commit for every thousand roots, and one at the end; a scan that fails leaves the roots found before, rounded down to a multiple of a thousand |
| Sweep.CommitAndBegin | internal/index/indexer.go:97-109 | the database shows what the transaction has written, and a new transaction begins from it |
| Sweep.SyncObjectRoots | internal/index/indexer.go:56-78 | succeeds exactly when the scan does; then the roots left are those found, with a time of the scan, and those not older than its start, as they were, and the objects left are those at them, each as it was; otherwise no commit has removed anything; no node is touched |
| Sweep.Database.NewTx | internal/sqlite/tx.go:26-33 | a transaction starts from what is committed |
| Sweep.Database.Commit | internal/sqlite/tx.go:40-43 | readers see what the transaction has written |
| Indexer.EnteredIsSourced | internal/index/indexer.go:217-227 | indexing an acceptable inventory keeps every object of the library up to date with an inventory of its own |
| Indexer.PlainIsTelling | internal/index/pathtree.go:56-76 | a run's hypothesis on keys holds for inventories without newlines and a collision-free hash |
| Indexer.OthersLeave | internal/index/indexer.go:172-181 | what is indexed at other roots brings no object to a root, and leaves the one that is there as it is unless it belongs to one of them |
| Indexer.JobStaysTrue | internal/index/indexer.go:172-181 | what was read at a root when its inventory was parsed remains true while other roots are indexed |
| Indexer.SkipIsRight | internal/index/indexer.go:212-215 | when the digest read equals the parsed one, indexing the inventory again would leave the library as it is |
| Indexer.NothingToIndex | internal/index/indexer.go:212-216 | a run over roots whose valid inventories are all indexed as they are counts no inventory and leaves the library as it is |
| Indexer.Indexing.constructor | internal/index/indexer.go:121-141 | a run begins with the committed library and nothing done |
| Indexer.Indexing.ListPage | internal/index/indexer.go:267-288 | reads exactly the next page while roots are being renewed, and adds its roots to the work; listing goes on exactly while there is a cursor; listed roots stay distinct and complete up to it |
| Indexer.Indexing.Read | internal/index/indexer.go:172-195 | the job holds what parsing finds: nothing if the inventory is invalid, else the inventory with the digest of the object that is indexed at the root, or none if there is no object |
| Indexer.Indexing.Parse | internal/index/indexer.go:170-196 | moves a root from waiting to parsed, with what parsing finds there: nothing, or the inventory with the digest of the object indexed at the root |
| Indexer.Indexing.Deliver | internal/index/indexer.go:198-243 | deals with one result, which is recorded; counts it, and renews its root's time, exactly if it is valid and not known by its digest; stops exactly when the inventory is not acceptable, leaving the committed database alone; commits exactly after every tenth inventory counted |
| Indexer.Indexing.PassOver | internal/index/indexer.go:203-215 | a result that is invalid or known is done without a change to the library |
| Indexer.Indexing.IndexOne | internal/index/indexer.go:216-242 | counts one more inventory; the transaction shows its effect, with the given time at its root and no other, or the run has stopped; when the count is a multiple of ten the database shows all results so far |
| Indexer.Indexing.CommitTenth | internal/index/indexer.go:231-241 | if the number of inventories is a multiple of ten, the transaction is committed and the database shows all results so far; otherwise it shows what it did before; so fewer than ten are ever indexed without being committed |
| Indexer.Indexing.Finish | internal/index/indexer.go:247-255 | the last commit: the database shows the effect of one result for every root |
| Runs.RunToEnd | internal/index/indexer.go:244 | whatever action comes next, the run ends: with everything done, or stopped at an inventory that is not acceptable |
| Runs.IndexInventories | internal/index/indexer.go:121-258 | in any order of events every commit, and so the database, shows the effect of a prefix of whole results, and is fit for another run; no time of a root changes but those of the inventories indexed. The run covers each root once, unless it meets an inventory that is not acceptable: then the results shown hold a multiple of ten inventories indexed, and those after them fewer than ten. If all valid inventories are indexed as they are, the run succeeds, indexes none and leaves the library as it is |
| Runs.EffectShows | internal/index/indexer.go:121-258 | with distinct ids, later results leave what an inventory's own result has written |
| Runs.AllUpToDate | internal/index/indexer.go:37-51 | after a complete run every valid inventory is indexed as it is, with all its versions |
| Runs.IndexAll | internal/index/indexer.go:37-51 | the roots left are exactly those scanned (and any newer than the start), and each with a valid inventory has it indexed as it is now; it fails only if the scan does, leaving all objects as they were, or if an inventory is not acceptable, leaving the effect of the results so far but for fewer than ten inventories; whichever, the database is fit for another run |
| Runs.AnswersAreTheInventorys | internal/sqlite/sqlite.go:283-343 | for an object up to date with its inventory, a query about a version, or about the head, is answered from the inventory's own state exactly if the version keeps the name it was first indexed under, and is not found otherwise |
| Runs.HeadIsFoundByName | internal/sqlite/get_node_by_path.sql:11-12 | the head is found exactly when it was first indexed under its present name |
| Cases.HeadCanBeLost | internal/sqlite/get_node_by_path.sql:11-12 | a history of two indexings after which the head is not found although its version is |
| Runs.VersionsStay | internal/sqlite/tx.go:143-148 | over any history in which the object is not removed its versions stay as first indexed |
| Runs.AnswersStay | internal/sqlite/sqlite.go:283-343 | over any such history the answers about a version stay the same |
| Runs.IndexedThenAnswered | internal/sqlite/sqlite.go:283-343 | an inventory indexed at any point of a history: afterwards, for as long as its object is not removed, each of its versions is answered from its own state under the name it was first indexed under |
| Runs.Serve | internal/sqlite/tx.go:65-84 | serving requests one by one, each in its own transaction: the committed states are a history, in which every acceptable inventory is indexed and every other refused |
| Runs.ServeOne | internal/sqlite/tx.go:26-84 | one request makes one event of a history; a refused inventory leaves what is committed alone |
| Token.RunKeepsInv | internal/index/indexer.go:133-141 | until the channel is closed there is exactly one token: in the channel, with one goroutine, or with the caller |
| Token.OneHolder | internal/index/indexer.go:173-181 | at most one goroutine has the transaction, and giving it back never blocks |
| Token.SafeToClose | internal/index/indexer.go:137-141 | taken alone, the protocol rules out the use of nil after the close if and only if all goroutines have finished by then |
| Handoff.MoveKeepsInv | internal/index/indexer.go:121-258 | each move of a goroutine keeps the invariants of the pipeline and the token together: one has the transaction only where the program takes it |
| Handoff.RunKeepsInv | internal/index/indexer.go:121-258 | so does every run |
| Handoff.NoPanic | internal/index/indexer.go:133-141 | no run uses a nil transaction or gives one back on a closed channel unless a result has failed |
| Handoff.OneAtATime | internal/index/indexer.go:133-141 | in every run, two goroutines that have the transaction are the same, and the caller does not have it then |
| Handoff.NeverStuck | internal/index/indexer.go:121-258 | sharing the transaction never locks the pipeline up: until the caller closes the channel, some goroutine can move |
| Handoff.MovesUseUp | internal/index/indexer.go:121-258 | every move makes a bound on the remaining moves smaller |
| Handoff.RunsEnd | internal/index/indexer.go:121-258 | every run is finite, for any number of workers and pages, and one that cannot go on has come to the close of the channel with the pipeline back |
| Handoff.PagesRead | internal/index/indexer.go:267-288 | when the pipeline is back without an error, every page of roots has been read |
| Handoff.CanCommitAndClose | internal/index/indexer.go:244-256 | when the pipeline comes back and the token lies in the channel, the caller can commit, give the transaction back, take it again and close |
| Handoff.LateLookup | internal/index/indexer.go:137-141 | from the close of the channel, the use of nil can be reached if and only if some worker has yet to look its object up |
| Handoff.FailedRunPanics | internal/index/indexer.go:137-141 | a run of two workers over two roots: the pipeline is back with an error, a worker is still at work, the channel is closed, and nil is used |
| Pipeline.StepConserves | internal/pipeline/pipeline.go:73-86 | each step keeps accepted items equal, as a multiset, to those with workers, queued and delivered |
| Pipeline.StepKeepsChannels | internal/pipeline/pipeline.go:46-109 | no step sends on a closed channel or closes one twice |
| Pipeline.StepRefusesNone | internal/pipeline/pipeline.go:62-69 | no item is refused before a result fails, and items are accepted in the order of the setup |
| Pipeline.RunKeepsInv | internal/pipeline/pipeline.go:46-109 | all of this, for any number of workers, in every state of every run |
| Pipeline.CleanReturn | internal/pipeline/pipeline.go:92-108 | without a failed result each accepted item was delivered exactly once with its own result, even if the setup failed, nothing offered is missing, and all goroutines have finished |
| Pipeline.NoCallAfterError | internal/pipeline/pipeline.go:98-102 | after an error the result function is never called again |
| Pipeline.InOrderOfSending | internal/pipeline/pipeline.go:73-102 | first in, first out: in every state of every run the results delivered, with those queued, are those sent, in the order of sending |
| Pipeline.SendWaits | internal/pipeline/pipeline.go:51-84 | a worker waits to send a result only while as many are queued as there are workers |
| Pipeline.NeverStuck | internal/pipeline/pipeline.go:92-108 | before the run is back some goroutine can take a step |
| Pipeline.StepsUseUp | internal/pipeline/pipeline.go:46-109 | every step makes a bound on the remaining work smaller |
| Pipeline.RunsEnd | internal/pipeline/pipeline.go:46-109 | every run is finite, and one that cannot go on has returned without a panic |
| Replay.MoveIsAction | internal/index/indexer.go:142-243 | until a result fails, each move of the goroutines changes what the indexer sees as one parsing, as dealing with one result, or not at all |
| Replay.ListUntil | internal/index/indexer.go:267-288 | reading pages until a root is listed moves roots from those to list to those waiting, and nothing else |
| Replay.FollowMove | internal/index/indexer.go:121-258 | the indexer can take the action of any move: it stays abreast of the goroutines and stops exactly where the result function fails |
| Replay.NoneDelivered | internal/pipeline/pipeline.go:92-102 | once a result is refused, nothing more is delivered |
| Replay.Follow | internal/index/indexer.go:121-258 | any run of the goroutines, for any number of workers, is followed to its end |
| Replay.IndexByGoroutines | internal/index/indexer.go:121-258 | when the pipeline is back without an error the database shows every root's inventory, once, in the order of delivery; otherwise those of a prefix of the results delivered, among them a multiple of ten inventories indexed, and fewer than ten after them; and so does every commit on the way; either way it is fit for another run |
| Scheduler.StepKeepsToken | internal/index/async.go:91-100 | tokens held equal callers about to send, plus the queued task, plus the running one, and never exceed one |
| Scheduler.StepKeepsTasks | internal/index/async.go:122-138 | error channels are neither sent to after their close nor closed twice, and values sent match the progress of each task |
| Scheduler.RunKeepsInv | internal/index/async.go:57-79 | these invariants and the status shown hold in every state of every run |
| Scheduler.StatusMeaning | internal/index/async.go:67-78 | the status is the name of the task at work, "busy" if that is empty, and "ready" when there is none |
| Scheduler.TasksAreAccepted | internal/index/async.go:91-100 | in every state of every run the tasks are those accepted so far, in order and under the names given |
| Scheduler.OneTaskAtATime | internal/index/async.go:91-100 | at most one accepted task is unfinished, and while there is one no other is accepted |
| Scheduler.NeverBlocks | internal/index/async.go:92-96 | the send that follows a won token, the report and the return of the token are always possible |
| Scheduler.EndedTasks | internal/index/async.go:122-138 | a task that has come to its end delivered exactly one value before its channel was closed |
| Scheduler.ValueOfTask | internal/index/async.go:122-138 | that value is an error exactly when the function returned one or panicked |
| Scheduler.TasksEnd | internal/index/async.go:57-79 | an accepted task always comes to its end within six steps of its own |
| Monitor.StepKeepsInv | internal/index/async.go:235-264 | each step keeps sessions at most 64, each with an open error channel unless it is being deleted, and uses no closed channel |
| Monitor.RunKeepsInv | internal/index/async.go:200-264 | so does every run |
| Monitor.Admission | internal/index/async.go:238-247 | a request is let in while there are fewer than 64 sessions; at 64 it is told so, leaves, and frees no session |
| Monitor.MessageReachesEach | internal/index/async.go:249-255 | from taking a message on until all is sent, in every run, the loop sends it exactly once to each session, and the sessions stay the same |
| Monitor.ErrorChannelsOpen | internal/index/async.go:249-255 | whenever the loop is about to send on an error channel, the channel is open |
| Monitor.CanLockUp | internal/index/async.go:200-264 | a run after which the loop is jammed: it and a handler wait for each other and nothing but new arrivals can happen |
| Monitor.StuckIffJammed | internal/index/async.go:200-264 | the loop can never move again, in any run, if and only if it is jammed: about to send on a full error channel whose handler reads no more |
| Monitor.JammedForEver | internal/index/async.go:200-264 | in every run from there the loop stays where it is, no session is freed, and every handler that waits for the loop goes on waiting |
| Monitor.LoopCanStep | internal/index/async.go:235-264 | a loop that is not jammed takes its next step at once, or once the handler it reports to has read |
| Monitor.ClosedSession | internal/index/async.go:200-252 | a session's error channel is closed if and only if its handler is gone and the loop is about to delete the session |
| Monitor.CanCloseFirst | internal/index/async.go:200-252 | a run after which a session is still there whose error channel is closed |

## Left out

- Sizes: the only indexing call passes none, so nodes carry digests alone and `dirSizes`, `SetNodeSize` and size columns are absent.
- SHA-256 and hexadecimal decoding: the hash is an arbitrary function on texts, assumed collision-free where that matters; digests are byte sequences, so malformed digests do not occur.
- SQLite: tables are maps with the schema's keys; driver errors, the failure to open a transaction, pragmas, time encoding and the evaluation of SQL text are not modelled. The recursive queries are evaluated level by level.
- `path.Clean` and `path.Join`: `GetObjectState` takes the path after cleaning, and `GetContentPath` returns a root and a path, which the program joins.
- Storage backends, object scanning, inventory reading and validation: a run is given what a scan finds and, for each root, a valid inventory or none; inventories do not change during a run.
- Indexing of selected ids or paths only: runs index every root.
- A context that is cancelled, and errors of `Commit` and `NewTx`.
- The zero time that `IndexObjectRoot` replaces with the current one, and several roots or inventories in one call.
- Messages of errors, logging, HTTP and gRPC handlers, configuration, downloads and commands other than the pager.
- The matching of the id filter of `ListObjects`: it is an arbitrary predicate on ids.
- Dates that the client's iterator attaches to items: it reports keys only; the program fills both dates with that of the first version.
- `RemoveEmptyDirs`, `Len` and `AllPaths`: nothing in the program calls them.
- The error with which a function passed to `Map` asks to skip a directory: it maps a value or fails.
- Shutdown of the scheduler and the monitor, the buffer of messages, and how long a send to a client takes.
- PathTree.Node.Set: says nothing of what happens to `child` afterwards; after setting ".", the program leaves the two roots with one children map, so that a later change to the one shows in the other.
- Copies.Copy: requires valid names along all paths, which setting at valid paths keeps; the program panics otherwise.
- Pipeline.CleanReturn: says nothing about workers after a failed result, which may stay blocked on the result channel.
