# A verified model of kubecast and of the Elm runtime its interface links

kubecast records what is written to terminals in a cluster. A server turns the writes into asciicast files, and an Elm
interface lists and plays them. The repository also holds the parts of the Elm 0.18 runtime and libraries that the
interface is linked with. This project models the parts where most can go wrong, and proves what they are for.

| files | what they model | main results |
|---|---|---|
| `Dict.dfy`, `DictFolds.dfy` | the red-black dictionary, with double-black deletion and `merge` | `RunCorrect`, `HeightLogarithmic`, `Merge` |
| `VirtualDom*.dfy` | comparing attributes, diffing two views, the sparse crawl for the patched nodes, patching the document, pacing by frames | `DiffFactsAppliesIff`, `ApplyDiff`, `AddDomNodesHelp`, `ShowViews`, `RunPaced` |
| `RrbArray.dfy`, `RrbBuild.dfy`, `RrbHeap.dfy` | 32-way arrays: values, construction, and the objects and arrays that versions share | `GuessNeverOvershoots`, `RunArray`, `RunVersions` |
| `Tasks.dfy`, `Scheduler*.dfy` | the task machine, and the cooperative scheduler with its queue and timer | `MachineIsEval`, `LiveUnlessKilledTwice`, `EventuallyEnds` |
| `History.dfy`, `Debugger.dfy` | snapshotted message history, and the time-travel debugger on it | `GetReplays`, `RunIsSession` |
| `Recording.dfy`, `Upload.dfy`, `Json.dfy`, `Text.dfy` | recording sessions over any number of connections | `RecordedIff`, `OneWriterPlaysBack` |
| `Globbing.dfy`, `Listing.dfy`, `CastUi.dfy` | the files the server finds, its list message, and how the interface reads it | `ListingReadBackIff`, `RunIsListed` |
| `Random.dfy` | the random number generator | `NextValid`, `RunValid`, `NthState` |
| `Utf16.dfy` | code points and UTF-16 | `CodePointsSurviveIff`, `StringSurvivesIff` |

Code that computes values is modelled by functions. Code that works by assignment (loops that rebind their parameters,
the DOM, the work queue, the maps of a connection) is modelled by methods and classes, each proved equal to such a
function; the theorems are about the functions and so hold of both. Whatever throws or calls `Debug.crash` gives
`Crash` (or `thrown`), so "does not crash" is something proved and not assumed.

Some properties one would expect are false of the code. They are stated with the exact condition under which they hold:

- A view's attributes are not always brought up to date, because `in` also finds the names that every object inherits,
  and a name that stands for a category of facts is taken for one (`ConstructorIsLost`, `ConstructorStays`,
  `CategoryThrows`). The new view is shown exactly if its attributes can be reached from the old ones
  (`DiffFactsAppliesIff`, `ApplyDiff`), which holds of all views without such names (`PlainMatches`).
- The scheduler loses wake-ups when a process without a task is killed, because `kill` then reads a property of null
  inside `work`, `working` stays set and no timer is left (`KillingTwiceStalls`). It is live exactly as long as no
  process has been killed a second time without being resumed in between (`LiveUnlessKilledTwice`).
- A binding is run again when a message comes for the process that waits for it (`MessageRunsBindingAgain`), and a killed
  process goes on when its binding calls back (`KilledGoesOn`). Processes that are resumed only while their bindings
  wait compute what their tasks mean (`EndedWithEval`).
- Two live connections can write to one session's file. The one that created the file does not append, and overwrites
  what the other wrote (`TwoWritersLose`). All files are right exactly if no entry is written through a handle that
  was overtaken (`RecordedIff`), which one live writer per session ensures (`OneWriterRecords`).
- Two terminals of one host can share a recording, because inode and mount namespace are hashed as one string of digits
  (`TerminalsShareRecording`); they do exactly if the digits are the same (`NumbersRunTogether`), and never if inode or
  namespace agree and the other differs (`InodesTellApart`, `MountsTellApart`), but for equal hashes.
- A listing is read back by the interface exactly if the cleaned data path has no newline in it and does not start
  with a space (`ListingReadBackIff`, `CleaningCounts`); the empty listing is never read back (`EmptyListing`).
- Code points that are not scalar values, and strings with unpaired surrogates, do not survive a round trip; all
  others do (`CodePointsSurviveIff`, `StringSurvivesIff`).
- One random state splits into the same state twice (`HalvesDifferUnless`).

## How the source is represented

- Keys of dictionaries are compared by any function that is a total order. Elm's `compare` is one on each comparable
  type as long as no key is or holds a NaN, of which it says that it is greater than everything.
- Two virtual nodes that are the same object (`a === b`) are skipped by the diff. Which ones are the same object is a
  parameter, of which only is known that equal objects are equal values.
- DOM nodes live in an explicit store, and so do array objects and the JavaScript arrays `table` and `lengths` that
  they refer to, so that sharing and in-place changes are visible.
- An object made by `{}` has its own names and those of `Object.prototype`, which are a constant set.
- What a native binding's callback does before it returns is a list of actions that is a parameter; what happens
  outside is any sequence of events. What a process computes is stated for those that are resumed only while a started
  binding of theirs waits, which is when bindings call back.
- Some fields of a process and of the scheduler (the turns taken, the messages received, whether all resumptions were in
  order, the log of all enqueues) only record the past for the theorems; no step depends on them.
- The user's `update` is a parameter of the debugger; its commands are dropped.
- The data directory is a map from names to contents. `Glob` is Go's: names in order, joined to the directory and
  cleaned by `filepath.Clean`, which is written out. A path is looked up by its base name. A file that was created
  keeps an offset, one opened to append does not. A write whose count exceeds its buffer panics, which ends the
  connection after the files have been created.
- Hashing of session names and the way numbers are written in JSON are parameters; of the latter only the characters
  used are known. Times are exact rationals.
- Integers of the source that cannot leave their range are unbounded here; `>>`, `| 0`, `/` and `%` of JavaScript are
  written out where negative or large operands matter.

## Model

| member | source | states |
|---|---|---|
| `Dict.UpdateCorrect` | ui/elm-stuff/build-artifacts/0.18.0/elm-lang/core/5.1.1/Dict.elmo:724-837 | on every dictionary the library can hand out, `update` (so also `insert` and `remove`) crashes nowhere, keeps the red-black invariant with a root that is not red and ascending keys, and the new contents are the old map with just this key altered |
| `Dict.RunCorrect` | ui/elm-stuff/build-artifacts/0.18.0/elm-lang/core/5.1.1/Dict.elmo:724-905 | after any run of `insert`, `remove` and `update` from `empty` no crash branch was reached, the invariant holds and the contents are those of the same run on a finite map |
| `Dict.HeightLogarithmic` | ui/elm-stuff/build-artifacts/0.18.0/elm-lang/core/5.1.1/Dict.elmo:299-330 | a dictionary of `n` keys is at most `2 * log2(n + 1)` high, said as `2^height <= (n + 1)^2` |
| `Dict.UpShape` | ui/elm-stuff/build-artifacts/0.18.0/elm-lang/core/5.1.1/Dict.elmo:724-828 | one level of `update`: from a red-black tree it never crashes and leaves what its flag announces, a tree with at most a red-red root after an insertion or a double-black root after a removal |
| `Dict.ReassembleShape` | ui/elm-stuff/build-artifacts/0.18.0/elm-lang/core/5.1.1/Dict.elmo:763-812 | rebuilding a node after a change in one child (`Same`, `Insert` through `balance`, `Remove` through `bubble`) keeps what the flag announces |
| `Dict.BalanceInsert` | ui/elm-stuff/build-artifacts/0.18.0/elm-lang/core/5.1.1/Dict.elmo:405-623 | `balance` turns a node with one red-red child back into a tree with the same black height, without a crash |
| `Dict.BalanceLeft` | ui/elm-stuff/build-artifacts/0.18.0/elm-lang/core/5.1.1/Dict.elmo:405-623 | `balance` with a red-red or negative-black left child gives a tree of the right black height |
| `Dict.BalanceRight` | ui/elm-stuff/build-artifacts/0.18.0/elm-lang/core/5.1.1/Dict.elmo:405-623 | the same with the right child |
| `Dict.BubbleLeft` | ui/elm-stuff/build-artifacts/0.18.0/elm-lang/core/5.1.1/Dict.elmo:624-633 | a double-black left child is absorbed or moves one level up, `lessBlack` and `moreBlack` meeting no colour they crash on |
| `Dict.BubbleRight` | ui/elm-stuff/build-artifacts/0.18.0/elm-lang/core/5.1.1/Dict.elmo:624-633 | the same on the right |
| `Dict.RemoveMaxShape` | ui/elm-stuff/build-artifacts/0.18.0/elm-lang/core/5.1.1/Dict.elmo:634-648 | taking out the greatest key leaves a tree or a double-black root, and no crash |
| `Dict.RemShape` | ui/elm-stuff/build-artifacts/0.18.0/elm-lang/core/5.1.1/Dict.elmo:649-704 | removing a root, whatever its colour and children, leaves a tree or a double-black root; neither its two `reportRemBug` branches nor its `Debug.crash` is reached |
| `Dict.BalanceItems` | ui/elm-stuff/build-artifacts/0.18.0/elm-lang/core/5.1.1/Dict.elmo:405-623 | `balance` keeps the pairs in order whenever it does not crash |
| `Dict.BubbleItems` | ui/elm-stuff/build-artifacts/0.18.0/elm-lang/core/5.1.1/Dict.elmo:624-633 | `bubble` keeps the pairs in order |
| `Dict.RemoveMaxItems` | ui/elm-stuff/build-artifacts/0.18.0/elm-lang/core/5.1.1/Dict.elmo:268-285 | `removeMax` removes the last pair and `maxWithDefault` is that pair |
| `Dict.RemItems` | ui/elm-stuff/build-artifacts/0.18.0/elm-lang/core/5.1.1/Dict.elmo:649-704 | `rem` removes the root pair and nothing else |
| `Dict.UpItems` | ui/elm-stuff/build-artifacts/0.18.0/elm-lang/core/5.1.1/Dict.elmo:724-828 | `update` changes the listing at one place: pairs below the key, the altered pair if any, pairs above |
| `Dict.ItemsExact` | ui/elm-stuff/build-artifacts/0.18.0/elm-lang/core/5.1.1/Dict.elmo:43-56 | the listing of a dictionary holds a pair exactly when its map does |
| `DictFolds.Get` | ui/elm-stuff/build-artifacts/0.18.0/elm-lang/core/5.1.1/Dict.elmo:231-258 | the loop of `get` finds exactly what the map holds |
| `DictFolds.Foldr` | ui/elm-stuff/build-artifacts/0.18.0/elm-lang/core/5.1.1/Dict.elmo:1-22 | the loop of `foldr` is the fold of the ascending listing from the right |
| `DictFolds.Foldl` | ui/elm-stuff/build-artifacts/0.18.0/elm-lang/core/5.1.1/Dict.elmo:57-78 | the loop of `foldl` is the fold of the ascending listing from the left |
| `DictFolds.ToList` | ui/elm-stuff/build-artifacts/0.18.0/elm-lang/core/5.1.1/Dict.elmo:43-56 | `toList` is strictly ascending and has exactly the pairs of the map |
| `DictFolds.SizeHelp` | ui/elm-stuff/build-artifacts/0.18.0/elm-lang/core/5.1.1/Dict.elmo:212-230 | `size` counts the keys |
| `DictFolds.FindMax` | ui/elm-stuff/build-artifacts/0.18.0/elm-lang/core/5.1.1/Dict.elmo:268-285 | the loop of `maxWithDefault` is the last pair |
| `DictFolds.StepStateLoop` | ui/elm-stuff/build-artifacts/0.18.0/elm-lang/core/5.1.1/Dict.elmo:79-149 | the loop of `stepState` passes the smaller left keys to leftStep and then takes the right key, alone or with the equal left key |
| `DictFolds.MergeCallsExact` | ui/elm-stuff/build-artifacts/0.18.0/elm-lang/core/5.1.1/Dict.elmo:79-149 | the calls of `merge` are in ascending key order, and a call is made exactly when it is due: one for each key of the union, of the right kind and with the right values |
| `DictFolds.Merge` | ui/elm-stuff/build-artifacts/0.18.0/elm-lang/core/5.1.1/Dict.elmo:79-149 | `merge` gives the result of exactly those calls in that order |
| `VirtualDomRenderer.NodeHelp` | ui/elm-stuff/packages/elm-lang/virtual-dom/2.0.4/src/Native/VirtualDom.js:34-59 | the stored `descendantsCount` is the number of nodes below |
| `VirtualDomShape.RenderShows` | ui/elm-stuff/packages/elm-lang/virtual-dom/2.0.4/src/Native/VirtualDom.js:291-364 | `render` creates, in fresh nodes only, a tree that shows the virtual node |
| `VirtualDomShape.ShownPicture` | ui/elm-stuff/packages/elm-lang/virtual-dom/2.0.4/src/Native/VirtualDom.js:291-364 | a document that shows a virtual node displays the picture of it, read off the document alone |
| `VirtualDomFacts.OrganizeFacts` | ui/elm-stuff/packages/elm-lang/virtual-dom/2.0.4/src/Native/VirtualDom.js:151-200 | the facts of an element hold the last value given to each attribute name, and never one for `__proto__` |
| `VirtualDomFacts.LastValueCounts` | ui/elm-stuff/packages/elm-lang/virtual-dom/2.0.4/src/Native/VirtualDom.js:151-200 | an attribute name has the value it was given last |
| `VirtualDomFacts.DiffAttrsLoop` | ui/elm-stuff/packages/elm-lang/virtual-dom/2.0.4/src/Native/VirtualDom.js:733-795 | the loops of `diffFacts` enter for each name what the comparison says, where `in` also finds names inherited from `Object.prototype`, and throw exactly when a category name with a text comes up in both |
| `VirtualDomFacts.ChangesExactly` | ui/elm-stuff/packages/elm-lang/virtual-dom/2.0.4/src/Native/VirtualDom.js:733-795 | a name that means nothing else gets an entry exactly if it comes, goes or changes, or is `value`, which is set again each time; the entry is the new value or a removal |
| `VirtualDomFacts.DiffFactsAppliesIff` | ui/elm-stuff/packages/elm-lang/virtual-dom/2.0.4/src/Native/VirtualDom.js:733-795 | for all attributes: the diff is made and brings the old ones to the new ones if and only if there was no attribute object before, or every inherited name is in both or in neither and category names are empty in both |
| `VirtualDomFacts.ConstructorIsLost` | ui/elm-stuff/packages/elm-lang/virtual-dom/2.0.4/src/Native/VirtualDom.js:785-791 | an attribute named `constructor` is not added to an element that has other attributes |
| `VirtualDomFacts.ConstructorStays` | ui/elm-stuff/packages/elm-lang/virtual-dom/2.0.4/src/Native/VirtualDom.js:750-765 | it is not removed either, but set to the text of the inherited function |
| `VirtualDomFacts.CategoryThrows` | ui/elm-stuff/packages/elm-lang/virtual-dom/2.0.4/src/Native/VirtualDom.js:738-748 | a view with an attribute named `STYLE` that has a text cannot be compared with itself |
| `VirtualDomRenderer.Renderer.RenderNode` | ui/elm-stuff/packages/elm-lang/virtual-dom/2.0.4/src/Native/VirtualDom.js:291-364 | `render` on the document object does what the rendering function says |
| `VirtualDomRenderer.Renderer.DiffHelp` | ui/elm-stuff/packages/elm-lang/virtual-dom/2.0.4/src/Native/VirtualDom.js:551-669 | `diffHelp` appends the patches of the diff to the shared list and changes nothing else |
| `VirtualDomRenderer.Renderer.DiffChildrenOf` | ui/elm-stuff/packages/elm-lang/virtual-dom/2.0.4/src/Native/VirtualDom.js:798-828 | `diffChildren` appends the length patch and then the diffs of the children, numbered in preorder |
| `VirtualDomAttach.DiffIndices` | ui/elm-stuff/packages/elm-lang/virtual-dom/2.0.4/src/Native/VirtualDom.js:551-669 | patches come out with ascending indices within `index .. index + descendantsCount` |
| `VirtualDomAttach.PreorderLength` | ui/elm-stuff/packages/elm-lang/virtual-dom/2.0.4/src/Native/VirtualDom.js:34-59 | a rendering of a node has one node more than its `descendantsCount` |
| `VirtualDomAttach.AttachBelow` | ui/elm-stuff/packages/elm-lang/virtual-dom/2.0.4/src/Native/VirtualDom.js:1101-1211 | numbering the patches of the children within the whole tree or within each child attaches them to the same nodes |
| `VirtualDomRenderer.Renderer.AddDomNodesHelp` | ui/elm-stuff/packages/elm-lang/virtual-dom/2.0.4/src/Native/VirtualDom.js:1101-1211 | the sparse crawl attaches every patch from `low` to `high` to the node with that preorder number, skips the rest, and never reaches its throw |
| `VirtualDomRenderer.Renderer.AddDomNodes` | ui/elm-stuff/packages/elm-lang/virtual-dom/2.0.4/src/Native/VirtualDom.js:1094-1098 | after the crawl every patch hangs at the node with its preorder index |
| `VirtualDomPatch.ApplyDiff` | ui/elm-stuff/packages/elm-lang/virtual-dom/2.0.4/src/Native/VirtualDom.js:1218-1287 | for all trees `a` and `b` whose diff does not throw: applying the attached patches of `diff(a, b)` to a rendering of `a` crashes nowhere, touches nothing outside it, leaves a rendering of `b` in its place if and only if the attributes of all elements compared could be reached, and keeps a node of the document exactly when old and new are both texts or elements with the same tag and namespace, at every level |
| `VirtualDomPatch.UpdatedIsNewIff` | ui/elm-stuff/packages/elm-lang/virtual-dom/2.0.4/src/Native/VirtualDom.js:551-669 | what the patches make of `a` looks like `b`, and the diff does not throw, if and only if the attributes of all elements compared could be reached |
| `VirtualDomPatch.PlainMatches` | ui/elm-stuff/packages/elm-lang/virtual-dom/2.0.4/src/Native/VirtualDom.js:733-795 | for views without inherited and category names that condition always holds |
| `VirtualDomPatch.NothingToDo` | ui/elm-stuff/packages/elm-lang/virtual-dom/2.0.4/src/Native/VirtualDom.js:551-669 | a view built again, with such names and no `value`, gives no patches |
| `VirtualDomPatch.ApplyRedraw` | ui/elm-stuff/packages/elm-lang/virtual-dom/2.0.4/src/Native/VirtualDom.js:1317-1332 | a redraw puts a rendering of the new node in the place of the old one |
| `VirtualDomPatch.ApplyRemoveLast` | ui/elm-stuff/packages/elm-lang/virtual-dom/2.0.4/src/Native/VirtualDom.js:1273-1279 | removing the last children leaves a rendering of the first ones |
| `VirtualDomPatch.ApplyAppend` | ui/elm-stuff/packages/elm-lang/virtual-dom/2.0.4/src/Native/VirtualDom.js:1281-1287 | appending renders the further children after the old ones |
| `VirtualDomRenderer.Renderer.ApplyPatchesHelp` | ui/elm-stuff/packages/elm-lang/virtual-dom/2.0.4/src/Native/VirtualDom.js:1229-1242 | the loop over the patches follows the root when it is replaced |
| `VirtualDomRenderer.Renderer.Rerender` | ui/elm-stuff/packages/elm-lang/virtual-dom/2.0.4/src/Native/VirtualDom.js:1563-1566 | diff, crawl and patch together: it throws exactly when the diff does and then changes nothing; otherwise the document shows the new view where the old one was, if and only if its attributes could be reached |
| `VirtualDomRenderer.Renderer.RenderBelow` | ui/elm-stuff/packages/elm-lang/virtual-dom/2.0.4/src/Native/VirtualDom.js:1523-1533 | the first view is rendered and hung below its parent, all else in the page being left alone |
| `VirtualDomShape.DepthFits` | ui/elm-stuff/packages/elm-lang/virtual-dom/2.0.4/src/Native/VirtualDom.js:291-364 | every view has a depth to which it can be read off the document |
| `VirtualDomRenderer.Renderer.ShowViews` | ui/elm-stuff/packages/elm-lang/virtual-dom/2.0.4/src/Native/VirtualDom.js:1543-1585 | over a whole program below some node of the page, after any number of views each reachable from the one before, the document displays exactly the latest view |
| `VirtualDomStepper.RunPaced` | ui/elm-stuff/packages/elm-lang/virtual-dom/2.0.4/src/Native/VirtualDom.js:1543-1585 | however models and frames interleave, the "Unexpected draw callback" throw is not reached, exactly one frame is requested while something is to be drawn, and otherwise the latest model is drawn |
| `VirtualDomStepper.RestsAfterTwo` | ui/elm-stuff/packages/elm-lang/virtual-dom/2.0.4/src/Native/VirtualDom.js:1549-1574 | after any run one frame draws the latest model and two bring the stepper to rest |
| `VirtualDomStepper.RequestsExactly` | ui/elm-stuff/packages/elm-lang/virtual-dom/2.0.4/src/Native/VirtualDom.js:1549-1584 | the phase is that of the number of frames since the last model: the frame that draws asks for one more, that one for none, and models in between ask for none of their own |
| `VirtualDomStepper.Stepper.Step` | ui/elm-stuff/packages/elm-lang/virtual-dom/2.0.4/src/Native/VirtualDom.js:1576-1584 | a new model requests a frame only when none is requested |
| `VirtualDomStepper.Stepper.UpdateIfNeeded` | ui/elm-stuff/packages/elm-lang/virtual-dom/2.0.4/src/Native/VirtualDom.js:1549-1574 | a frame leaves the document showing the view of the model that the pacing says is drawn |
| `RrbArray.GuessNeverOvershoots` | ui/elm-stuff/packages/elm-lang/core/5.1.1/src/Native/Array.js:830-838 | the radix guess `i >> (5 * height)`, with JavaScript's masked shift, is never beyond the slot that holds `i` |
| `RrbArray.PackedGuessExact` | ui/elm-stuff/packages/elm-lang/core/5.1.1/src/Native/Array.js:830-838 | in the arrays the library builds the guess is that slot |
| `RrbArray.GetSlot` | ui/elm-stuff/packages/elm-lang/core/5.1.1/src/Native/Array.js:830-838 | the forward scan stops at the one slot holding `i` |
| `RrbArray.UnsafeGet` | ui/elm-stuff/packages/elm-lang/core/5.1.1/src/Native/Array.js:38-54 | the loop down the levels reads the `i`-th element |
| `RrbArray.Get` | ui/elm-stuff/packages/elm-lang/core/5.1.1/src/Native/Array.js:26-36 | `get` gives the `i`-th element, and throws exactly when there is none |
| `RrbArray.UnsafeSet` | ui/elm-stuff/packages/elm-lang/core/5.1.1/src/Native/Array.js:69-87 | `unsafeSet` changes one element of the sequence and keeps the shape |
| `RrbArray.Set` | ui/elm-stuff/packages/elm-lang/core/5.1.1/src/Native/Array.js:59-66 | `set` updates the sequence, or leaves it alone for an index out of range |
| `RrbArray.Create` | ui/elm-stuff/packages/elm-lang/core/5.1.1/src/Native/Array.js:842-858 | `create` makes a tree of the given height with one element |
| `RrbArray.SibliseShaped` | ui/elm-stuff/packages/elm-lang/core/5.1.1/src/Native/Array.js:877-885 | two trees of the same height become one, a level higher, with the elements of both |
| `RrbArray.PushIntoAppends` | ui/elm-stuff/packages/elm-lang/core/5.1.1/src/Native/Array.js:249-298 | `push_` appends one element and keeps the shape when it finds room |
| `RrbArray.PushIntoPacked` | ui/elm-stuff/packages/elm-lang/core/5.1.1/src/Native/Array.js:249-298 | in a packed tree `push_` finds room exactly when the tree is not full, and keeps it packed |
| `RrbArray.PushAppends` | ui/elm-stuff/packages/elm-lang/core/5.1.1/src/Native/Array.js:234-246 | `push` appends one element to any well-shaped array |
| `RrbArray.PushGood` | ui/elm-stuff/packages/elm-lang/core/5.1.1/src/Native/Array.js:234-246 | `push` keeps arrays packed and no higher than needed |
| `RrbArray.GoodHeight` | ui/elm-stuff/packages/elm-lang/core/5.1.1/src/Native/Array.js:15-23 | an array of fewer than 2^31 elements is at most 6 levels high, so no shift is cut off by its mask |
| `RrbBuild.FromListPush` | ui/elm-stuff/packages/elm-lang/core/5.1.1/src/Native/Array.js:197-231 | hanging a tree into the level above, moving complete tables up, keeps every level packed and the elements in order |
| `RrbBuild.FillLeaves` | ui/elm-stuff/packages/elm-lang/core/5.1.1/src/Native/Array.js:139-174 | the loop over the list fills leaves of 32 and pushes them up |
| `RrbBuild.CloseLevels` | ui/elm-stuff/packages/elm-lang/core/5.1.1/src/Native/Array.js:176-194 | closing the levels gives one packed array with all the elements |
| `RrbBuild.FromList` | ui/elm-stuff/packages/elm-lang/core/5.1.1/src/Native/Array.js:132-194 | `fromList` builds a good array whose elements are the list |
| `RrbBuild.InitializeRange` | ui/elm-stuff/packages/elm-lang/core/5.1.1/src/Native/Array.js:100-130 | `initialize_` builds a packed tree of the given height holding `f(from) .. f(to - 1)` |
| `RrbBuild.Initialize` | ui/elm-stuff/packages/elm-lang/core/5.1.1/src/Native/Array.js:90-98 | `initialize` tabulates the function |
| `RrbBuild.FromJSArray` | ui/elm-stuff/packages/elm-lang/core/5.1.1/src/Native/Array.js:910-945 | `fromJSArray` builds an array with the same elements |
| `RrbBuild.ToListOnto` | ui/elm-stuff/packages/elm-lang/core/5.1.1/src/Native/Array.js:301-316 | `toList_` puts the elements in front of a list |
| `RrbBuild.ListRoundTrip` | ui/elm-stuff/packages/elm-lang/core/5.1.1/src/Native/Array.js:301-316 | `toList` undoes `fromList`, for every list |
| `RrbBuild.IndexedMapFrom` | ui/elm-stuff/packages/elm-lang/core/5.1.1/src/Native/Array.js:341-364 | `indexedMap_` maps every element with its own index and keeps the shape |
| `RrbBuild.WriteInto` | ui/elm-stuff/packages/elm-lang/core/5.1.1/src/Native/Array.js:894-907 | `toJSArray_` writes the elements at their places and nothing else |
| `RrbBuild.JSArrayRoundTrip` | ui/elm-stuff/packages/elm-lang/core/5.1.1/src/Native/Array.js:887-945 | `toJSArray` undoes `fromJSArray`, for every array and any height that fits |
| `RrbBuild.RunArray` | ui/elm-stuff/packages/elm-lang/core/5.1.1/src/Native/Array.js:59-364 | any run of `push`, `set` and `indexedMap` keeps the shape and agrees with the same run on a plain sequence |
| `RrbHeap.Heap.CopyNode` | ui/elm-stuff/packages/elm-lang/core/5.1.1/src/Native/Array.js:801-813 | `nodeCopy` of an inner node allocates the object and a `slice()` of each of its two arrays |
| `RrbHeap.Heap.CopyLeaf` | ui/elm-stuff/packages/elm-lang/core/5.1.1/src/Native/Array.js:801-813 | the same for a leaf and its table |
| `RrbHeap.Heap.UnsafeSet` | ui/elm-stuff/packages/elm-lang/core/5.1.1/src/Native/Array.js:69-87 | on objects that refer to arrays of their own: only new arrays are written to, and the result holds the updated sequence |
| `RrbHeap.Heap.Set` | ui/elm-stuff/packages/elm-lang/core/5.1.1/src/Native/Array.js:59-66 | `set` leaves every older object and array, its argument included, exactly what it was, whatever they share |
| `RrbHeap.Heap.PushInto` | ui/elm-stuff/packages/elm-lang/core/5.1.1/src/Native/Array.js:249-298 | `push_` writes to the arrays of its copies only; what it does not change is shared |
| `RrbHeap.Heap.Push` | ui/elm-stuff/packages/elm-lang/core/5.1.1/src/Native/Array.js:234-246 | `push` leaves every older array exactly what it was |
| `RrbHeap.Heap.IndexedMapFrom` | ui/elm-stuff/packages/elm-lang/core/5.1.1/src/Native/Array.js:346-364 | `indexedMap_` makes new objects and tables that hold the mapped sequence and share the old `lengths` |
| `RrbHeap.Heap.IndexedMap` | ui/elm-stuff/packages/elm-lang/core/5.1.1/src/Native/Array.js:341-364 | `indexedMap` leaves every older array exactly what it was |
| `RrbHeap.Heap.Map` | ui/elm-stuff/packages/elm-lang/core/5.1.1/src/Native/Array.js:319-338 | `map` holds the mapped sequence, shares `lengths` and writes to nothing old |
| `RrbHeap.Heap.RunVersions` | ui/elm-stuff/packages/elm-lang/core/5.1.1/src/Native/Array.js:59-364 | after any run of `push`, `set` and `indexedMap`, each on any version made so far, every version still holds the elements it was made with and keeps its shape |
| `Tasks.MachineIsEval` | ui/elm-stuff/packages/elm-lang/core/5.1.1/src/Native/Scheduler.js:130-213 | for every task and whatever messages and answers to bindings it is given, the `root`/`stack` machine ends with a verdict if and only if direct recursive evaluation on that input gives that verdict, and both leave the same input unused |
| `Tasks.EvalRuns` | ui/elm-stuff/packages/elm-lang/core/5.1.1/src/Native/Scheduler.js:130-213 | evaluation of a task under any stack is a stretch of machine steps that leaves the stack alone |
| `Tasks.RunEvals` | ui/elm-stuff/packages/elm-lang/core/5.1.1/src/Native/Scheduler.js:130-213 | a machine run that ends has evaluated the task at its root |
| `Tasks.MoreInput` | ui/elm-stuff/packages/elm-lang/core/5.1.1/src/Native/Scheduler.js:192-213 | messages and answers that come later change nothing about the steps taken |
| `Scheduler.TurnIsMachineStep` | ui/elm-stuff/packages/elm-lang/core/5.1.1/src/Native/Scheduler.js:130-225 | one turn of `step` that starts no binding is one step of the task machine on root, stack and mailbox, or none where the machine has none; it takes messages from the front of the mailbox, and a process is left alone only when it has nothing to do |
| `Scheduler.OrderlyUnless` | ui/elm-stuff/packages/elm-lang/core/5.1.1/src/Native/Scheduler.js:64-114 | a process counts as resumed out of order only by a resumption while no started binding of it waits |
| `Scheduler.ActKeeps` | ui/elm-stuff/packages/elm-lang/core/5.1.1/src/Native/Scheduler.js:64-114 | spawning, sending and resuming keep the invariant; only killing a process that has no task throws |
| `Scheduler.StepKeeps` | ui/elm-stuff/packages/elm-lang/core/5.1.1/src/Native/Scheduler.js:130-225 | `step` leaves its process at rest, in the queue, or waiting for the outside |
| `Scheduler.WorkKeepsLive` | ui/elm-stuff/packages/elm-lang/core/5.1.1/src/Native/Scheduler.js:244-261 | a run of `work` from a live state ends live if and only if nothing is thrown |
| `SchedulerRuns.RunRecorded` | ui/elm-stuff/packages/elm-lang/core/5.1.1/src/Native/Scheduler.js:64-261 | a run throws if and only if, among the actions performed in it, some process is killed a second time without having been resumed in between |
| `SchedulerRuns.LiveUnlessKilledTwice` | ui/elm-stuff/packages/elm-lang/core/5.1.1/src/Native/Scheduler.js:64-261 | over every run from the start: every process with something to do is queued and exactly one timer is pending while `working` is set, if and only if no process was killed a second time without being resumed in between; otherwise the scheduler is stalled for good |
| `SchedulerRuns.LiveIfKilledOnce` | ui/elm-stuff/packages/elm-lang/core/5.1.1/src/Native/Scheduler.js:64-261 | if no process is ever killed twice, every run stays live |
| `SchedulerRuns.MessagesDelivered` | ui/elm-stuff/packages/elm-lang/core/5.1.1/src/Native/Scheduler.js:87-91 | in every run in which nobody is killed twice: what a process has received followed by its mailbox is the list of messages sent to it since it was spawned, in order |
| `SchedulerRuns.SleeperGoesOn` | ui/elm-stuff/packages/elm-lang/core/5.1.1/src/Native/Scheduler.js:117-127 | a process whose binding is answered from outside goes on with the answer above the stack it had, and counts as in order |
| `Scheduler.StalledForGood` | ui/elm-stuff/packages/elm-lang/core/5.1.1/src/Native/Scheduler.js:233-261 | a stalled scheduler serves nobody, whatever happens |
| `SchedulerRuns.KillingTwiceStalls` | ui/elm-stuff/packages/elm-lang/core/5.1.1/src/Native/Scheduler.js:101-114 | a concrete run that stalls: `Process.kill p` and then, in the next binding, `Process.kill p` again |
| `SchedulerRuns.MessageRunsBindingAgain` | ui/elm-stuff/packages/elm-lang/core/5.1.1/src/Native/Scheduler.js:192-200 | a concrete run in which one process runs its one binding twice: a message comes while it waits |
| `SchedulerRuns.KilledGoesOn` | ui/elm-stuff/packages/elm-lang/core/5.1.1/src/Native/Scheduler.js:101-114 | a process that was killed while its binding waited goes on when the binding calls back |
| `Scheduler.ServedInTurn` | ui/elm-stuff/packages/elm-lang/core/5.1.1/src/Native/Scheduler.js:233-261 | a process at position `k` of the queue is dequeued within `k + 1` runs of `work` |
| `Scheduler.WorkBudget` | ui/elm-stuff/packages/elm-lang/core/5.1.1/src/Native/Scheduler.js:218-261 | each run of `work` takes at most MAX_STEPS turns |
| `SchedulerEnds.EndedWithEval` | ui/elm-stuff/packages/elm-lang/core/5.1.1/src/Native/Scheduler.js:64-225 | in every run, however sliced and interleaved: what a process has ended with, that was resumed only while its binding waited, is what its task evaluates to on the messages sent to it and the answers given to its bindings, both read off the actions performed; the messages that evaluation leaves are in its mailbox |
| `SchedulerEnds.NeverResumedInOrder` | ui/elm-stuff/packages/elm-lang/core/5.1.1/src/Native/Scheduler.js:64-114 | a process that nobody resumed is in order |
| `SchedulerEnds.AwakeUntilEval` | ui/elm-stuff/packages/elm-lang/core/5.1.1/src/Native/Scheduler.js:64-225 | in every run: such a process whose task evaluates on what it was given, and that was not killed, has something to do until it holds the verdict |
| `SchedulerEnds.EventuallyEnds` | ui/elm-stuff/packages/elm-lang/core/5.1.1/src/Native/Scheduler.js:64-261 | in every endless run in which the timer fires again and again: such a process, if nobody kills or resumes it from then on, does end with the verdict of the evaluation, whatever further messages come |
| `SchedulerRuntime.Runtime.RawSpawn` | ui/elm-stuff/packages/elm-lang/core/5.1.1/src/Native/Scheduler.js:64-77 | `rawSpawn` on the scheduler object |
| `SchedulerRuntime.Runtime.RawSend` | ui/elm-stuff/packages/elm-lang/core/5.1.1/src/Native/Scheduler.js:87-91 | `rawSend` puts the message at the end of the mailbox and queues the process |
| `SchedulerRuntime.Runtime.KillProcess` | ui/elm-stuff/packages/elm-lang/core/5.1.1/src/Native/Scheduler.js:101-114 | `kill` clears the root, and throws exactly when there is none |
| `SchedulerRuntime.Runtime.Settle` | ui/elm-stuff/packages/elm-lang/core/5.1.1/src/Native/Scheduler.js:136-166 | the inner loops pop the frames that do not take the verdict, and only those |
| `SchedulerRuntime.Runtime.StepProcess` | ui/elm-stuff/packages/elm-lang/core/5.1.1/src/Native/Scheduler.js:130-225 | the loop of `step` is the transition the theorems are about |
| `SchedulerRuntime.Runtime.Enqueue` | ui/elm-stuff/packages/elm-lang/core/5.1.1/src/Native/Scheduler.js:233-242 | `enqueue` starts a timer only when none is pending |
| `SchedulerRuntime.Runtime.WorkNow` | ui/elm-stuff/packages/elm-lang/core/5.1.1/src/Native/Scheduler.js:244-261 | the loop of `work` is the transition the theorems are about, and keeps the scheduler live unless it throws |
| `History.AddExtends` | ui/elm-stuff/build-artifacts/0.18.0/elm-lang/virtual-dom/2.0.4/VirtualDom-History.elmo:229-276 | for every log, `add` takes the history of the log to the history of the log with one message more, wherever the 64-message snapshots fall |
| `History.GetReplays` | ui/elm-stuff/build-artifacts/0.18.0/elm-lang/virtual-dom/2.0.4/VirtualDom-History.elmo:314-367 | for every log and every index: `get` gives the replay of messages `0..index` and that message if the log has it, and crashes if and only if it does not |
| `History.InitialModelKept` | ui/elm-stuff/build-artifacts/0.18.0/elm-lang/virtual-dom/2.0.4/VirtualDom-History.elmo:127-135 | the initial model can be read off every history |
| `History.EncodeIsLog` | ui/elm-stuff/build-artifacts/0.18.0/elm-lang/virtual-dom/2.0.4/VirtualDom-History.elmo:102-125 | the export is the message log |
| `History.DecodeIsHistory` | ui/elm-stuff/build-artifacts/0.18.0/elm-lang/virtual-dom/2.0.4/VirtualDom-History.elmo:277-305 | importing a list of messages gives their history and their replay |
| `History.DecodeUndoesEncode` | ui/elm-stuff/build-artifacts/0.18.0/elm-lang/virtual-dom/2.0.4/VirtualDom-History.elmo:102-135 | import undoes export, latest model included |
| `History.ViewIsLog` | ui/elm-stuff/build-artifacts/0.18.0/elm-lang/virtual-dom/2.0.4/VirtualDom-History.elmo:57-83 | the sidebar lists each message once, in order, under an index `get` accepts, and selects exactly the one paused at |
| `Debugger.WrapUpdate` | ui/elm-stuff/build-artifacts/0.18.0/elm-lang/virtual-dom/2.0.4/VirtualDom-Debug.elmo:399-533 | the loop that turns key presses into jumps does what the update function says |
| `Debugger.UserMsgRefines` | ui/elm-stuff/build-artifacts/0.18.0/elm-lang/virtual-dom/2.0.4/VirtualDom-Debug.elmo:352-398 | a user message extends the log; a paused debugger stays at its index and model |
| `Debugger.JumpRefines` | ui/elm-stuff/build-artifacts/0.18.0/elm-lang/virtual-dom/2.0.4/VirtualDom-Debug.elmo:444-461 | a jump shows the replay up to its index, and crashes exactly outside the log |
| `Debugger.LoadRefines` | ui/elm-stuff/build-artifacts/0.18.0/elm-lang/virtual-dom/2.0.4/VirtualDom-Debug.elmo:69-100 | an import replaces log and latest model |
| `Debugger.UpdateRefines` | ui/elm-stuff/build-artifacts/0.18.0/elm-lang/virtual-dom/2.0.4/VirtualDom-Debug.elmo:399-533 | every message does to the debugger what it does to a session that holds the log and the index only |
| `Debugger.RunIsSession` | ui/elm-stuff/build-artifacts/0.18.0/elm-lang/virtual-dom/2.0.4/VirtualDom-Debug.elmo:352-533 | in every run the latest model is the fold of all messages, a paused index is in the log and its model is the replay to it, and the run crashes exactly when the session does |
| `Debugger.KeysNeverCrash` | ui/elm-stuff/build-artifacts/0.18.0/elm-lang/virtual-dom/2.0.4/VirtualDom-Debug.elmo:476-533 | no run without explicit jumps crashes: Up and Down never leave the log |
| `Debugger.ExportImport` | ui/elm-stuff/build-artifacts/0.18.0/elm-lang/virtual-dom/2.0.4/VirtualDom-Debug.elmo:69-100 | exporting at any time and importing the export resumes on the same history and model |
| `Recording.ReceiveRecords` | cmd/server/main.go:141-258 | one write leaves the session's files as they should be, if and only if its handle was not overtaken by another writer; what the connection caches stays right |
| `Recording.ReceiveFrame` | cmd/server/main.go:141-258 | a write touches no other session, on disk or in the caches |
| `Recording.WrittenAppendsIff` | cmd/server/main.go:201-227 | bytes land at the end of a file if and only if the handle appends or its offset is the length of the file |
| `Recording.RecordedIff` | cmd/server/main.go:136-260 | for every run of connections: all files are right after every event if and only if no entry is written through an overtaken handle |
| `Recording.OneWriterRecords` | cmd/server/main.go:136-260 | with at most one live writer per session nothing fails, and every cast file is its header and one entry per write in arrival order, timed from the second of the first write even after reconnects |
| `Recording.OneWriterPlaysBack` | cmd/server/main.go:136-260 | with at most one live writer per session every session's file plays its writes back: the header says the second of the first write, and then comes one entry for each write in arrival order, whose time plus that second is the moment of the write, with its text |
| `Recording.TwoWritersLose` | cmd/server/main.go:197-230 | two live writers on one session do lose an entry |
| `Recording.CastHeader` | cmd/server/main.go:232-252 | the header that a reconnect reads back is that of the session's first write |
| `Recording.CastLines` | pkg/asciinema/asciinema.go:19-67 | splitting a cast file on newlines gives the header and the entries, one line each (asciicast v2, Header and Event stream) |
| `Recording.EntryRead` | pkg/asciinema/asciinema.go:43-67 | an entry is one line, and its time and its text can be read back from it |
| `Recording.HeaderRead` | pkg/asciinema/asciinema.go:19-41 | the header is one line, and reads back as version 2, 80 columns, 32 rows and the second of the first write |
| `Recording.FirstEntryTime` | pkg/asciinema/asciinema.go:19-46 | the first entry's time is at least 0 and less than 1 |
| `Recording.TimesApart` | pkg/asciinema/asciinema.go:46 | two entries of a recording are as many seconds apart as their writes were |
| `Recording.CastPlaysBack` | pkg/asciinema/asciinema.go:19-67 | splitting and reading the file that the writes should give finds the header and each write at its own moment |
| `Recording.InodesTellApart` | cmd/server/main.go:152-153 | on one host and in one mount namespace, two writes are one session under every hash if and only if their inodes are equal |
| `Recording.MountsTellApart` | cmd/server/main.go:152-153 | on one host and for one inode, if and only if their mount namespaces are equal |
| `Recording.HostsTellApart` | cmd/server/main.go:152-153 | for one inode and one mount namespace, if and only if their hosts are equal |
| `Recording.OtherFieldsTellNothing` | cmd/server/main.go:152-153 | the moment, the text and the labels of a write make no difference to its session |
| `Recording.NumbersRunTogether` | cmd/server/main.go:152-153 | on one host two writes are one session under every hash if and only if inode and mount namespace, written one after the other, give the same digits |
| `Recording.TerminalsShareRecording` | cmd/server/main.go:152-153 | so inode 1 in namespace 23 and inode 12 in namespace 3 share one recording |
| `Recording.WrittenExactly` | cmd/server/main.go:201-227 | the bytes of a write are where the handle was, which is then behind them; all else stays, and a gap is filled with nulls |
| `Recording.SanitizedJoin` | cmd/server/main.go:154-168 | labels are sanitised piece by piece, in order |
| `Recording.SanitizedOne` | cmd/server/main.go:154-168 | a character stays if it is a letter, a digit or a hyphen |
| `Recording.TranslatedFront` | pkg/asciinema/asciinema.go:48-49 | a newline becomes a return and a newline, a shift-out a null, and every other character stays |
| `Text.ScanReturns` | cmd/server/main.go:101-104 | the lines of a label file are its parts without the returns before their ends |
| `Text.ScanUnended` | cmd/server/main.go:101-104 | a last line without an end counts if it is not empty |
| `Text.ReadEscaped` | pkg/asciinema/asciinema.go:51 | a text written as a JSON string is read back, whatever it is, by a reader that takes no raw control characters (section 7 of RFC 8259) |
| `Text.EscapedIsSafe` | pkg/asciinema/asciinema.go:51 | no control character, `<`, `>`, `&` or JavaScript line end is left in a written string |
| `Text.EscapePlain` | pkg/asciinema/asciinema.go:51 | a text without those, quotes and backslashes is written as it is |
| `Json.ObjectRead` | pkg/asciinema/asciinema.go:27 | an object of numbers is one line and is read back |
| `Recording.FilesThereAre` | cmd/server/main.go:136-260 | after any run that does not fail, the files in the data directory are the two of each session that writes have come for, and no others |
| `Recording.NewlinesReturned` | pkg/asciinema/asciinema.go:48-49 | in a recorded text every newline follows a carriage return and there are no shift-outs |
| `Upload.Connection.WriteLabelsFile` | cmd/server/main.go:154-195 | the label file is written once, with the sanitised labels |
| `Upload.Connection.OpenCastFile` | cmd/server/main.go:197-230 | the cast file is created with a header or opened to append, and cached |
| `Upload.Connection.LearnTimestamp` | cmd/server/main.go:232-252 | the start is read from the header unless it is cached |
| `Upload.Connection.Append` | pkg/asciinema/asciinema.go:43-67 | the entry is written at the handle's place |
| `Upload.Connection.ReceiveWrite` | cmd/server/main.go:141-258 | one turn of the upload loop is the transition the theorems are about |
| `Upload.Connection.HandleUpload` | cmd/server/main.go:136-260 | the whole loop, until the connection ends, panics, or a fatal error |
| `Upload.UploadIsRun` | cmd/server/main.go:136-260 | the loop of one connection is a run of the server |
| `Globbing.PathBehindPrefix` | cmd/server/main.go:79-83 | the cleaned path that `Glob` gives a file is its name behind a prefix that depends on the data path alone |
| `Globbing.FoundUnique` | cmd/server/main.go:79-83 | what `Glob` finds, all names that end in `.cast` in ascending order, is determined by the files there are |
| `Globbing.BeforeIff` | cmd/server/main.go:79-83 | names are in order by the first character in which they differ, and before those they start |
| `Globbing.ComponentsCanonical` | cmd/server/main.go:79-83 | a cleaned path has no empty component and no dot, and steps up only in front and only if it is not rooted |
| `Globbing.Glob` | cmd/server/main.go:79-83 | it finds just those names and gives their cleaned paths |
| `Listing.HashOfCastPath` | cmd/server/main.go:85-91 | the list handler gets a session's hash back from the cleaned path of its file |
| `Listing.Lister.ListOnce` | cmd/server/main.go:76-119 | for any files and anything remembered: one turn gives the message about the files `Glob` finds, or fails where a name is no number or a label file is missing, and remembers what it has read |
| `Listing.ToldIsMessage` | cmd/server/main.go:83-119 | for files of the recorder the message is made of the labels on disk, whatever was remembered |
| `Listing.CacheStays` | cmd/server/main.go:93-111 | no event of the recorder makes a remembered label wrong |
| `Listing.FoundAreSessions` | cmd/server/main.go:79-83 | after any run `Glob` finds one file for each session that writes have come for, no label files and nothing else |
| `Listing.MessageOfRecord` | cmd/server/main.go:76-119 | on a disk that the recorder kept, listing what is found never fails and names every session that writes have come for, once, with the labels of its first write |
| `CastUi.OddAndEven` | ui/src/Cast/Helpers.elm:3-33 | odd and even elements take two interleaved lists apart |
| `CastUi.TrimExactly` | ui/src/Cast/Update.elm:14-20 | `trim` takes away all spaces at both ends and nothing else |
| `CastUi.ListingReadBackIff` | ui/src/Cast/Update.elm:14-20 | for every listing that is not empty, the interface recovers exactly the server's paths and label strings in order if and only if the cleaned data path has no newline and does not start with a space |
| `CastUi.CleaningCounts` | cmd/server/main.go:79-83 | it is the cleaned path that counts: for a name that starts with a space, data path `./name` is not read back, and `name/../other` is |
| `CastUi.LabelsReadBack` | cmd/server/main.go:113-118 | splitting a label string at dots gives its labels back |
| `CastUi.EmptyListing` | ui/src/Cast/Update.elm:14-20 | the empty listing is shown as one cast without a name |
| `CastUi.ChosenOnce` | ui/src/Cast/Update.elm:26-35 | over any list messages the player is told at most once to show a cast that has a name: the first line of the first message that has one, which stays chosen |
| `CastUi.RunIsListed` | ui/src/Cast/Update.elm:14-20 | from the terminal to the screen: after any one-writer run, whatever the list handler remembers, the interface shows every session that writes have come for, once, with namespace, pod, container and host of its first write in this order, if and only if the cleaned data path can be read back; if there are none it shows one cast without a name |
| `Random.NextValid` | ui/elm-stuff/build-artifacts/0.18.0/elm-lang/core/5.1.1/Random.elmo:238-255 | `next` computes `40014 * s1 mod 2147483563` and `40692 * s2 mod 2147483399`, with every intermediate within 32 bits, both states in `1..m-1`, and the output in `1..2147483562` and congruent to their difference |
| `Random.NextInjective` | ui/elm-stuff/build-artifacts/0.18.0/elm-lang/core/5.1.1/Random.elmo:238-255 | `next` never takes two states to one |
| `Random.PreviousUndoesNext` | ui/elm-stuff/build-artifacts/0.18.0/elm-lang/core/5.1.1/Random.elmo:238-255 | `next` can be undone |
| `Random.NthState` | ui/elm-stuff/build-artifacts/0.18.0/elm-lang/core/5.1.1/Random.elmo:238-255 | after `n` steps the states are the first ones times the `n`-th powers of the multipliers |
| `Random.InitValid` | ui/elm-stuff/build-artifacts/0.18.0/elm-lang/core/5.1.1/Random.elmo:231-237 | every seed gives states in range |
| `Random.SeedRecovered` | ui/elm-stuff/build-artifacts/0.18.0/elm-lang/core/5.1.1/Random.elmo:231-237 | a seed can be read off its states, so no two seeds from 0 to `2^53` give the same; the sign is ignored |
| `Random.SplitInjective` | ui/elm-stuff/build-artifacts/0.18.0/elm-lang/core/5.1.1/Random.elmo:256-271 | no two states split into the same two |
| `Random.SplitHalves` | ui/elm-stuff/build-artifacts/0.18.0/elm-lang/core/5.1.1/Random.elmo:256-271 | the first half has the second part of the next state and one more than the old first part, the second half the first part of the next state and one less than the old second part, each round the end of its range |
| `Random.HalvesDifferUnless` | ui/elm-stuff/build-artifacts/0.18.0/elm-lang/core/5.1.1/Random.elmo:256-271 | the two halves of a valid state are different, if and only if it is not the state (591707852, 1228505531) |
| `Random.RunValid` | ui/elm-stuff/build-artifacts/0.18.0/elm-lang/core/5.1.1/Random.elmo:231-271 | from every seed, through any run of `next` and `split`, states and outputs stay in range |
| `Random.NumberLoop` | ui/elm-stuff/build-artifacts/0.18.0/elm-lang/core/5.1.1/Random.elmo:282-302 | the loop of `int` makes a number of the outputs as digits |
| `Random.NumberIsDigits` | ui/elm-stuff/build-artifacts/0.18.0/elm-lang/core/5.1.1/Random.elmo:282-302 | the number is the leading 1 followed by the next outputs as digits, the first counting most, and the state has moved on by as many |
| `Random.DigitsSuffice` | ui/elm-stuff/build-artifacts/0.18.0/elm-lang/core/5.1.1/Random.elmo:67-70 | `iLogBase` gives so many digits as the number has in that base |
| `Random.IntBetween` | ui/elm-stuff/build-artifacts/0.18.0/elm-lang/core/5.1.1/Random.elmo:275-320 | `int` gives a number between its bounds, whichever is the lower |
| `Random.ListHelp` | ui/elm-stuff/build-artifacts/0.18.0/elm-lang/core/5.1.1/Random.elmo:39-64 | `listHelp` gives so many values, the first generated first |
| `Utf16.ToCodePoints` | ui/elm-stuff/build-artifacts/0.18.0/elm-community/string-extra/1.4.0/String-Extra.elmo:104-171 | the loop of `toCodePoints` decodes the string |
| `Utf16.FromCodePoints` | ui/elm-stuff/build-artifacts/0.18.0/elm-community/string-extra/1.4.0/String-Extra.elmo:172-229 | the loop of `fromCodePoints` encodes the code points |
| `Utf16.CodePointsSurviveIff` | ui/elm-stuff/build-artifacts/0.18.0/elm-community/string-extra/1.4.0/String-Extra.elmo:104-229 | code points survive encoding and decoding if and only if all are Unicode scalar values (section 2.1 of RFC 2781) |
| `Utf16.StringSurvivesIff` | ui/elm-stuff/build-artifacts/0.18.0/elm-community/string-extra/1.4.0/String-Extra.elmo:104-229 | a string survives decoding and encoding if and only if its surrogates are paired (section 2.2 of RFC 2781) |
| `Utf16.PairsCountUp` | ui/elm-stuff/build-artifacts/0.18.0/elm-community/string-extra/1.4.0/String-Extra.elmo:104-229 | pairs stand for the code points from 65536 on, counted up by the trailing surrogate first (section 2.1 of RFC 2781) |
| `Utf16.RepairReplaces` | ui/elm-stuff/build-artifacts/0.18.0/elm-community/string-extra/1.4.0/String-Extra.elmo:104-229 | decoding and encoding turns every stray surrogate into one replacement character and changes nothing else |
| `Utf16.RepairIdempotent` | ui/elm-stuff/build-artifacts/0.18.0/elm-community/string-extra/1.4.0/String-Extra.elmo:104-229 | decoding and encoding twice is the same as once, for all strings |

## Left out

- Dictionaries: `union`, `filter`, `intersect`, `partition`, `diff`, `fromList` and `map`, which are folds over the operations modelled here and would only add easy members.
- Virtual DOM: keyed children, `map` taggers, thunks, custom nodes, events, styles, properties and namespaced attributes. Root thunks and sentinel removals make equality depend on the browser.
- VirtualDomStepper.Stepper.UpdateIfNeeded: for views without inherited and category names, so that every view can be reached from every other.
- Virtual DOM: what the browser makes of an attribute's value, and that it takes the names of HTML attributes in lower case; `high` is undefined in the source for a text root and 0 here, which compares alike.
- Arrays: `append`, `slice` and their helpers do not keep the shape that the other operations need; `foldl` and `foldr` follow the loops modelled here. Items of mapped arrays are of the same type in `RrbHeap`.
- RrbBuild.Initialize: the height is any that fits the length, in place of the floating-point logarithm of the source.
- RrbBuild.RunArray: like `GetSlot`, `Get` and `Set`, for fewer than 2^31 elements, since longer arrays have indices that the source's 32-bit shift cannot take.
- Scheduler: cancel functions, `sleep`, and exceptions thrown by user callbacks. A binding that calls back when it is not waited for, as when a message has made the scheduler run it again, can put any task at the root; nothing is said of what its process computes.
- Debugger: the overlay and its metadata, the expando, commands and scrolling; an import is modelled from the point at which its messages have been read.
- Recording: headers that this server has not written; file and network errors, and the moment between looking for a file and creating it, which the source does not guard; each write is one step.
- Globbing.Glob: for data paths without the pattern characters `*`, `?`, `[` and backslash, with which the source lists other directories; links are not modelled, so `..` after one leads back as `filepath.Clean` assumes.
- Recording.EntryRead: texts are sequences of characters, so what the encoder does to bytes that are not UTF-8 is not modelled.
- Floating-point rounding of entry times, and of the products inside the random `int` when its range needs two digits.
- Random.SeedRecovered: for seeds below 2^53, above which the source divides rounded numbers.
- Random: `float`, `bool`, `map` and the other combinators.
- The BPF program, its loader, the Docker client, HTTP and websocket plumbing, the player, styles and deployment files.
