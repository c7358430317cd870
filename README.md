# CodePod pod store and rich-text flattening, in Dafny

This project models the client-side core of CodePod, a notebook built from
*pods*: code, rich-text (WYSIWYG) and container (DECK) blocks arranged in a
tree under a synthetic `ROOT` pod. Two pieces are modelled.

- **The repository store** (`ui/src/lib/store.js`). It is one sequential state
  owner, modelled as the class `RepoStore.Store`; every dispatch is a method call.
  - **Pod tree.** The pods are a map from id to pod, with parent links, ordered
    child lists and sibling `index` keys. The store edits the tree with `addPod`
    and `deletePod` and builds it from the server's flat list with `normalize`.
  - **Dirty tracking.** A pod's status is `dirty` when its fingerprint (`hashPod`)
    differs from the last one the server acknowledged, and `synced` otherwise.
    It is `syncing` while an update is in flight.
  - **Structural sync queue.** The `podQueueMiddleware` prepares each structural
    edit: it assigns `addPod`'s id and collects `deletePod`'s subtree. It then
    runs the reducer, queues the action, and starts a drain of the queue's head
    only when no drain is in flight.
  - **Kernel and session bookkeeping.** The store keeps the session id, one
    runtime socket per language (`spawn`), the kernel statuses and the
    `WS_*` result, output and error deliveries.
  - **Namespace.** `selectNamespace` is the path of ancestor ids of a pod.
- **Rich-text flattening** (`ui/src/components/nodes/Rich.tsx`).
  `prosemirrorToPlainText` flattens a ProseMirror document to text, and a
  collapsed rich-text pod is labelled with that text's first line.

Modules, one file each:
- `Wrappers` (wrappers.dfy).
- `PodModel` (pod.dfy): the pod record, the fingerprint, and the status rule.
- `PodTree` (tree.dfy): the stable sort by index, the sibling shift, the
  subtree collection, the add and delete edits, and the tree invariant
  `WellFormed`, which both edits are proved to preserve.
- `PodNamespace` (namespace.dfy).
- `Normalize` (normalize.dfy). Loading establishes `WellFormed` when the
  server's list describes a tree (`Normalize.ServerTree`):
  - ids are distinct;
  - parent and child references agree;
  - no child list repeats an id;
  - the parentless pods come in ascending index.

  The store's initial, empty pod map is not well formed. In that state every
  `addPod` and `deletePod` throws, because `ROOT` is missing
  (`RepoStore.EmptyStoreEditsThrow`).
- `RepoStore` (store.dfy): the store class and its protocol invariant `Valid`.
- `RichText` (richtext.dfy).

### How the model treats the source

**Throwing handlers.** A reducer that throws leaves the state as it was,
because the drafted changes are then discarded. Each such method returns
`raised` and states that nothing changed when it is true. The conditions under
which the source would throw are modelled as predicates: `AddPodThrows` and
`DeletePodThrows` (a field of `undefined` is read), a `None` subtree and a
`None` chain. A `None` subtree also covers a cycle in the child links, where
the source's recursive `dfs` overflows the stack. A `None` chain also covers a
cycle in the parent links, where the source's `while` loop never ends.

**The remote outcomes.** The network calls are not modelled. Their outcomes
(data or errors, fulfilled or rejected) are the parameters of the handlers.

**Behaviour the model keeps as the code is written.**
- A successful acknowledgment of the queue's head does not start the next
  drain; only a later enqueue does (`RepoStore.QueueWaitsForNextEnqueue`).
- `loopPodQueue`'s rejected handler clears `queueProcessing` and then throws.
  The cleared flag is therefore discarded, and the queue stays busy.
- `normalize` does not check parent references: a dangling parent id is kept
  as sent. A dangling child reference throws where the sort compares it; the
  requires of `Normalize.NormalizePods` excludes it.
- `ROOT`'s children keep input order; only the other pods' child lists are
  sorted by index.
- `resetSessionId` leaves the runtime sockets in place.
- On acknowledgment, `remoteUpdatePod` fingerprints the pod as it is then,
  not as it was when the update was sent. The race this opens (an edit made while the update is in
  flight is marked synced) is shown by `RepoStore.EditDuringSyncIsMarkedSynced`
  and not changed.

## Model

| member | source | states |
|---|---|---|
| PodModel.HashPod | ui/src/lib/store.js:64-75 | definition of `hashPod` over the six synced fields; specified by PodModel.HashPodDependsOnSyncedFields |
| PodModel.HashPodDependsOnSyncedFields | ui/src/lib/store.js:64-75 | two pods get the same fingerprint exactly when they agree on id, content, type, lang, result and stdout |
| PodModel.ComputePodStatus | ui/src/lib/store.js:77-83 | only `status` changes; it is dirty iff the acknowledged fingerprint is not the pod's own, synced iff it is |
| PodModel.ComputePodStatusIdempotent | ui/src/lib/store.js:77-83 | recomputing the status leaves the fingerprint alone, so a second recomputation changes nothing |
| PodModel.NewPod | ui/src/lib/store.js:339-357 | the pod addPod creates has the given id, type, index and parent, no children, is synced and acknowledges its own fingerprint |
| PodModel.RootPod | ui/src/lib/store.js:86-92 | definition of the `ROOT` entry `normalize` starts from, a parentless DECK pod; specified by Normalize.NormalizePods |
| PodTree.SortByKey | ui/src/lib/store.js:366-369 | sorting a child list by index yields a permutation of it that is ordered by index |
| PodTree.Insert | ui/src/lib/store.js:366-369 | inserting an id adds exactly that id to the list, as a multiset |
| PodTree.InsertSorted | ui/src/lib/store.js:366-369 | inserting into a list ordered by index keeps it ordered |
| PodTree.ShiftIndices | ui/src/lib/store.js:328-332 | the sibling loop keeps the set of pod ids |
| PodTree.ShiftIndicesKeepsFields | ui/src/lib/store.js:328-332 | the sibling loop changes no field of any pod but its index |
| PodTree.ShiftIndicesOutside | ui/src/lib/store.js:328-332 | a pod not in the visited list is left exactly as it was |
| PodTree.ShiftIndicesEffect | ui/src/lib/store.js:328-332 | over a repetition-free list, exactly the listed pods whose index is at least the bound move by the delta; all others keep their index |
| PodTree.IndexOf | ui/src/lib/store.js:375 | the first position of the id, or -1 exactly when it is absent |
| PodTree.SpliceOne | ui/src/lib/store.js:384 | removes the element at an in-range position, the last element for -1, nothing for a position past the end |
| PodTree.Dfs | ui/src/lib/store.js:535-536 | definition of the middleware's `dfs`, `None` where the source reads a missing pod or recurses forever; specified by PodTree.DfsWithin, PodTree.DfsClosed and PodTree.DfsReached |
| PodTree.Subtree | ui/src/lib/store.js:530-538 | definition of the `toDelete` list collected from the id; specified by PodTree.SubtreeClosed and PodTree.SubtreeParents |
| PodTree.DfsWithin | ui/src/lib/store.js:535-537 | a completed collection starts with the id and lists only present pods off the ancestor path |
| PodTree.DfsClosed | ui/src/lib/store.js:535-537 | a completed collection lists every child of every listed pod |
| PodTree.DfsReached | ui/src/lib/store.js:535-537 | every listed id but the first is a child of a listed pod |
| PodTree.SubtreeClosed | ui/src/lib/store.js:535-537 | `toDelete` starts with the id, is closed under children and never lists the id as a child |
| PodTree.SubtreeParents | ui/src/lib/store.js:535-537 | in a linked tree, the parent of every collected id but the first is collected too |
| PodTree.SubtreeFacts | ui/src/lib/store.js:530-538 | in a well-formed tree, neither the root nor the deleted pod's parent is collected for deletion |
| PodTree.DeleteCollectsTwoDescendants | ui/src/lib/store.js:535-537 | a pod with two children yields the three ids, the pod first, in pre-order |
| PodTree.ParentOrRoot | ui/src/lib/store.js:323-325 | definition of `if (!parent) parent = "ROOT"`: a missing or empty parent means `ROOT`; used by RepoStore.Store.AddPod |
| PodTree.AddPodThrows | ui/src/lib/store.js:326-332 | definition of when `addPod` reads a field of `undefined`: a missing parent or a missing child of it; specified by RepoStore.Store.AddPod |
| PodTree.AddPodSpec | ui/src/lib/store.js:321-370 | addPod adds exactly the new id, and every child the parent then lists is a stored pod |
| PodTree.AddPodParentList | ui/src/lib/store.js:333-369 | the parent's new child list is repetition-free and holds exactly the old children and the new id |
| PodTree.AddPodShiftsSiblings | ui/src/lib/store.js:322-332 | adds one key; exactly the parent's children with index at least the new index move up by one; no other field of any existing pod changes except the parent's child list |
| PodTree.AddPodInsertsChild | ui/src/lib/store.js:333-369 | the new pod is the synced leaf of NewPod; the parent's children are the old ones plus the new id (as a multiset), ordered by the new indices |
| PodTree.AddPodPreservesWellFormed | ui/src/lib/store.js:321-370 | addPod under a present parent with a fresh id does not throw and keeps the tree invariant (root present and parentless, parent and child links agree, child lists distinct and sorted by index) |
| PodTree.AddPodKeepsWellFormed | ui/src/lib/store.js:321-370 | whenever addPod does not throw and the id is fresh, a well-formed tree stays well-formed |
| PodTree.AddInFrontOfSibling | ui/src/lib/store.js:321-370 | adding at index 0 in front of a child at index 0 moves that child to index 1 and lists the new pod first |
| PodTree.DeletePodThrows | ui/src/lib/store.js:371-384 | definition of when `deletePod` reads a field of `undefined`: a missing pod, parent or sibling; specified by RepoStore.Store.DeletePod |
| PodTree.DeletePodSpec | ui/src/lib/store.js:371-388 | definition of the pods after `deletePod`; specified by PodTree.DeletePodEffect and PodTree.DeletePodPreservesWellFormed |
| PodTree.DeletePodEffect | ui/src/lib/store.js:371-388 | every `toDelete` id is removed; the siblings whose index is at least the deleted id's position move down by one; the first occurrence of the id leaves the parent's list; nothing else changes |
| PodTree.DeletePodParentList | ui/src/lib/store.js:371-388 | in a well-formed tree the parent survives, and its new list is the old one with the deleted id spliced out, still repetition-free |
| PodTree.DeletePodParentSorted | ui/src/lib/store.js:371-388 | after the shift and the splice, the parent's child list is still ordered by index |
| PodTree.DeletePodPreservesWellFormed | ui/src/lib/store.js:371-388 | deleting a non-root pod with the subtree the middleware collects does not throw and keeps the tree invariant |
| PodTree.DeletePodKeepsWellFormed | ui/src/lib/store.js:371-388 | whenever the subtree is collected and deletePod does not throw, a well-formed tree stays well-formed |
| PodNamespace.Chain | ui/src/lib/store.js:269-275 | definition of the ids the upward walk pushes, `None` where it does not reach `ROOT` within `steps` parent links; specified by PodNamespace.ChainFollowsParents and PodNamespace.ChainNoRepeat |
| PodNamespace.ChainFollowsParents | ui/src/lib/store.js:269-275 | the upward walk starts at the pod, follows parent links, never visits the root and ends at a child of the root |
| PodNamespace.ChainNoRepeat | ui/src/lib/store.js:269-275 | a walk that reaches the root visits no pod twice |
| PodNamespace.ChainUnique | ui/src/lib/store.js:269-275 | the walk does not depend on the step bound it was found with |
| PodNamespace.AncestorsOutermostFirst | ui/src/lib/store.js:277 | the ancestors run from a child of the root down to the pod's parent, each the parent of the next; empty exactly when the parent is the root |
| PodNamespace.Reverse | ui/src/lib/store.js:277 | `reverse()` puts element i at position length-1-i |
| PodNamespace.Join | ui/src/lib/store.js:277 | definition of `join`; specified by PodNamespace.JoinAppend |
| PodNamespace.JoinAppend | ui/src/lib/store.js:277 | joining two non-empty lists of parts puts exactly one separator between their joins |
| PodNamespace.JoinSnoc | ui/src/lib/store.js:277 | appending one part to a non-empty list of parts adds one separator and that part to the join |
| PodNamespace.Namespace | ui/src/lib/store.js:277 | definition of `res.slice(1).reverse().join("/")`; specified by PodNamespace.AncestorsOutermostFirst and PodNamespace.NamespaceTwoLevels |
| PodNamespace.NamespaceUnderRoot | ui/src/lib/store.js:268-280 | a pod directly under the root has the empty namespace |
| PodNamespace.SelectNamespace | ui/src/lib/store.js:266-280 | the loop, walking a fresh copy of the id, returns the ancestor ids, outermost first, joined with "/" |
| PodNamespace.NamespaceSelector.constructor | ui/src/lib/store.js:266-267 | the selector closes over the given id |
| PodNamespace.NamespaceSelector.Select | ui/src/lib/store.js:267-279 | one evaluation as written returns the namespace of the captured id and leaves the captured id at `ROOT` |
| PodNamespace.SelectorReusedIsEmpty | ui/src/lib/store.js:266-280 | the selector for C below B below A, evaluated twice, gives "A/B" and then "" |
| PodNamespace.SelectTwiceAgrees | ui/src/lib/store.js:266-280 | with the id taken afresh, two evaluations both give "A/B" |
| PodNamespace.NamespaceTwoLevels | ui/src/lib/store.js:268-280 | a pod below B below A below the root has the namespace "A/B" |
| Normalize.ById | ui/src/lib/store.js:95-97 | definition of the last-wins id map of the first pass; specified by Normalize.ByIdKeys and Normalize.ByIdSource |
| Normalize.ByIdKeys | ui/src/lib/store.js:95-97 | the index holds exactly the input ids |
| Normalize.ByIdSource | ui/src/lib/store.js:95-97 | each indexed pod is the last occurrence of its id in the input |
| Normalize.LastOccurrenceIndexed | ui/src/lib/store.js:95-97 | the last occurrence of an id is the pod indexed under it |
| Normalize.ParentlessIds | ui/src/lib/store.js:99-102 | an id is among the root's children exactly when some input pod with that id has no parent |
| Normalize.NormalizePod | ui/src/lib/store.js:98-119 | definition of one pod as the second pass leaves it; specified by Normalize.NormalizePodFacts |
| Normalize.NormalizePodFacts | ui/src/lib/store.js:98-119 | a loaded pod keeps its fields, defaults its parent to the root, has its references permuted and sorted by index, its content and result parsed where the source parses them, is synced and acknowledges its own fingerprint |
| Normalize.NormalizePods | ui/src/lib/store.js:85-121 | the output holds `ROOT` plus every input id; `ROOT` lists the parentless pods in input order; each id maps to its last occurrence, normalised; a server tree loads as a well-formed pod map |
| Normalize.NormalizeEach | ui/src/lib/store.js:98-120 | the second pass normalises every indexed pod and collects the parentless ids under the root |
| Normalize.NormalizeVisit | ui/src/lib/store.js:98-119 | the visiting loop collects the parentless ids in input order and normalises every pod of the last-wins index |
| Normalize.ParentlessNoDup | ui/src/lib/store.js:99-102 | with distinct ids, the root's child list repeats no id |
| Normalize.ParentlessSorted | ui/src/lib/store.js:99-102 | when the parentless pods come in ascending index, so do the root's children |
| Normalize.LoadedPodFacts | ui/src/lib/store.js:98-119 | every loaded pod keeps its index, takes `ROOT` for a missing parent, and has its references permuted and sorted by index |
| Normalize.LoadedParentLinks | ui/src/lib/store.js:98-105 | loading a tree whose parents list their children links every pod but `ROOT` to a parent that lists it |
| Normalize.LoadedChildLinks | ui/src/lib/store.js:98-108 | loading a tree whose children name their parent makes every listed child, `ROOT`'s included, name the listing pod |
| Normalize.LoadedRootList | ui/src/lib/store.js:99-102 | `ROOT`'s loaded child list repeats no id and is sorted by index |
| Normalize.LoadedPodLists | ui/src/lib/store.js:107-110 | every other loaded child list repeats no id and is sorted by the loaded indices |
| Normalize.ShapedWellFormed | ui/src/lib/store.js:85-121 | a pod map shaped by loading a server tree satisfies the tree invariant |
| Normalize.LoadedWellFormed | ui/src/lib/store.js:85-121 | loading a server list that describes a tree establishes the tree invariant |
| RepoStore.IsPodQueueAction | ui/src/lib/store.js:510-516 | definition of `isPodQueueAction`; it decides what RepoStore.Store.Schedule queues and what the protocol invariant `Valid` allows in the queue |
| RepoStore.Store.constructor | ui/src/lib/store.js:285-303 | the initial state: nothing loaded, an empty queue that is idle, the julia and racket kernels at "NA" |
| RepoStore.Store.ResetSessionId | ui/src/lib/store.js:305-307 | only the session id changes; the runtime sockets stay |
| RepoStore.Store.EnsureSessionRuntime | ui/src/lib/store.js:308-315 | a socket and one spawn of (session, lang) are added only for a language without a socket; otherwise nothing changes |
| RepoStore.Store.SetRepo | ui/src/lib/store.js:316-320 | sets the repository name and user |
| RepoStore.Store.SetPodContent | ui/src/lib/store.js:389-394 | changes only the pod's content and status; dirty iff the acknowledged fingerprint differs; a missing pod throws |
| RepoStore.Store.ClearResults | ui/src/lib/store.js:395-400 | empties result and stdout and clears the error, status untouched |
| RepoStore.Store.SetPodType | ui/src/lib/store.js:401-405 | as SetPodContent, for the type |
| RepoStore.Store.SetPodLang | ui/src/lib/store.js:406-410 | as SetPodContent, for the language |
| RepoStore.Store.AddPodQueue | ui/src/lib/store.js:411-413 | appends the action to the queue |
| RepoStore.Store.LoopPending | ui/src/lib/store.js:416-419 | the queue becomes busy and its head is sent |
| RepoStore.Store.LoopFulfilled | ui/src/lib/store.js:420-429 | a response with errors throws and leaves head and flag; otherwise exactly the head is removed and the queue is idle |
| RepoStore.Store.LoopRejected | ui/src/lib/store.js:430-433 | the handler always throws, so the busy flag it clears is discarded and the protocol invariant still holds |
| RepoStore.Store.LoadFulfilled | ui/src/lib/store.js:435-445 | an error response throws; otherwise the pods are the normalised server list and the repo is loaded, and a server tree yields a well-formed pod map |
| RepoStore.Store.LoadRejected | ui/src/lib/store.js:446-448 | the handler always throws |
| RepoStore.Store.RemoteUpdatePending | ui/src/lib/store.js:449-455 | only the pod's status changes, to syncing |
| RepoStore.Store.RemoteUpdateFulfilled | ui/src/lib/store.js:456-463 | the pod's current fingerprint becomes the acknowledged one and it is synced, so recomputing its status changes nothing |
| RepoStore.Store.RemoteUpdateRejected | ui/src/lib/store.js:464-469 | the handler always throws |
| RepoStore.Store.WsStatus | ui/src/lib/store.js:470-473 | only the kernel's status changes; an unknown language throws |
| RepoStore.Store.WsConnected | ui/src/lib/store.js:474-476 | the runtime is connected |
| RepoStore.Store.WsDisconnected | ui/src/lib/store.js:477-479 | the runtime is disconnected |
| RepoStore.Store.WsResult | ui/src/lib/store.js:480-486 | only the pod's result changes, to the delivered text and count |
| RepoStore.Store.WsStdout | ui/src/lib/store.js:487-492 | only the pod's stdout changes; it is replaced, not appended to |
| RepoStore.Store.WsSimpleError | ui/src/lib/store.js:493-498 | only the pod's error changes, to a simple message |
| RepoStore.Store.WsError | ui/src/lib/store.js:499-506 | only the pod's error changes, to the name, value and stack trace |
| RepoStore.Store.ShiftSiblings | ui/src/lib/store.js:328-332 | the sibling loop computes ShiftIndices of the old pods |
| RepoStore.Store.AddPod | ui/src/lib/store.js:321-370 | throws exactly when the parent or one of its children is missing; otherwise the pods become AddPodSpec |
| RepoStore.Store.InsertPod | ui/src/lib/store.js:327-369 | shift, store, push and sort compute AddPodSpec |
| RepoStore.Store.DeletePod | ui/src/lib/store.js:371-388 | throws exactly when the pod, its parent or a sibling is missing; otherwise the pods become DeletePodSpec |
| RepoStore.Store.Schedule | ui/src/lib/store.js:543-550 | a queue action is appended; a drain of the head starts only when none is in flight; other actions change nothing |
| RepoStore.Store.DispatchAddPod | ui/src/lib/store.js:518-553 | the id is "CP" plus the ten generated characters; the action is queued only if the reducer did not throw, and a drain of the queue's head starts exactly when none was in flight; the tree invariant and the queue protocol are kept |
| RepoStore.Store.DispatchDeletePod | ui/src/lib/store.js:530-553 | a failing subtree collection or reducer throws and changes nothing; otherwise the reducer runs with the collected subtree and the action is queued, and a drain of the queue's head starts exactly when none was in flight; tree invariant and queue protocol are kept |
| RepoStore.EmptyStoreEditsThrow | ui/src/lib/store.js:518-545 | on a freshly constructed store both an addPod at the top level and a deletePod of any id throw before reaching the queue, so nothing is queued |
| RepoStore.QueueWaitsForNextEnqueue | ui/src/lib/store.js:420-429 | after two quick edits and the first acknowledgment, the second waits unsent and the queue is idle |
| RepoStore.EditDuringSyncIsMarkedSynced | ui/src/lib/store.js:456-463 | an edit made while the update is in flight is acknowledged with the edited fingerprint, not the one sent, and the pod is marked synced |
| RichText.TextOf | ui/src/components/nodes/Rich.tsx:796-802 | definition of the text a paragraph or heading copies from its text children; specified by RichText.TextOfChars and RichText.AppendTexts |
| RichText.Contribution | ui/src/components/nodes/Rich.tsx:791-829 | definition, as written, of what one node appends; specified by RichText.ContributionAgrees |
| RichText.Flatten | ui/src/components/nodes/Rich.tsx:789-830 | definition, as written, of the pass over a node list; specified by RichText.FlattenAgrees and RichText.FlattenPrefixThrows |
| RichText.PlainText | ui/src/components/nodes/Rich.tsx:785-832 | definition, as written, of `prosemirrorToPlainText`; specified by RichText.PlainTextAgrees and RichText.ProsemirrorToPlainText |
| RichText.EmptyHeadingThrows | ui/src/components/nodes/Rich.tsx:808-819 | a document holding one heading without content makes the source throw; the corrected text is empty |
| RichText.ContributionAgrees | ui/src/components/nodes/Rich.tsx:791-829 | a node's contribution as written throws exactly when a contentless heading is reached, and otherwise equals the corrected one |
| RichText.FlattenAgrees | ui/src/components/nodes/Rich.tsx:789-830 | the flattening as written throws exactly when some node reaches a contentless heading, and otherwise yields the corrected text |
| RichText.PlainTextAgrees | ui/src/components/nodes/Rich.tsx:785-832 | at document level: None exactly for a contentless document or a reached contentless heading, the corrected text otherwise |
| RichText.FlattenGuardedAppend | ui/src/components/nodes/Rich.tsx:789-830 | the text of a node list is the text of its parts concatenated, in document order |
| RichText.FlattenGuardedSingle | ui/src/components/nodes/Rich.tsx:791-829 | one node's text is its contribution |
| RichText.TextOfChars | ui/src/components/nodes/Rich.tsx:798-802 | every character a paragraph or heading copies comes from one of its text children |
| RichText.ContributionChars | ui/src/components/nodes/Rich.tsx:791-829 | every character of a node's contribution is an inserted newline or text from a text node below it |
| RichText.FlattenChars | ui/src/components/nodes/Rich.tsx:789-830 | the same for a node list |
| RichText.PlainTextChars | ui/src/components/nodes/Rich.tsx:785-832 | every character of the plain text is an inserted newline or text from a text node of the document |
| RichText.FirstLine | ui/src/components/nodes/Rich.tsx:597 | the first line is a prefix without newlines, followed by a newline or the end of the text |
| RichText.FirstLineOfLine | ui/src/components/nodes/Rich.tsx:597 | a newline-free text followed by a newline is the first line |
| RichText.CollapsedLabel | ui/src/components/nodes/Rich.tsx:594-600 | the label is never empty and has no newline; it is the first line of the text, or "Empty" when that is empty or there is no content |
| RichText.LabelOfLeadingParagraph | ui/src/components/nodes/Rich.tsx:594-600 | a document opening with a paragraph of single-line text is labelled with that text |
| RichText.LabelOfLeadingEmptyParagraph | ui/src/components/nodes/Rich.tsx:594-600 | a document opening with a paragraph that has content but no text is labelled "Empty", whatever follows |
| RichText.LabelSkipsContentlessParagraph | ui/src/components/nodes/Rich.tsx:594-600 | a paragraph serialised without content adds nothing, so a document opening with one is labelled as the rest of it is |
| RichText.AppendTexts | ui/src/components/nodes/Rich.tsx:798-802 | the inner loop appends the text of the text children, in order |
| RichText.ProsemirrorToPlainText | ui/src/components/nodes/Rich.tsx:785-832 | the accumulator loop with recursion computes the flattening as written, throws included |
| RichText.FlattenPrefixThrows | ui/src/components/nodes/Rich.tsx:789-830 | once a prefix of the nodes throws, the whole pass throws |

## Left out

- Network I/O is not modelled: the GraphQL calls behind `remoteUpdatePod`, `loopPodQueue` (`doRemoteAddPod`, `doRemoteDeletePod`) and `loadPodQueue`. Only their outcomes are modelled, as handler parameters: data or errors, fulfilled or rejected.
- Sockets are not modelled. `io(...)` is an opaque token supplied by the caller, and `socket.emit("spawn", …)` is an entry in the `spawns` log. The runtime socket middleware is not part of this model.
- SHA-256 and `JSON.stringify` are not modelled. The fingerprint is the record of the six fields itself, since the store only compares fingerprints for equality.
- `JSON.parse` is not modelled. It becomes the total `Parse`, which marks a transported string as parsed; parse failures are not modelled.
- Randomness is not modelled. `uuidv4` session ids are method parameters. In `DispatchAddPod`, the nanoid characters are a parameter of length 10.
- `RepoStore.Store.DispatchAddPod`: requires the generated id to be fresh. Colliding ids, which the source's random generator makes unlikely but not impossible, are not modelled.
- `Date.now()` is not modelled; it only fills `lastPosUpdate`.
- `PodTree.DeletePodSpec` removes the deleted ids from the map, where the source assigns them `undefined`. The reducers and the middleware read pods only as `state.pods[id]`, which yields `undefined` in both cases, so they cannot tell the two apart.
- The placeholder content of a new pod is the single value `EmptyDoc`.
- `PodModel.NewPod`: the new pod's `lang` is "" where the source leaves it undefined. `JSON.stringify` drops an undefined `lang`, so in the source `setPodLang(id, "")` on a fresh pod changes `hashPod` and marks the pod dirty. The model's `SetPodLang(id, "")` on a new pod leaves it synced.
- The root's `index` is 0. The source's root has none, and nothing reads it.
- Redux, immer and `createAsyncThunk` plumbing is not modelled. Dispatches are sequential method calls, and a drafted change that is followed by a throw is not applied.
- The `loopPodQueue` thunk's "invalid action" branch is not modelled, because only add and delete actions are ever queued (`Valid`).
- `Normalize.NormalizePods`: requires what the source assumes of the server. Every child reference must name a listed pod, and no pod may be `ROOT`. A dangling reference that the sort happens not to read is therefore not modelled.
- `RepoStore.Store.LoadFulfilled`: its requires `Loadable` is the same assumption about the server's list.
- `PodNamespace.SelectNamespace`: requires the parent walk to reach `ROOT`. Where it does not, the source throws or loops forever. `steps` is a ghost bound the walk reaches the root within. It is one evaluation of a freshly created selector. The source's selector overwrites the id it captured, so a second evaluation returns "" (see "## Findings", `PodNamespace.NamespaceSelector`).
- `RichText.CollapsedLabel`: computed over the corrected flattening. Where the source's `prosemirrorToPlainText` throws (Rich.tsx:597), no label is computed; the model returns one.
- `PodTree.SortByKey`: stability and the exact order of equal indices are not stated. Only "a permutation, sorted by index" is stated.
- A text node's `text` is assumed present. A missing `text` would append "undefined" in the source.
- The React, MUI, ReactFlow and Remirror rendering is UI and is not modelled. The same goes for `Code.tsx`, `repo.tsx` and the GraphQL schema file.

## Findings

| source | as written | input that shows it | evidently intended | confidence | as-written member | corrected member |
|---|---|---|---|---|---|---|
| ui/src/components/nodes/Rich.tsx:808-819 | the heading case calls `node.content.forEach` without checking that `content` exists, unlike the paragraph case | a document whose only block is an empty heading (a heading serialised without `content`): the flattening throws, so the collapsed label cannot be computed | an empty heading contributes nothing, as an empty paragraph does | not executed | RichText.EmptyHeadingThrows | RichText.PlainTextAgrees |
| ui/src/lib/store.js:266-280 | the returned selector walks by assigning to the `id` parameter it closes over (`id = state.repo.pods[id].parent`), so after one evaluation the captured id is `"ROOT"` | the selector returned for a pod C below B below A, evaluated twice: "A/B", then "" | every evaluation returns the pod's namespace | not executed | PodNamespace.SelectorReusedIsEmpty | PodNamespace.SelectTwiceAgrees |

`RichText.PlainText` and `RichText.ProsemirrorToPlainText` model the code as
written. `RichText.PlainTextGuarded` is the corrected definition.
`RichText.PlainTextAgrees` proves that the two agree everywhere except where
the as-written code throws. `RichText.CollapsedLabel` uses the corrected
definition.

`PodNamespace.NamespaceSelector` models the selector as written: its field is
the captured id, and `Select` overwrites it. `PodNamespace.SelectNamespace` is
the corrected form. It walks a local copy of the id, and its result depends
only on the pods and the id.
