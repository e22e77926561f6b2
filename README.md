# mini-React engine and its `useState` stores, in Dafny

This project models the engine of a small React clone.

- **The fiber runtime of mini-react.** The state is the module-level variables of fiber.js: `nextUnitOfWork`, `workInProgressRoot`, `currentRoot`, `deletions`, `currentFunctionFiber` and `hookIndex`. They are the fields of the class `Runtime.Runtime`, together with the fiber tree and a log of the host's `appendChild` calls. Its methods cover:
  - `createRoot`;
  - `performUnitOfWork`: host node, function component, normalised `props.children`, next unit;
  - `workLoop` over a time budget, with commit;
  - `updateFunctionComponent`;
  - `commitRender`;
  - `deleteFiber` and `getHookIndex`;
  - the array-queue `useState` of useState.js and its `setState`;
  - `commitRoot`/`commitWork` of commit.js;
  - the positional diff `reconcileChildren` of reconcile.js.
- **The fiber tree is an arena.** It is a sequence of `Fiber` records whose `child`, `sibling`, `return` (`parent`) and `alternate` links are indices into the sequence. New fibers are only ever appended. Parents and alternates therefore sit before a fiber, and children and siblings after it. This ordering (`Fibers.WF`) gives every traversal its termination measure.
- **What each operation computes is stated separately, as functions and lemmas.**
  - `ReconcileSpec` covers the arena after any number of diff rounds, which positions create fibers, and which old fibers are queued for deletion.
  - `Fibers` covers the pre-order walk that `NextUnit` follows.
  - `CommitSpec` covers the post-order append log that commit produces.
  - `Hooks` covers the in-order fold of queued actions.
  - `Runtime` covers one unit of work (`Advance`) and any number of them (`Units`), on the arena, the deletion queue, the next unit and the next fresh handle (`Progress`).
- **The two single-fiber ring-queue stores** of min-useState/index.js and mini-useState/add_commit.js are `class RingHooks.HookStore`.
  - Each hook's queue is a `class Queue` whose `pending` update closes a ring through `next`.
  - `pending` is the newest update and `pending.next` the oldest. `Queue.Valid` states this, with the ring's items as a ghost sequence.
  - `Enqueue` is the splice of `dispatchAction`. `Drain` is the do-while fold of `useState`.
  - The hook list is a sequence of `Cell(memoizedState, queue)`, with the cursor `workInProgressHook` as a position in it.
  - `Rerender` and `Dispatched` describe a render and a dispatch on the store's values. The store methods are proved against them.
  - `MinUseState` adds `schedule` and `dispatchAction` for a component with any number of `useState` calls.
  - `MiniUseState` adds the commit of `app.num` to a page log, and the demo. The demo proves that after `n` clicks `num == n` and the page has shown `0, 1, ..., n`.

Three kinds of external input are parameters:
- The host adapter (`renderDOM`) is a counter handing out fresh node handles.
- Component functions are a table `nat -> Component`. A component makes one `useState` call per entry of its `initials`, then returns `render(props, states)`.
- `deadline.timeRemaining()` is the sequence of its answers, `budget`.

Where the code throws, the model returns a flag instead:
- line 54 of reconcile.js, which dereferences a null `prevSibling`;
- line 11 of commit.js, a missing parent node;
- an update render of the ring stores that finds a null cursor.

One case follows the code rather than the design intent. A host child of a function component has a parent fiber without a node, so its commit fails (`ok` false) as line 11 of commit.js does. The code also never processes the deletions list at commit; it only clears it, and the model does the same.

## Model

| member | source | states |
|---|---|---|
| Elements.ChildElements | mini-react/src/core/fiber.js:38-53 | children are reconciled exactly when `props.children` is truthy or `0`; a single child becomes a singleton list; in an array's list every entry's values (the entry itself, or a nested array's members) sit in place, after those of the entries before it and before those of the entries after it |
| Elements.FlattenAt | mini-react/src/core/fiber.js:49-50 | `.flat()` keeps each entry's values together, after the values of the entries before it and before those of the entries after it |
| Elements.FlattenSplit | mini-react/src/core/fiber.js:49-50 | the same, for every entry of the array at once |
| Elements.ZeroIsAChild | mini-react/src/core/fiber.js:47 | `0` is a child, while `""`, `false` and `null` skip reconciliation, and `[]` reconciles an empty list |
| Elements.FlattenLeaves | mini-react/src/core/fiber.js:49-50 | flattening an array with no nested arrays keeps its elements, in order |
| Elements.FlattenAppend | mini-react/src/core/fiber.js:50 | flattening distributes over concatenation |
| Hooks.AsAction | mini-react/src/core/useState.js:20-27 | a function argument is queued unchanged; any value `v` is queued as a function returning `v` on every input; queued behind any queue, the function is applied to what that queue produced, and a value yields `v` whatever came before |
| Hooks.FoldSnoc | mini-react/src/core/useState.js:16-18 | an action pushed onto a queue runs on the state the earlier actions produced |
| Hooks.Visible | mini-react/src/core/useState.js:9-18 | without an old hook the initial value is shown; an old hook with nothing queued shows its own state |
| Hooks.FoldAppend | mini-react/src/core/useState.js:16-18 | folding two queues one after the other is folding their concatenation |
| Hooks.FoldRepeat | mini-react/src/core/useState.js:15-27 | the queue of `n` calls of `setState(f)` folds a state `s` to f applied `n` times to `s` |
| Hooks.RepeatedSetState | mini-react/src/core/useState.js:15-28 | `n` calls of `setState(f)` on any hook make the next evaluation show `f` applied `n` more times to what it would have shown anyway |
| Hooks.FoldValuesLastWins | mini-react/src/core/useState.js:23-26 | after a non-empty run of plain-value setter calls, the last value is shown |
| Hooks.ThreeIncrements | mini-react/src/core/useState.js:15-27 | three `setState(x => x + 1)` on state `s` show `s + 3` |
| Fibers.NextUnit | mini-react/src/core/fiber.js:57-58 | a fiber with a child has that child as next unit, and the next unit is always a fiber of the arena or none |
| Fibers.SubTraversal | mini-react/src/core/fiber.js:57-73 | from a fiber, repeated next-unit steps visit its subtree in pre-order, and from the last fiber of that subtree the walk climbs `return` links as from the subtree's root |
| Fibers.ForestTraversal | mini-react/src/core/fiber.js:57-73 | the same for a sibling chain: next-unit steps visit each sibling's subtree in turn, in pre-order |
| Fibers.SubDistinct | mini-react/src/core/fiber.js:57-73 | the pre-order of a subtree lists each fiber at most once |
| Fibers.ForestDistinct | mini-react/src/core/fiber.js:57-73 | the pre-order of a sibling chain lists each fiber at most once |
| Fibers.PreOrderTraversal | mini-react/src/core/fiber.js:57-73 | from a root, the next-unit walk is the pre-order of its tree, visits every fiber exactly once, and ends with null |
| ReconcileSpec.CreatedFacts | mini-react/src/core/reconcile.js:29-39 | new fibers are created exactly at the positions holding a present element, in increasing position order |
| ReconcileSpec.DeletedMembers | mini-react/src/core/reconcile.js:41-45 | an old fiber is queued for deletion if and only if the element at its position has no truthy `type` (absent, or the tag `""`) or a `type` other than the old fiber's |
| ReconcileSpec.DeletedInPositionOrder | mini-react/src/core/reconcile.js:41-49 | deletions are queued in left-to-right position order |
| ReconcileSpec.DeletedExactly | mini-react/src/core/reconcile.js:16-45 | after the whole loop, each fiber of the old chain is in the deletions if and only if its position does not match, where a match needs a truthy `type` (not absent, not `""`) equal to the old fiber's |
| ReconcileSpec.Classification | mini-react/src/core/reconcile.js:16-39 | a new fiber is an Update exactly when its position matches (a truthy `type`, not absent and not `""`, equal to the old fiber's), and then it has the old `stateNode` and `alternate` set to the old fiber; otherwise it is a Placement with no node, no alternate and its position as `index` |
| ReconcileSpec.TextNeverMatches | mini-react/src/core/reconcile.js:16-17 | a child with a falsy `type` never matches, so any old fiber at its position is deleted: a string, number, boolean or null child, an object without a type, and an element of type `""` |
| ReconcileSpec.Idempotent | mini-react/src/core/reconcile.js:16-26 | re-reconciling elements whose truthy types equal the old chain position by position yields only Update fibers that keep the old nodes, and no deletions |
| ReconcileSpec.NewFibersInOrder | mini-react/src/core/reconcile.js:20-39 | the created fibers carry the present elements in element order, each with `return` set to the reconciled fiber |
| ReconcileSpec.NewChain | mini-react/src/core/reconcile.js:50-56 | after at least one round, the reconciled fiber's child chain is exactly the created fibers in order; before any round the child is untouched |
| ReconcileSpec.OldFibersKept | mini-react/src/core/reconcile.js:41-45 | old fibers change only by becoming Deletion, and only the reconciled fiber's `child` is relinked |
| ReconcileSpec.StepArena | mini-react/src/core/reconcile.js:13-58 | one round of the loop takes the arena after `t` rounds to the arena after `t + 1` |
| ReconcileSpec.PrevExists | mini-react/src/core/reconcile.js:50-54 | when the call does not throw, `prevSibling` is non-null at every later position that creates a fiber |
| CommitSpec.FirstUnsafeFacts | mini-react/src/core/commit.js:10-11 | the first fiber at which commit throws is the first whose `return` is missing, or that has a node while its `return` has none |
| CommitSpec.CommitIsPostOrder | mini-react/src/core/commit.js:5-13 | commit issues the appends of the fibers in post-order (child subtree, then the fiber, then its siblings), up to the first fiber that throws, and succeeds exactly when there is none |
| CommitSpec.PostOrderPermutesPreOrder | mini-react/src/core/commit.js:9-12 | the commit order is a permutation of the work order |
| CommitSpec.EachFiberOnce | mini-react/src/core/commit.js:1-13 | under a root, commit visits each fiber of the tree exactly once |
| CommitSpec.RootNeverAppended | mini-react/src/core/commit.js:1-3 | the root's own node is never appended |
| CommitSpec.FlagsIgnored | mini-react/src/core/commit.js:5-13 | commit depends only on links and nodes, not on flags, so Update and Placement fibers commit alike and Deletion marks change nothing |
| Runtime.ClearedHooks | mini-react/src/core/fiber.js:99 | emptying a fiber's hooks before evaluation changes neither the hooks rebuilt nor the element returned, as they come from the alternate |
| Runtime.Runtime.constructor | mini-react/src/core/fiber.js:4-10 | the loaded module: no fibers, no roots, no work, no deletions, hook index 0 |
| Runtime.Runtime.CreateRoot | mini-react/src/core/fiber.js:12-22 | a new root holding the container, with `props.children == [element]` and `alternate == currentRoot`, becomes the work-in-progress root and the next unit |
| Runtime.Runtime.MakeHandle | mini-react/src/core/fiber.js:34 | a fresh handle is made exactly for host tags, non-empty strings and numbers |
| Runtime.Runtime.NextUnitOf | mini-react/src/core/fiber.js:57-73 | the loop's result is the child, else the first sibling up the `return` chain, else none |
| Runtime.Runtime.GetHookIndex | mini-react/src/core/fiber.js:126-128 | returns the current index and increments it |
| Runtime.Runtime.DeleteFiber | mini-react/src/core/fiber.js:116-118 | the fiber joins the end of `deletions` |
| Runtime.Runtime.PlaceChild | mini-react/src/core/reconcile.js:13-46 | a position whose element has a truthy `type` (not absent, not `""`) equal to the old fiber's reuses the old node as an Update; otherwise a present element gets a Placement and the old fiber is flagged Deletion and queued |
| Runtime.Runtime.LinkChild | mini-react/src/core/reconcile.js:50-56 | position 0 always overwrites `child`, even with null; later new fibers become `prevSibling.sibling` |
| Runtime.Runtime.ReconcileStep | mini-react/src/core/reconcile.js:13-58 | one round advances the arena, the deletions and both cursors from round `t` to round `t + 1` |
| Runtime.Runtime.ReconcileChildren | mini-react/src/core/reconcile.js:7-60 | the loop runs max(element count, old chain length) rounds and leaves the arena and deletions its specification describes, an element of type `""` counting as no match |
| Runtime.Runtime.UseState | mini-react/src/core/useState.js:4-33 | the `k`-th call reads old hook `k` of the alternate, folds its queue in order over its state (or takes the initial value), pushes a hook with that state and an empty queue, and its setter addresses that hook |
| Runtime.Runtime.SetState | mini-react/src/core/useState.js:20-29 | the normalised action joins the end of the hook's queue, then `commitRender` runs once |
| Runtime.Runtime.UpdateFunctionComponent | mini-react/src/core/fiber.js:97-104 | hooks and hook index are reset, the component runs, and exactly `[jsx]` is reconciled |
| Runtime.Runtime.CallComponent | mini-react/src/core/fiber.js:101-102 | the component's `useState` calls rebuild its hooks and it returns its render of the states they gave |
| Runtime.Runtime.RenderHost | mini-react/src/core/fiber.js:32-35 | a node is made only for a fiber that has none, so an inherited node is never replaced |
| Runtime.Runtime.RunComponent | mini-react/src/core/fiber.js:40-45 | only a function-typed fiber is evaluated; it becomes `currentFunctionFiber` and `hookIndex` ends at its hook count, and otherwise both are unchanged |
| Runtime.Runtime.ReconcileProps | mini-react/src/core/fiber.js:47-53 | normalised children are reconciled when present; `ok` is false exactly when that reconciliation would throw |
| Runtime.Runtime.PerformUnitOfWork | mini-react/src/core/fiber.js:30-74 | host node, component, then children, in that order; on success the next unit is the pre-order successor; `currentFunctionFiber` and `hookIndex` are the fiber and its hook count after a function component and unchanged otherwise |
| Runtime.Runtime.Work | mini-react/src/core/fiber.js:32-53 | the host node, the component's reconciliation and that of `props.children`, in that order, with their deletions queued in that order; `ok` is false exactly when the children's reconciliation would throw |
| Runtime.Runtime.PerformNext | mini-react/src/core/fiber.js:81 | the arena, deletions, next unit and next handle after one unit are `Advance` of those before it |
| Runtime.UnitsSettled | mini-react/src/core/fiber.js:80-81 | once no unit is left, or a unit has thrown, further units change nothing |
| Runtime.Runtime.RunUnits | mini-react/src/core/fiber.js:79-83 | units run until no work is left, a unit throws, or the deadline check after a unit is below 1; every earlier check was at least 1; at least one unit runs exactly when there was work; the arena, deletions, next unit and next handle are `Units` of the starting ones after that many units, and `crashed` is false exactly when none of them threw |
| Runtime.Runtime.WorkLoop | mini-react/src/core/fiber.js:77-92 | at least one unit runs exactly when there was work, and with none the arena is unchanged; the arena, next unit and next handle are `Units` of the starting ones after the units run (the deletions too when nothing was committed), and a unit that threw sets `crashed`; a commit happens exactly when the traversal ended without throwing and a work-in-progress root existed; it then empties `deletions`, makes that root current, clears the work-in-progress root and logs the commit's appends; otherwise roots and log are unchanged; a commit that throws leaves its partial appends in the log |
| Runtime.Runtime.CommitWork | mini-react/src/core/commit.js:5-13 | the append log grows by the post-order commit of the subtree, and `ok` reports whether it threw |
| Runtime.Runtime.CommitRoot | mini-react/src/core/commit.js:1-3 | commit starts at the root's child |
| Runtime.Runtime.CommitRender | mini-react/src/core/fiber.js:107-114 | a fresh root with the current root's node and element and `alternate == currentRoot` becomes the next unit; with no current root nothing changes and `ok` is false |
| RingHooks.Update.constructor | min-useState/index.js:2-5 | an update carrying the action with a null `next` |
| RingHooks.Queue.constructor | min-useState/index.js:34-36 | an empty queue, `pending == null` |
| RingHooks.Queue.Enqueue | min-useState/index.js:1-13 | a fresh update joins the ring as its newest item: a self-loop on an empty queue, otherwise spliced in after `pending`; `pending` is it, `pending.next` is still the oldest, and the actions grow by the new one |
| RingHooks.Queue.Drain | min-useState/index.js:55-67 | one pass from `pending.next` round the ring applies every queued action once, in enqueue order, then `pending` is null |
| RingHooks.Fresh | min-useState/index.js:31-47 | a mount render creates one hook per `useState` call, each with its initial state and nothing queued |
| RingHooks.Rerender | min-useState/index.js:48-69 | the `k`-th update call shows hook `k`'s queue folded over its state and leaves it holding that with nothing queued; a call past the last hook throws and the render stops there |
| RingHooks.Dispatched | min-useState/index.js:1-13 | a dispatch appends the action to the end of one hook's queue and leaves every other hook alone |
| RingHooks.RerenderFails | min-useState/index.js:50-51 | once the cursor has run off the list, further calls change nothing: the render has thrown |
| RingHooks.RerenderStable | min-useState/index.js:55-69 | a render with nothing dispatched since the last one shows the same values and changes no hook |
| RingHooks.DispatchThenRender | min-useState/index.js:1-16 | after a dispatch to hook `k`, the next render shows hook `k`'s previous value with the action applied last, and every other hook as before |
| RingHooks.HookStore.constructor | mini-useState/add_commit.js:1-8 | no hooks yet and `isMounted` true |
| RingHooks.HookStore.UseState | min-useState/index.js:28-72 | mount appends a fresh hook as the cursor and returns the initial state; update takes the cursor's hook, moves the cursor to `next`, returns its folded value and stores it; a null cursor throws and changes nothing |
| RingHooks.HookStore.Mount | min-useState/index.js:31-47 | the new hook is the head when the list is empty, otherwise the `next` of the last, and becomes the cursor |
| RingHooks.HookStore.Settle | min-useState/index.js:54-69 | the hook keeps the fold of its queue over its state, and its queue is emptied |
| RingHooks.HookStore.Push | min-useState/index.js:1-13 | the splice into a hook's queue, keeping every ring valid and changing only that hook's queued actions |
| RingHooks.HookStore.Rewind | min-useState/index.js:21 | the cursor goes back to the head of the hook list |
| RingHooks.HookStore.EndMount | min-useState/index.js:25 | `isMounted` becomes false |
| MinUseState.Schedule | min-useState/index.js:19-26 | the cursor is reset, the component renders as `Render` describes, and `isMounted` ends false; a throwing render leaves `isMounted` as it was |
| MinUseState.MountRender | min-useState/index.js:31-47 | the first render builds one fresh hook per `useState` call and returns the initial values |
| MinUseState.UpdateRender | min-useState/index.js:48-69 | a later render takes the hooks in list order and throws one past the last |
| MinUseState.DispatchAction | min-useState/index.js:1-17 | the splice, then exactly one `schedule`: the render of the dispatched store |
| MiniUseState.Schedule | mini-useState/add_commit.js:11-17 | the cursor is reset, `App` renders, its `num` is committed to the page, and `isMounted` ends false; the setter is the hook's own queue |
| MiniUseState.DispatchAction | mini-useState/add_commit.js:20-36 | the splice, then one `schedule`, which commits the new `num` |
| MiniUseState.OneClick | mini-useState/add_commit.js:85-87 | one `setNum(i => i + 1)` on a hook showing `n` makes the render show `n + 1` with nothing left queued |
| MiniUseState.Click | mini-useState/add_commit.js:85-87 | a click on a page showing `n` commits `n + 1` |
| MiniUseState.Demo | mini-useState/add_commit.js:81-92 | after mounting and `clicks` clicks, `num == clicks` and the page has shown `0, 1, ..., clicks` in turn |

## Left out

- react-dom.js (`renderDOM`, `updateAttributes`): host-adapter code. `renderDOM` is a counter of fresh handles. The attribute and event wiring is not modelled, nor its throw when `renderDOM` makes no node (an object element whose `type` is not a string, such as a function component or an untyped object) and the element has `on*` or `className` props.
- Host tag names: a `Tag` may carry any string, the empty one included, and gets a fresh handle. Whether the browser's `createElement` accepts the name (it throws on `""`) is host behaviour and is not modelled.
- `requestIdleCallback` re-arming (fiber.js:93, 130): the model runs one `workLoop` call per invocation. Later calls are further calls of `WorkLoop`, resuming at the stored `nextUnitOfWork`. Line 93 re-arms only after a `workLoop` that did not throw; after a throw the source never runs `workLoop` again, while the model still allows further `WorkLoop` calls, so a caller who follows the source stops at the first `crashed`.
- Runtime.Runtime.WorkLoop: when a unit throws, the loop stops with `crashed` true and the arena is the one `Advance` gives for a throwing unit. The reconciliation's mutations before the throw are not modelled (see `ReconcileChildren` below).
- Runtime.Runtime.UseState: requires a current function fiber. A `useState` call outside a component render throws at line 31 of useState.js (the push onto a null fiber's hooks); that case is not modelled.
- Runtime.Runtime.ReconcileChildren: the throw at line 54 of reconcile.js is a precondition (`ReconcileOk`). `PerformUnitOfWork` checks it first and reports the crash, so the partial mutation before the throw is not modelled.
- Runtime.Runtime.CommitWork: on a throw, `ok` is false and the appends made before the throw stay in the log. The host's treatment of a node that is already attached is not modelled.
- Nested arrays deeper than one level in `props.children` are not representable: `.flat()` flattens only one level, and `Item` is `Leaf` or one-level `Group`.
- Re-entrant `setState`/`dispatchAction` from inside a component or an action is not modelled; actions are pure `int -> int`.
- State values are integers. Setter arguments are either a function or a value.
- Component bodies are opaque, given by `Component(initials, render)`. Component functions without `useState` calls, or with a fixed number of them, are covered. A component whose number of `useState` calls depends on its state is not.
- `fiber.memorizeState` in min-useState/index.js and `fiber.memoizedState` in add_commit.js are the same field in the model. index.js never declares `fiber`, `isMounted` or `workInProgressHook`; the model gives them the declarations add_commit.js has.
- add_commit.js sets `queue.pending = update` twice on an empty queue. The model does it once, with the same result.
- RingHooks.HookStore: the hook list is a sequence of cells with the cursor as a position, not objects linked by `next`. Each hook is reachable only through that list, so only the link representation is absent.
- MinUseState.Schedule: does not return the setters. Each is the queue of its hook, `store.cells[k].queue`.
- `console.log` in `App`, and the DOM of the demo: `innerHTML` is modelled as the page log `page`, and `onclick` as calls of `Click`.
