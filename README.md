# epoll-cpp: a verified model of the `Epoll` descriptor registry

`Epoll` is a small single-threaded wrapper around the Linux epoll(7)
interface. It keeps a table from file descriptors to `MonitoredDescriptor`
entries. Each entry has an "already registered with the kernel" flag
(`isInitialized`) and one callback slot for each of six event kinds: IN, OUT,
RDHUP, PRI, ERR and HUP. The class does four things:

- It adds and removes table entries.
- It sets or clears callbacks for an OR-ed word of kinds.
- After every callback change it pushes the entry's interest word to the
  kernel. The first push is `EPOLL_CTL_ADD`; later pushes are `EPOLL_CTL_MOD`.
- It dispatches one batch returned by `epoll_wait`.

Dispatch visits the kinds of each batch entry in the fixed order of
`allEventTypes`. Before each kind it checks again that the descriptor is
still in the table. A callback may remove descriptors. When the descriptor
has vanished, the whole rest of the batch is abandoned. A completed entry
whose word carries RDHUP or HUP is removed.

The model is in Dafny and is split into these modules:

- `EventTypes` (EventTypes.dfy) holds the six kinds and the fixed order
  `AllEventTypes`. An event word is a `Mask`: the set of kind bits that are 1,
  plus the EPOLLET bit. `|` is `Or`, `&` is `And`.
- `Descriptors` (Descriptors.dfy) holds `MonitoredDescriptor` as a value with
  `hasHandler`, `setHandler` and `getHandler`. A callback is an opaque
  `HandlerId`; an empty slot (`nullptr`) is `None`.
- `Registry` (Registry.dfy) holds the state as a value:
  - the table;
  - the kernel's interest list;
  - the log of `epoll_ctl` calls.

  It also defines the interest word, the ADD-or-MOD push (`Reload`) and
  removal (`Remove`), with the invariant `Consistent` that ties the table to
  the kernel.
- `Dispatch` (Dispatch.dfy) is the `waitForEvents` walk as functions over
  that state. `RunKinds` walks one entry and `RunBatch` walks the batch. The
  module proves lemmas about which callbacks run, in which order, and what
  the table looks like afterwards. What a callback does to the table is an
  input, `effects`: the descriptors it passes to `removeDescriptor`.
- `EpollMultiplexer` (Epoll.dfy) is the `Epoll` class:
  - a `monitoredFds` map field, updated in place;
  - ghost fields for the kernel's interest list, the `epoll_ctl` log, the
    descriptors made non-blocking, and the trace of invoked callbacks.

  `RemoveDescriptor`, `AddEventHandler`, `RemoveEventHandler`,
  `ReloadEventHandlers` and `WaitForEvents` are each proved against the
  corresponding `Registry` or `Dispatch` function. `AddDescriptor`, the
  constructor and `Create` state their new state directly. Every public method
  keeps the class invariant `Valid`. The private `SetNonBlocking` is called
  only from `AddDescriptor` in edge-triggered mode, in the middle of that
  method's update, so it does not promise `Valid` on its own. Where a system
  call may fail, whether it succeeds is a parameter (`kernelAccepts`,
  `fcntlSucceeds`, `epollCreateResult`). A thrown exception is an `Outcome`/`Result` failure
  carrying an `EpollError`.

In `WaitForEvents`, the inner loop over `allEventTypes` is the method
`DispatchEntry`. Where the source `return`s from `waitForEvents`,
`DispatchEntry` reports `vanished` and `WaitForEvents` returns.

## Model

| member | source | states |
|---|---|---|
| EventTypes.Index | src/Epoll.h:8 | every kind has a position in `allEventTypes`, and the kind at that position is itself |
| EventTypes.AllEventTypesExact | src/Epoll.h:8 | `allEventTypes` has exactly six entries, all distinct, covering every kind, with `Index` its inverse |
| EventTypes.MaskedBit | src/Epoll.cpp:52 | `events & evt` is `evt` when the word carries that kind and 0 otherwise |
| EventTypes.HangupKinds | src/Epoll.cpp:59 | `events & (EPOLLRDHUP \| EPOLLHUP)` is non-zero exactly when the word carries RDHUP or HUP |
| Descriptors.MonitoredDescriptor.HasHandler | src/Epoll.cpp:185-202 | for a word naming one kind: true iff that kind's slot is set; for any other word (0, several kinds): false |
| Descriptors.MonitoredDescriptor.SetHandler | src/Epoll.cpp:204-227 | for a word naming one kind: only that kind's slot changes; any other word changes nothing; the fd and flag never change |
| Descriptors.MonitoredDescriptor.GetHandler | src/Epoll.cpp:229-246 | for a word naming one kind: that kind's slot; any other word is the invalid-eventType error |
| Descriptors.NewMonitoredDescriptor | src/Epoll.h:14-39 | a fresh entry carries its fd, is not initialized, and all six slots are empty |
| Descriptors.WithHandlers | src/Epoll.cpp:73-78 | the kinds of the mask get the given slot value and every other slot keeps its value |
| Descriptors.SelectedSlot | src/Epoll.cpp:52-54 | `hasHandler(events & evt)` holds iff the word carries the kind and its slot is set; `getHandler(events & evt)` then gives that slot |
| Registry.HandledMask | src/Epoll.cpp:119-132 | the OR built by the `firstEvt` loop over the first n kinds contains only kinds with a set slot, and never EPOLLET |
| Registry.InterestMask | src/Epoll.cpp:118-139 | the word pushed to the kernel contains only kinds with a set slot, and carries EPOLLET exactly in edge-triggered mode |
| Registry.HandledMaskKinds | src/Epoll.cpp:119-132 | the OR built over the first n kinds holds exactly those of them whose slot is set, and no EPOLLET |
| Registry.InterestMaskExact | src/Epoll.cpp:118-139 | the pushed word holds exactly the kinds with a set slot (the whole slot set, not the latest call's kinds), and EPOLLET exactly in edge-triggered mode |
| Registry.Reload | src/Epoll.cpp:141-147 | a push keeps the entry in the table, appends exactly one ADD or MOD call for that fd to the `epoll_ctl` log, and succeeds exactly when the kernel accepts the call |
| Registry.ReloadContract | src/Epoll.cpp:141-147 | the push is ADD exactly when the kernel does not know the fd yet, else MOD; on success the kernel's word for the fd is replaced by the pushed word and the flag is set; on failure the error names the call and the slots stay updated; consistency is kept |
| Registry.PushedEntryIsModified | src/Epoll.h:91-99 | after a successful push the entry is initialized; after any rewrite of its slots, the next push is then MOD with the full current word, so ADD is issued at most once while the entry lives |
| Registry.ReplaceEntry | src/Epoll.cpp:70-81 | rewriting an entry's slots in the table before the push keeps consistency and leaves the push's result unchanged |
| Registry.Remove | src/Epoll.cpp:30-35 | removal takes exactly that fd out of the table's keys and appends at most one call to the `epoll_ctl` log |
| Registry.RemoveContract | src/Epoll.cpp:30-35 | removal deletes exactly that key (nothing for an unknown fd), keeps consistency, and changes no other entry |
| Registry.RemoveAllContract | src/Epoll.cpp:30-35 | removing a list of fds one by one deletes exactly those keys, keeps consistency, and changes no other entry |
| Dispatch.RunKinds | src/Epoll.cpp:46-56 | the walk over one entry's kinds aborts only when the entry's fd is no longer in the table |
| Dispatch.RunBatch | src/Epoll.cpp:41-62 | the walk handles a prefix of the batch completely; it is aborted exactly when that prefix is shorter than the batch |
| Dispatch.DueExact | src/Epoll.cpp:46-56 | the reference list of due callbacks holds, in strictly increasing `allEventTypes` order, exactly one callback for each kind that the word carries and whose slot is set |
| Dispatch.RunKindsCalls | src/Epoll.cpp:46-56 | within one entry, the callbacks invoked are a prefix of the due list, and all of it when the walk was not aborted |
| Dispatch.RunKindsWithin | src/Epoll.cpp:46-56 | within one entry, entries are only removed, never added or changed (callbacks are modelled as removing descriptors only; `tcpAccept` in src/main.cpp adds some), and an abort means the fd is gone |
| Dispatch.RunKindsConsistent | src/Epoll.cpp:46-56 | within one entry, the table stays consistent with the kernel |
| Dispatch.RunKindsRemovals | src/Epoll.cpp:46-56 | within one entry, an fd leaves the table only because an invoked callback removed it |
| Dispatch.RunKindsUndisturbed | src/Epoll.cpp:46-56 | with callbacks that remove nothing, an entry whose fd is registered is handled completely and the table is unchanged |
| Dispatch.EntryCallsJustified | src/Epoll.cpp:46-56 | every callback invoked for an entry is for a kind that the entry's word carries, and is the callback the table held for it |
| Dispatch.RunBatchCallsJustified | src/Epoll.cpp:41-56 | every callback invoked over the batch belongs to a batch entry whose word carries its kind, and is the callback held when the wait began (callbacks are modelled as removing descriptors only, so none can install a handler during the wait) |
| Dispatch.RunBatchWithin | src/Epoll.cpp:41-62 | over a batch, entries are only removed; an aborted walk stopped on an entry whose fd is no longer registered |
| Dispatch.RunBatchConsistent | src/Epoll.cpp:41-62 | over a batch, the table stays consistent with the kernel |
| Dispatch.RunBatchHangups | src/Epoll.cpp:58-61 | every completed entry whose word carries RDHUP or HUP has its fd out of the table afterwards, whether or not a callback for those kinds existed |
| Dispatch.RunBatchRemovals | src/Epoll.h:53-56 | an fd leaves the table during dispatch only through a callback's removal or a completed hangup entry; otherwise it stays |
| Dispatch.RunBatchAbortSkipsRest | src/Epoll.cpp:47-49 | an aborted walk never looks past the entry it stopped on: any batch agreeing up to that entry gives the same callbacks and table |
| Dispatch.RunBatchCompletes | src/Epoll.cpp:41-62 | with callbacks that remove nothing, a batch of distinct registered fds is handled completely |
| Dispatch.VanishedEntryDropsRestOfBatch | src/Epoll.cpp:47-49 | concretely, from a state consistent with the kernel, when fd 3's callback removes fd 4, the walk stops at fd 4, and fd 5's callback never runs although fd 5 is still registered |
| EpollMultiplexer.Epoll.constructor | src/Epoll.cpp:7-13 | a new instance has an empty table, an empty interest list and no `epoll_ctl` calls |
| EpollMultiplexer.Create | src/Epoll.cpp:7-13 | `epoll_create1` returning -1 is the creation error; any other result gives a fresh, valid, empty instance on that descriptor |
| EpollMultiplexer.Epoll.AddDescriptor | src/Epoll.cpp:22-28 | the fd is in the table afterwards; an existing entry keeps its slots and flag; other entries and the kernel are unchanged; in edge-triggered mode the fd is made non-blocking, and an fcntl failure comes after the insertion |
| EpollMultiplexer.Epoll.SetNonBlocking | src/Epoll.cpp:168-172 | records the non-blocking request for the fd whether or not fcntl succeeds, changes nothing else, and fails exactly when fcntl fails |
| EpollMultiplexer.Epoll.RemoveDescriptor | src/Epoll.cpp:30-35 | the new state is `Registry.Remove` of the old one: a DEL for a known fd, whose failure is ignored, then the entry is erased; an unknown fd is a no-op |
| EpollMultiplexer.Epoll.AddEventHandler | src/Epoll.cpp:65-82 | an unregistered fd is refused before anything changes; otherwise the state is that of `Reload` on the entry with the mask's kinds set to the callback |
| EpollMultiplexer.Epoll.RemoveEventHandler | src/Epoll.cpp:84-98 | an unregistered fd is the out_of_range error with nothing changed; otherwise the state is that of `Reload` on the entry with the mask's kinds cleared |
| EpollMultiplexer.Epoll.ReloadEventHandlers | src/Epoll.cpp:118-148 | the `firstEvt` loop builds exactly `InterestMask`, and the resulting state and outcome are those of `Registry.Reload` |
| EpollMultiplexer.Epoll.RunCallback | src/Epoll.cpp:54 | an invoked callback is appended to the trace, and the table becomes that after its scripted removals |
| EpollMultiplexer.Epoll.DispatchEntry | src/Epoll.cpp:46-56 | the kinds loop leaves the state, trace and abort flag of `Dispatch.RunKinds` |
| EpollMultiplexer.Epoll.WaitForEvents | src/Epoll.cpp:37-63 | the table, kernel state and callback trace after a batch of at most `_maxEventsNum` entries are those of `Dispatch.RunBatch`, and the invariant is kept |

## Left out

- The system calls are not executed. `epoll_create1`, `epoll_ctl`, `epoll_wait`, `fcntl` and `close` become inputs or ghost effects:
  - the creation result;
  - whether ADD, MOD or fcntl succeeds;
  - the batch;
  - the ghost `epoll_ctl` log and interest list.

  The destructor's `close` is not modelled.
- An `epoll_wait` error (-1) leaves the dispatch loop with no iterations. This is the empty batch.
- EpollMultiplexer.Epoll.WaitForEvents: the timeout parameter and the blocking are not modelled; the batch is given. The header declares `waitForEvents()` without a timeout (src/Epoll.h:62), while src/Epoll.cpp:37 takes `int timeout`.
- `_eventsVector.reserve` and indexing a reserved but empty vector are not modelled. They concern buffer layout only.
- EpollMultiplexer.Epoll.RunCallback: a callback's only modelled effect is a scripted list of `removeDescriptor` calls. Callbacks that add descriptors or change handlers during dispatch are not modelled.
- Kind bits other than the six kinds and EPOLLET (EPOLLONESHOT, EPOLLWAKEUP, EPOLLEXCLUSIVE, ...) cannot be written in a `Mask`. The source never looks at them.
- The getters `getMonitoredFds`, `getEpollFd` and `isEdgeTriggered` are left out. In the model they are plain field reads of `monitoredFds`, `epollFd` and `isEdgeTriggered`.
- src/main.cpp (the socket demo) is not part of this model. Concurrency is out of scope; the design is single-threaded.
- The model keeps the behaviour as written when a descriptor vanishes during dispatch: `return` abandons the rest of the batch (src/Epoll.cpp:47-49). The comment at src/Epoll.cpp:47 explains only why the descriptor is checked again. It does not say whether leaving `waitForEvents`, instead of moving on to the next entry, is intended. One way to hit this is a handler that removes its own descriptor at a kind before HUP. In edge-triggered mode, the readiness of the dropped entries is not reported again until a new edge. `Dispatch.VanishedEntryDropsRestOfBatch` exhibits the effect.
