/** waitForEvents: the walk over one batch of ready descriptors, and what it
 *  guarantees about the callbacks it invokes and the table it leaves. */
module Dispatch {
  import opened Wrappers
  import opened EventTypes
  import opened Descriptors
  import opened Registry

  /** One epoll_event of the batch epoll_wait fills in. */
  datatype EpollEvent = EpollEvent(events: Mask, fd: int)

  /** A callback invocation `handler(fd)` for the given kind. */
  datatype Invocation = Invocation(fd: int, kind: Kind, handler: HandlerId)

  datatype KindsRun = KindsRun(state: State, calls: seq<Invocation>, aborted: bool)

  /** processed: how many entries were handled completely; aborted: whether the
   *  walk stopped early because an entry's descriptor had gone. */
  datatype BatchRun = BatchRun(state: State, calls: seq<Invocation>, processed: nat, aborted: bool)

  /** The inner loop of waitForEvents for one (fd, events) entry, from position
   *  j of AllEventTypes on: before each kind the descriptor must still be in
   *  the table, otherwise the walk is aborted; a callback is invoked when the
   *  word carries the kind and its slot is set (what `hasHandler(events & evt)`
   *  tests, see SelectedSlot). A callback's effect on the table is given by
   *  `effects`: the descriptors it passes to removeDescriptor. */
  function RunKinds(s: State, fd: int, events: Mask, j: nat, effects: Invocation -> seq<int>): (r: KindsRun)
    requires j <= |AllEventTypes|
    ensures r.aborted ==> fd !in r.state.fds
    decreases |AllEventTypes| - j
  {
    if j == |AllEventTypes| then KindsRun(s, [], false)
    else if fd !in s.fds then KindsRun(s, [], true)
    else
      var k := AllEventTypes[j];
      var slot := s.fds[fd].Handler(k);
      if Has(events, k) && slot.Some? then
        var inv := Invocation(fd, k, slot.value);
        var rest := RunKinds(RemoveAll(s, effects(inv)), fd, events, j + 1, effects);
        KindsRun(rest.state, [inv] + rest.calls, rest.aborted)
      else
        RunKinds(s, fd, events, j + 1, effects)
  }

  /** The outer loop of waitForEvents from entry i of the batch on. An aborted
   *  entry ends the whole walk (the source returns); a completed entry whose
   *  word carries RDHUP or HUP is followed by removeDescriptor. */
  function RunBatch(s: State, batch: seq<EpollEvent>, i: nat, effects: Invocation -> seq<int>): (o: BatchRun)
    requires i <= |batch|
    ensures i <= o.processed <= |batch|
    ensures o.aborted <==> o.processed < |batch|
    decreases |batch| - i
  {
    if i == |batch| then BatchRun(s, [], i, false)
    else
      var e := batch[i];
      var r := RunKinds(s, e.fd, e.events, 0, effects);
      if r.aborted then BatchRun(r.state, r.calls, i, true)
      else
        var next := if IsHangup(e.events) then Remove(r.state, e.fd) else r.state;
        var rest := RunBatch(next, batch, i + 1, effects);
        BatchRun(rest.state, r.calls + rest.calls, rest.processed, rest.aborted)
  }

  /** The callbacks an entry is due, in AllEventTypes order from position j:
   *  one per kind that the word carries and whose slot is set. */
  function Due(md: MonitoredDescriptor, fd: int, events: Mask, j: nat): seq<Invocation>
    requires j <= |AllEventTypes|
    decreases |AllEventTypes| - j
  {
    if j == |AllEventTypes| then []
    else
      var k := AllEventTypes[j];
      (if Has(events, k) && md.Handler(k).Some? then [Invocation(fd, k, md.Handler(k).value)] else [])
      + Due(md, fd, events, j + 1)
  }

  /** Due lists, in strictly increasing AllEventTypes order, exactly the
   *  callbacks whose kind the word carries and whose slot is set. */
  lemma DueExact(md: MonitoredDescriptor, fd: int, events: Mask, j: nat)
    requires j <= |AllEventTypes|
    ensures forall n :: 0 <= n < |Due(md, fd, events, j)| ==>
      var c := Due(md, fd, events, j)[n];
      c.fd == fd && Has(events, c.kind) && md.Handler(c.kind) == Some(c.handler) && j <= Index(c.kind)
    ensures forall a, b :: 0 <= a < b < |Due(md, fd, events, j)| ==>
      Index(Due(md, fd, events, j)[a].kind) < Index(Due(md, fd, events, j)[b].kind)
    ensures forall k :: j <= Index(k) && Has(events, k) && md.Handler(k).Some? ==>
      Invocation(fd, k, md.Handler(k).value) in Due(md, fd, events, j)
  {
    DueSound(md, fd, events, j);
    DueOrdered(md, fd, events, j);
    DueComplete(md, fd, events, j);
  }

  /** Every callback Due lists is for a carried kind with that slot's callback. */
  lemma {:induction false} DueSound(md: MonitoredDescriptor, fd: int, events: Mask, j: nat)
    requires j <= |AllEventTypes|
    ensures forall n :: 0 <= n < |Due(md, fd, events, j)| ==>
      var c := Due(md, fd, events, j)[n];
      c.fd == fd && Has(events, c.kind) && md.Handler(c.kind) == Some(c.handler) && j <= Index(c.kind)
    decreases |AllEventTypes| - j
  {
    if j < |AllEventTypes| {
      var k := AllEventTypes[j];
      var tail := Due(md, fd, events, j + 1);
      var head := if Has(events, k) && md.Handler(k).Some? then [Invocation(fd, k, md.Handler(k).value)] else [];
      assert Due(md, fd, events, j) == head + tail;
      DueSound(md, fd, events, j + 1);
      AllEventTypesExact();
      assert Index(k) == j;
    }
  }

  /** Due lists its callbacks in strictly increasing AllEventTypes order. */
  lemma {:induction false} DueOrdered(md: MonitoredDescriptor, fd: int, events: Mask, j: nat)
    requires j <= |AllEventTypes|
    ensures forall a, b :: 0 <= a < b < |Due(md, fd, events, j)| ==>
      Index(Due(md, fd, events, j)[a].kind) < Index(Due(md, fd, events, j)[b].kind)
    decreases |AllEventTypes| - j
  {
    if j < |AllEventTypes| {
      var k := AllEventTypes[j];
      var tail := Due(md, fd, events, j + 1);
      var head := if Has(events, k) && md.Handler(k).Some? then [Invocation(fd, k, md.Handler(k).value)] else [];
      assert Due(md, fd, events, j) == head + tail;
      DueOrdered(md, fd, events, j + 1);
      DueSound(md, fd, events, j + 1);
      AllEventTypesExact();
      assert Index(k) == j;
    }
  }

  /** Due lists the callback of every carried kind whose slot is set. */
  lemma {:induction false} DueComplete(md: MonitoredDescriptor, fd: int, events: Mask, j: nat)
    requires j <= |AllEventTypes|
    ensures forall k :: j <= Index(k) && Has(events, k) && md.Handler(k).Some? ==>
      Invocation(fd, k, md.Handler(k).value) in Due(md, fd, events, j)
    decreases |AllEventTypes| - j
  {
    if j < |AllEventTypes| {
      var k := AllEventTypes[j];
      var tail := Due(md, fd, events, j + 1);
      var head := if Has(events, k) && md.Handler(k).Some? then [Invocation(fd, k, md.Handler(k).value)] else [];
      assert Due(md, fd, events, j) == head + tail;
      DueComplete(md, fd, events, j + 1);
    }
  }

  /** Within one entry, dispatch only ever removes entries, and aborts only
   *  when the entry's descriptor is gone. */
  lemma {:induction false} RunKindsWithin(s: State, fd: int, events: Mask, j: nat, effects: Invocation -> seq<int>)
    requires j <= |AllEventTypes|
    ensures Within(RunKinds(s, fd, events, j, effects).state, s)
    ensures RunKinds(s, fd, events, j, effects).aborted ==> fd !in RunKinds(s, fd, events, j, effects).state.fds
    decreases |AllEventTypes| - j
  {
    if j < |AllEventTypes| && fd in s.fds {
      var md, k := s.fds[fd], AllEventTypes[j];
      if Has(events, k) && md.Handler(k).Some? {
        var inv := Invocation(fd, k, md.Handler(k).value);
        var s1 := RemoveAll(s, effects(inv));
        RemoveAllContract(s, effects(inv));
        RunKindsWithin(s1, fd, events, j + 1, effects);
        var rest := RunKinds(s1, fd, events, j + 1, effects);
        assert RunKinds(s, fd, events, j, effects) == KindsRun(rest.state, [inv] + rest.calls, rest.aborted);
      } else {
        RunKindsWithin(s, fd, events, j + 1, effects);
      }
    }
  }

  /** Within one entry, the table stays consistent with the kernel. */
  lemma {:induction false} RunKindsConsistent(s: State, fd: int, events: Mask, j: nat, effects: Invocation -> seq<int>)
    requires j <= |AllEventTypes| && Consistent(s)
    ensures Consistent(RunKinds(s, fd, events, j, effects).state)
    decreases |AllEventTypes| - j
  {
    if j < |AllEventTypes| && fd in s.fds {
      var md, k := s.fds[fd], AllEventTypes[j];
      if Has(events, k) && md.Handler(k).Some? {
        var inv := Invocation(fd, k, md.Handler(k).value);
        var s1 := RemoveAll(s, effects(inv));
        RemoveAllContract(s, effects(inv));
        RunKindsConsistent(s1, fd, events, j + 1, effects);
      } else {
        RunKindsConsistent(s, fd, events, j + 1, effects);
      }
    }
  }

  /** Within one entry, an entry leaves the table only because a callback
   *  invoked for it asked for its removal. */
  lemma {:induction false} RunKindsRemovals(s: State, fd: int, events: Mask, j: nat, effects: Invocation -> seq<int>)
    requires j <= |AllEventTypes|
    ensures var r := RunKinds(s, fd, events, j, effects);
      forall g :: g in s.fds && g !in r.state.fds ==> exists n :: 0 <= n < |r.calls| && g in effects(r.calls[n])
    decreases |AllEventTypes| - j
  {
    if j < |AllEventTypes| && fd in s.fds {
      var md, k := s.fds[fd], AllEventTypes[j];
      if Has(events, k) && md.Handler(k).Some? {
        var inv := Invocation(fd, k, md.Handler(k).value);
        var s1 := RemoveAll(s, effects(inv));
        RemoveAllContract(s, effects(inv));
        RunKindsRemovals(s1, fd, events, j + 1, effects);
        var rest := RunKinds(s1, fd, events, j + 1, effects);
        var calls := [inv] + rest.calls;
        assert RunKinds(s, fd, events, j, effects) == KindsRun(rest.state, calls, rest.aborted);
        forall g | g in s.fds && g !in rest.state.fds
          ensures exists n :: 0 <= n < |calls| && g in effects(calls[n])
        {
          if g in s1.fds {
            var n :| 0 <= n < |rest.calls| && g in effects(rest.calls[n]);
            assert calls[n + 1] == rest.calls[n];
          } else {
            assert calls[0] == inv;
          }
        }
      } else {
        RunKindsRemovals(s, fd, events, j + 1, effects);
      }
    }
  }

  /** Within one entry, the callbacks invoked are a prefix of those it is due,
   *  and all of them when the walk was not aborted. */
  lemma {:induction false} RunKindsCalls(s: State, fd: int, events: Mask, j: nat, effects: Invocation -> seq<int>)
    requires j <= |AllEventTypes| && fd in s.fds
    ensures var r := RunKinds(s, fd, events, j, effects);
      var d := Due(s.fds[fd], fd, events, j);
      r.calls <= d && (!r.aborted ==> r.calls == d)
    decreases |AllEventTypes| - j
  {
    if j < |AllEventTypes| {
      var md, k := s.fds[fd], AllEventTypes[j];
      if Has(events, k) && md.Handler(k).Some? {
        var inv := Invocation(fd, k, md.Handler(k).value);
        var s1 := RemoveAll(s, effects(inv));
        RemoveAllContract(s, effects(inv));
        var rest := RunKinds(s1, fd, events, j + 1, effects);
        var tail := Due(md, fd, events, j + 1);
        assert RunKinds(s, fd, events, j, effects) == KindsRun(rest.state, [inv] + rest.calls, rest.aborted);
        assert Due(md, fd, events, j) == [inv] + tail;
        if fd in s1.fds {
          assert s1.fds[fd] == md;
          RunKindsCalls(s1, fd, events, j + 1, effects);
          assert rest.calls <= tail && (!rest.aborted ==> rest.calls == tail);
        } else if j + 1 < |AllEventTypes| {
          assert rest == KindsRun(s1, [], true);
        } else {
          assert rest.calls == [] == tail;
        }
      } else {
        RunKindsCalls(s, fd, events, j + 1, effects);
        assert RunKinds(s, fd, events, j, effects) == RunKinds(s, fd, events, j + 1, effects);
        assert Due(md, fd, events, j) == Due(md, fd, events, j + 1);
      }
    }
  }

  /** Over a batch, dispatch only ever removes entries, and it stops early
   *  only on an entry whose descriptor is no longer in the table. */
  lemma {:induction false} RunBatchWithin(s: State, batch: seq<EpollEvent>, i: nat, effects: Invocation -> seq<int>)
    requires i <= |batch|
    ensures var o := RunBatch(s, batch, i, effects);
      && Within(o.state, s)
      && (o.aborted ==> batch[o.processed].fd !in o.state.fds)
    decreases |batch| - i
  {
    if i < |batch| {
      var e := batch[i];
      RunKindsWithin(s, e.fd, e.events, 0, effects);
      var r := RunKinds(s, e.fd, e.events, 0, effects);
      if !r.aborted {
        var next := if IsHangup(e.events) then Remove(r.state, e.fd) else r.state;
        RemoveContract(r.state, e.fd);
        RunBatchWithin(next, batch, i + 1, effects);
        var rest := RunBatch(next, batch, i + 1, effects);
        assert RunBatch(s, batch, i, effects) == BatchRun(rest.state, r.calls + rest.calls, rest.processed, rest.aborted);
      }
    }
  }

  /** Over a batch, the table stays consistent with the kernel. */
  lemma {:induction false} RunBatchConsistent(s: State, batch: seq<EpollEvent>, i: nat, effects: Invocation -> seq<int>)
    requires i <= |batch| && Consistent(s)
    ensures Consistent(RunBatch(s, batch, i, effects).state)
    decreases |batch| - i
  {
    if i < |batch| {
      var e := batch[i];
      RunKindsConsistent(s, e.fd, e.events, 0, effects);
      var r := RunKinds(s, e.fd, e.events, 0, effects);
      if !r.aborted {
        var next := if IsHangup(e.events) then Remove(r.state, e.fd) else r.state;
        RemoveContract(r.state, e.fd);
        RunBatchConsistent(next, batch, i + 1, effects);
      }
    }
  }

  /** Invocation c is one that the batch from entry i on, against table s,
   *  calls for: an entry for c's descriptor carries c's kind, and c's callback
   *  is the one s holds for that kind. */
  predicate Justified(s: State, batch: seq<EpollEvent>, i: nat, c: Invocation) {
    && c.fd in s.fds
    && s.fds[c.fd].Handler(c.kind) == Some(c.handler)
    && exists j :: i <= j < |batch| && batch[j].fd == c.fd && Has(batch[j].events, c.kind)
  }

  /** Every callback invoked belongs to an entry of the batch whose word carries
   *  its kind, and it is the callback the table held for that kind when the
   *  wait began. */
  lemma {:induction false} RunBatchCallsJustified(s: State, batch: seq<EpollEvent>, i: nat, effects: Invocation -> seq<int>)
    requires i <= |batch|
    ensures forall c :: c in RunBatch(s, batch, i, effects).calls ==> Justified(s, batch, i, c)
    decreases |batch| - i
  {
    if i < |batch| {
      var e := batch[i];
      var r := RunKinds(s, e.fd, e.events, 0, effects);
      EntryCallsJustified(s, batch, i, effects);
      if !r.aborted {
        var next := if IsHangup(e.events) then Remove(r.state, e.fd) else r.state;
        RunKindsWithin(s, e.fd, e.events, 0, effects);
        RemoveContract(r.state, e.fd);
        RunBatchCallsJustified(next, batch, i + 1, effects);
        var rest := RunBatch(next, batch, i + 1, effects);
        assert RunBatch(s, batch, i, effects).calls == r.calls + rest.calls;
        assert Within(next, s);
        forall c | c in rest.calls ensures Justified(s, batch, i, c) {
          assert Justified(next, batch, i + 1, c);
          var j :| i + 1 <= j < |batch| && batch[j].fd == c.fd && Has(batch[j].events, c.kind);
          assert i <= j;
        }
      }
    }
  }

  /** The callbacks invoked for entry i are justified by that entry. */
  lemma EntryCallsJustified(s: State, batch: seq<EpollEvent>, i: nat, effects: Invocation -> seq<int>)
    requires i < |batch|
    ensures forall c :: c in RunKinds(s, batch[i].fd, batch[i].events, 0, effects).calls ==> Justified(s, batch, i, c)
  {
    var e := batch[i];
    var r := RunKinds(s, e.fd, e.events, 0, effects);
    if e.fd in s.fds {
      RunKindsCalls(s, e.fd, e.events, 0, effects);
      var d := Due(s.fds[e.fd], e.fd, e.events, 0);
      DueExact(s.fds[e.fd], e.fd, e.events, 0);
      forall c | c in r.calls ensures Justified(s, batch, i, c) {
        var n :| 0 <= n < |r.calls| && r.calls[n] == c;
        assert d[n] == c;
        assert batch[i].fd == c.fd && Has(batch[i].events, c.kind);
      }
    } else {
      assert r.calls == [];
    }
  }

  /** Entries whose word carries RDHUP or HUP and that were handled completely
   *  leave the table, whether or not a callback for those kinds existed. */
  lemma {:induction false} RunBatchHangups(s: State, batch: seq<EpollEvent>, i: nat, effects: Invocation -> seq<int>)
    requires i <= |batch|
    ensures var o := RunBatch(s, batch, i, effects);
      forall j :: i <= j < o.processed && IsHangup(batch[j].events) ==> batch[j].fd !in o.state.fds
    decreases |batch| - i
  {
    var o := RunBatch(s, batch, i, effects);
    if i < |batch| {
      var e := batch[i];
      var r := RunKinds(s, e.fd, e.events, 0, effects);
      if r.aborted {
        assert o.processed == i;
      } else {
        var next := if IsHangup(e.events) then Remove(r.state, e.fd) else r.state;
        RemoveContract(r.state, e.fd);
        RunBatchHangups(next, batch, i + 1, effects);
        RunBatchWithin(next, batch, i + 1, effects);
        var rest := RunBatch(next, batch, i + 1, effects);
        assert o == BatchRun(rest.state, r.calls + rest.calls, rest.processed, rest.aborted);
        forall j | i <= j < o.processed && IsHangup(batch[j].events)
          ensures batch[j].fd !in o.state.fds
        {
          if j == i {
            assert e.fd !in next.fds;
          }
        }
      }
    }
  }

  /** A descriptor leaves the table during dispatch only because a callback
   *  removed it or because a completed entry for it carried RDHUP or HUP;
   *  otherwise it stays until removeDescriptor is called. */
  lemma {:induction false} RunBatchRemovals(s: State, batch: seq<EpollEvent>, i: nat, effects: Invocation -> seq<int>)
    requires i <= |batch|
    ensures var o := RunBatch(s, batch, i, effects);
      forall g :: g in s.fds && g !in o.state.fds ==>
        || (exists n :: 0 <= n < |o.calls| && g in effects(o.calls[n]))
        || (exists j :: i <= j < o.processed && batch[j].fd == g && IsHangup(batch[j].events))
    decreases |batch| - i
  {
    if i < |batch| {
      var e := batch[i];
      var r := RunKinds(s, e.fd, e.events, 0, effects);
      var o := RunBatch(s, batch, i, effects);
      RunKindsRemovals(s, e.fd, e.events, 0, effects);
      if !r.aborted {
        var next := if IsHangup(e.events) then Remove(r.state, e.fd) else r.state;
        RemoveContract(r.state, e.fd);
        RunBatchRemovals(next, batch, i + 1, effects);
        var rest := RunBatch(next, batch, i + 1, effects);
        assert o == BatchRun(rest.state, r.calls + rest.calls, rest.processed, rest.aborted);
        forall g | g in s.fds && g !in o.state.fds
          ensures || (exists n :: 0 <= n < |o.calls| && g in effects(o.calls[n]))
                  || (exists j :: i <= j < o.processed && batch[j].fd == g && IsHangup(batch[j].events))
        {
          if g !in r.state.fds {
            var n :| 0 <= n < |r.calls| && g in effects(r.calls[n]);
            assert o.calls[n] == r.calls[n];
          } else if g !in next.fds {
            assert g == e.fd && IsHangup(e.events);
          } else if exists n :: 0 <= n < |rest.calls| && g in effects(rest.calls[n]) {
            var n :| 0 <= n < |rest.calls| && g in effects(rest.calls[n]);
            assert o.calls[|r.calls| + n] == rest.calls[n];
          }
        }
      }
    }
  }

  /** An aborted walk never looks at the entries after the one it stopped on:
   *  any batch that agrees up to that entry gives the same callbacks and the
   *  same table. */
  lemma {:induction false} RunBatchAbortSkipsRest(s: State, batch: seq<EpollEvent>, other: seq<EpollEvent>, i: nat, effects: Invocation -> seq<int>)
    requires i <= |batch|
    requires RunBatch(s, batch, i, effects).aborted
    requires RunBatch(s, batch, i, effects).processed < |other|
    requires Agree(batch, other, i, RunBatch(s, batch, i, effects).processed)
    ensures i <= |other| && RunBatch(s, other, i, effects) == RunBatch(s, batch, i, effects)
    decreases |batch| - i
  {
    var p := RunBatch(s, batch, i, effects).processed;
    assert other[i] == batch[i];
    var e := batch[i];
    var r := RunKinds(s, e.fd, e.events, 0, effects);
    if !r.aborted {
      var next := if IsHangup(e.events) then Remove(r.state, e.fd) else r.state;
      AbortLaterEntry(s, batch, i, effects);
      AgreeFrom(batch, other, i, p);
      RunBatchAbortSkipsRest(next, batch, other, i + 1, effects);
    }
    SameStep(s, batch, other, i, effects);
  }

  /** A walk that aborts but completes entry i aborts later, at the same entry,
   *  in the walk from entry i + 1. */
  lemma AbortLaterEntry(s: State, batch: seq<EpollEvent>, i: nat, effects: Invocation -> seq<int>)
    requires i < |batch| && RunBatch(s, batch, i, effects).aborted
    ensures var e := batch[i];
      var r := RunKinds(s, e.fd, e.events, 0, effects);
      var next := if IsHangup(e.events) then Remove(r.state, e.fd) else r.state;
      !r.aborted ==>
        && RunBatch(next, batch, i + 1, effects).aborted
        && RunBatch(next, batch, i + 1, effects).processed == RunBatch(s, batch, i, effects).processed
  {
  }

  /** Agreement from i to p implies agreement from i + 1 to p. */
  lemma AgreeFrom(batch: seq<EpollEvent>, other: seq<EpollEvent>, i: nat, p: nat)
    requires p < |batch| && p < |other| && Agree(batch, other, i, p)
    ensures Agree(batch, other, i + 1, p)
  {
  }

  /** batch and other hold the same entries from i to p. */
  predicate Agree(batch: seq<EpollEvent>, other: seq<EpollEvent>, i: nat, p: nat)
    requires p < |batch| && p < |other|
  {
    forall j :: i <= j <= p ==> other[j] == batch[j]
  }

  /** Two batches that agree on entry i and whose walks agree from entry i + 1
   *  on agree from entry i on. */
  lemma SameStep(s: State, batch: seq<EpollEvent>, other: seq<EpollEvent>, i: nat, effects: Invocation -> seq<int>)
    requires i < |batch| && i < |other| && other[i] == batch[i]
    requires var e := batch[i];
      var r := RunKinds(s, e.fd, e.events, 0, effects);
      var next := if IsHangup(e.events) then Remove(r.state, e.fd) else r.state;
      !r.aborted ==> RunBatch(next, other, i + 1, effects) == RunBatch(next, batch, i + 1, effects)
    ensures RunBatch(s, other, i, effects) == RunBatch(s, batch, i, effects)
  {
  }

  /** With callbacks that remove nothing, a batch of distinct registered
   *  descriptors is handled completely. */
  lemma {:induction false} RunBatchCompletes(s: State, batch: seq<EpollEvent>, i: nat, effects: Invocation -> seq<int>)
    requires i <= |batch|
    requires forall inv :: effects(inv) == []
    requires forall j :: i <= j < |batch| ==> batch[j].fd in s.fds
    requires forall a, b :: i <= a < b < |batch| ==> batch[a].fd != batch[b].fd
    ensures var o := RunBatch(s, batch, i, effects);
      !o.aborted && o.processed == |batch|
    decreases |batch| - i
  {
    if i < |batch| {
      var e := batch[i];
      RunKindsUndisturbed(s, e.fd, e.events, 0, effects);
      var r := RunKinds(s, e.fd, e.events, 0, effects);
      var next := if IsHangup(e.events) then Remove(r.state, e.fd) else r.state;
      RemoveContract(r.state, e.fd);
      RunBatchCompletes(next, batch, i + 1, effects);
    }
  }

  /** With callbacks that remove nothing, an entry whose descriptor is in the
   *  table is handled completely and the table is left as it was. */
  lemma {:induction false} RunKindsUndisturbed(s: State, fd: int, events: Mask, j: nat, effects: Invocation -> seq<int>)
    requires j <= |AllEventTypes| && fd in s.fds
    requires forall inv :: effects(inv) == []
    ensures var r := RunKinds(s, fd, events, j, effects);
      !r.aborted && r.state == s
    decreases |AllEventTypes| - j
  {
    if j < |AllEventTypes| {
      var md, k := s.fds[fd], AllEventTypes[j];
      if Has(events, k) && md.Handler(k).Some? {
        var inv := Invocation(fd, k, md.Handler(k).value);
        assert RemoveAll(s, effects(inv)) == s;
      }
      RunKindsUndisturbed(s, fd, events, j + 1, effects);
    }
  }

  /** A concrete batch: descriptors 3, 4 and 5 each have an EPOLLIN callback,
   *  are registered with the kernel for EPOLLIN, and are all reported
   *  readable; the callback of 3 removes 4. The walk stops at the entry for 4,
   *  so the callback of 5 is never invoked although 5 is still in the table. */
  lemma VanishedEntryDropsRestOfBatch()
    ensures var s := State(map[3 := Watched(3, 30), 4 := Watched(4, 40), 5 := Watched(5, 50)], map[3 := Bit(IN), 4 := Bit(IN), 5 := Bit(IN)], []);
      var batch := [EpollEvent(Bit(IN), 3), EpollEvent(Bit(IN), 4), EpollEvent(Bit(IN), 5)];
      var o := RunBatch(s, batch, 0, ThreeRemovesFour);
      && Consistent(s)
      && o.aborted && o.processed == 1
      && o.calls == [Invocation(3, IN, 30)]
      && 5 in o.state.fds && 4 !in o.state.fds
  {
    var s := ExampleTable();
    var batch := [EpollEvent(Bit(IN), 3), EpollEvent(Bit(IN), 4), EpollEvent(Bit(IN), 5)];
    ExampleFirstEntry();
    ExampleSecondEntry();
    assert RunBatch(AfterFirstEntry(), batch, 1, ThreeRemovesFour) == BatchRun(AfterFirstEntry(), [], 1, true);
    assert RunBatch(s, batch, 0, ThreeRemovesFour) == BatchRun(AfterFirstEntry(), [Invocation(3, IN, 30)], 1, true);
  }

  /** The callback effects of the example: the callback of 3 removes 4. */
  function ThreeRemovesFour(inv: Invocation): seq<int> {
    if inv.fd == 3 then [4] else []
  }

  /** The example's table and interest list before the batch. */
  function ExampleTable(): State {
    State(map[3 := Watched(3, 30), 4 := Watched(4, 40), 5 := Watched(5, 50)], map[3 := Bit(IN), 4 := Bit(IN), 5 := Bit(IN)], [])
  }

  /** The example's state once 4 has been removed. */
  function AfterFirstEntry(): State {
    State(map[3 := Watched(3, 30), 5 := Watched(5, 50)], map[3 := Bit(IN), 5 := Bit(IN)], [CtlCall(Del, 4, NONE)])
  }

  /** The entry for 3 runs its callback, which removes 4, and completes. */
  lemma ExampleFirstEntry()
    ensures RunKinds(ExampleTable(), 3, Bit(IN), 0, ThreeRemovesFour) == KindsRun(AfterFirstEntry(), [Invocation(3, IN, 30)], false)
  {
    assert ExampleTable().fds - {4} == AfterFirstEntry().fds;
    assert ExampleTable().interest - {4} == AfterFirstEntry().interest;
    assert Remove(ExampleTable(), 4) == AfterFirstEntry();
    assert RemoveAll(ExampleTable(), [4]) == AfterFirstEntry();
    forall k | 1 <= Index(k) ensures !Has(Bit(IN), k) {
      assert k != IN;
    }
    NothingDue(AfterFirstEntry(), 3, Bit(IN), 1, ThreeRemovesFour);
  }

  /** From position j on, a registered entry whose word carries none of the
   *  remaining kinds invokes nothing and completes. */
  lemma {:induction false} NothingDue(t: State, fd: int, events: Mask, j: nat, effects: Invocation -> seq<int>)
    requires j <= |AllEventTypes| && fd in t.fds
    requires forall k :: j <= Index(k) ==> !Has(events, k)
    ensures RunKinds(t, fd, events, j, effects) == KindsRun(t, [], false)
    decreases |AllEventTypes| - j
  {
    if j < |AllEventTypes| {
      assert Index(AllEventTypes[j]) == j by {
        AllEventTypesExact();
      }
      NothingDue(t, fd, events, j + 1, effects);
    }
  }

  /** The entry for 4 finds its descriptor gone and aborts. */
  lemma ExampleSecondEntry()
    ensures RunKinds(AfterFirstEntry(), 4, Bit(IN), 0, ThreeRemovesFour) == KindsRun(AfterFirstEntry(), [], true)
  {
  }

  /** An entry with only an EPOLLIN callback, already registered. */
  function Watched(fd: int, handler: HandlerId): MonitoredDescriptor {
    NewMonitoredDescriptor(fd).(isInitialized := true, inHandler := Some(handler))
  }
}
