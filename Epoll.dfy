/** The Epoll class: the descriptor table, its operations, and the dispatch
 *  loop over one batch returned by epoll_wait. The kernel side (the interest
 *  list and the epoll_ctl calls issued) is ghost state; whether a system call
 *  succeeds is a parameter of the operation that makes it. */
module EpollMultiplexer {
  import opened Wrappers
  import opened EventTypes
  import opened EpollErrors
  import opened Descriptors
  import opened Registry
  import opened Dispatch

  /** _maxEventsNum: the most entries one epoll_wait call reports. */
  const MaxEventsNum: nat := 10

  class Epoll {
    const epollFd: int
    const isEdgeTriggered: bool
    var monitoredFds: map<int, MonitoredDescriptor>

    /** The kernel's interest list for epollFd. */
    ghost var interest: map<int, Mask>
    /** Every epoll_ctl call issued on epollFd, in order. */
    ghost var ctlLog: seq<CtlCall>
    /** The descriptors _setNonBlocking was called on. */
    ghost var nonBlockingRequested: set<int>
    /** Every callback invoked by waitForEvents, in order. */
    ghost var trace: seq<Invocation>

    ghost function Snapshot(): State
      reads this
    {
      State(monitoredFds, interest, ctlLog)
    }

    /** The table agrees with the kernel (Registry.Consistent); in
     *  edge-triggered mode every descriptor in the table has been put through
     *  _setNonBlocking, and in level-triggered mode no descriptor has. */
    ghost predicate Valid()
      reads this
    {
      && epollFd != -1
      && Consistent(Snapshot())
      && (isEdgeTriggered ==> monitoredFds.Keys <= nonBlockingRequested)
      && (!isEdgeTriggered ==> nonBlockingRequested == {})
    }

    /** Epoll(isEdgeTriggered) once epoll_create1 has returned epollFd. */
    constructor (isEdgeTriggered: bool, epollFd: int)
      requires epollFd != -1
      ensures this.isEdgeTriggered == isEdgeTriggered && this.epollFd == epollFd
      ensures monitoredFds == map[] && interest == map[] && ctlLog == []
      ensures nonBlockingRequested == {} && trace == []
      ensures Valid()
    {
      this.epollFd := epollFd;
      this.isEdgeTriggered := isEdgeTriggered;
      monitoredFds := map[];
      interest := map[];
      ctlLog := [];
      nonBlockingRequested := {};
      trace := [];
    }

    /** addDescriptor: try_emplace keeps an existing entry exactly as it was
     *  and otherwise inserts a fresh one; in edge-triggered mode the
     *  descriptor is then made non-blocking, and a failing fcntl is reported
     *  after the entry is already in the table. */
    method AddDescriptor(fd: int, fcntlSucceeds: bool) returns (o: Outcome<EpollError>)
      requires Valid()
      modifies this
      ensures Valid()
      ensures fd in monitoredFds
      ensures monitoredFds == if fd in old(monitoredFds) then old(monitoredFds)
                              else old(monitoredFds)[fd := NewMonitoredDescriptor(fd)]
      ensures interest == old(interest) && ctlLog == old(ctlLog) && trace == old(trace)
      ensures nonBlockingRequested == if isEdgeTriggered then old(nonBlockingRequested) + {fd}
                                      else old(nonBlockingRequested)
      ensures o == if isEdgeTriggered && !fcntlSucceeds then Fail(NonBlockingFailed) else Pass
    {
      if fd !in monitoredFds {
        monitoredFds := monitoredFds[fd := NewMonitoredDescriptor(fd)];
      }
      o := Pass;
      if isEdgeTriggered {
        o := SetNonBlocking(fd, fcntlSucceeds);
      }
    }

    /** _setNonBlocking: fcntl(F_SETFL, flags | O_NONBLOCK). Private; called only
     *  by AddDescriptor in edge-triggered mode, after the insertion, so Valid is
     *  re-established there. The request is recorded whether or not fcntl
     *  succeeds. */
    method SetNonBlocking(fd: int, fcntlSucceeds: bool) returns (o: Outcome<EpollError>)
      modifies this
      ensures nonBlockingRequested == old(nonBlockingRequested) + {fd}
      ensures monitoredFds == old(monitoredFds) && interest == old(interest)
      ensures ctlLog == old(ctlLog) && trace == old(trace)
      ensures o == if fcntlSucceeds then Pass else Fail(NonBlockingFailed)
    {
      nonBlockingRequested := nonBlockingRequested + {fd};
      o := if fcntlSucceeds then Pass else Fail(NonBlockingFailed);
    }

    /** removeDescriptor: Registry.Remove on the current state. */
    method RemoveDescriptor(fd: int)
      requires Valid()
      modifies this
      ensures Valid()
      ensures Snapshot() == Remove(old(Snapshot()), fd)
      ensures nonBlockingRequested == old(nonBlockingRequested) && trace == old(trace)
    {
      RemoveContract(Snapshot(), fd);
      if fd in monitoredFds {
        ctlLog := ctlLog + [CtlCall(Del, fd, NONE)];
        interest := interest - {fd};
        monitoredFds := monitoredFds - {fd};
      }
    }

    /** addEventHandler: an unknown descriptor is refused before anything
     *  changes; otherwise every kind of eventType gets the callback, the other
     *  slots keep theirs, and the whole slot set is pushed to the kernel. */
    method AddEventHandler(monitoredFd: int, eventType: Mask, eventHandler: Slot, kernelAccepts: bool)
      returns (o: Outcome<EpollError>)
      requires Valid()
      modifies this
      ensures Valid()
      ensures monitoredFd !in old(monitoredFds) ==>
        o == Fail(NotAdded) && Snapshot() == old(Snapshot())
      ensures monitoredFd in old(monitoredFds) ==>
        Pushed(Snapshot(), o)
          == Reload(old(Snapshot()), WithHandlers(old(monitoredFds)[monitoredFd], eventType, eventHandler), isEdgeTriggered, kernelAccepts)
      ensures nonBlockingRequested == old(nonBlockingRequested) && trace == old(trace)
    {
      if monitoredFd !in monitoredFds {
        return Fail(NotAdded);
      }
      ghost var md0 := monitoredFds[monitoredFd];
      assert md0.monitoredFd == monitoredFd;
      var md := monitoredFds[monitoredFd];
      for n := 0 to |AllEventTypes|
        modifies {}
        invariant md.monitoredFd == md0.monitoredFd && md.isInitialized == md0.isInitialized
        invariant forall k :: md.Handler(k) == if Has(eventType, k) && Index(k) < n then eventHandler else md0.Handler(k)
      {
        var evt := Bit(AllEventTypes[n]);
        MaskedBit(eventType, AllEventTypes[n]);
        if And(eventType, evt) != NONE {
          md := md.SetHandler(evt, eventHandler);
        }
        forall k ensures evt == Bit(k) <==> Index(k) == n {
          BitInjective(k, AllEventTypes[n]);
        }
      }
      SlotsDetermine(md, WithHandlers(md0, eventType, eventHandler));
      ReplaceEntry(Snapshot(), md, isEdgeTriggered, kernelAccepts);
      monitoredFds := monitoredFds[monitoredFd := md];
      o := ReloadEventHandlers(monitoredFd, kernelAccepts);
    }

    /** removeEventHandler: `.at` on an unknown descriptor throws
     *  out_of_range before anything changes; otherwise every kind of
     *  eventType loses its callback, the other slots keep theirs, and the
     *  whole slot set is pushed to the kernel. */
    method RemoveEventHandler(monitoredFd: int, eventType: Mask, kernelAccepts: bool)
      returns (o: Outcome<EpollError>)
      requires Valid()
      modifies this
      ensures Valid()
      ensures monitoredFd !in old(monitoredFds) ==>
        o == Fail(OutOfRange) && Snapshot() == old(Snapshot())
      ensures monitoredFd in old(monitoredFds) ==>
        Pushed(Snapshot(), o)
          == Reload(old(Snapshot()), WithHandlers(old(monitoredFds)[monitoredFd], eventType, None), isEdgeTriggered, kernelAccepts)
      ensures nonBlockingRequested == old(nonBlockingRequested) && trace == old(trace)
    {
      if monitoredFd !in monitoredFds {
        return Fail(OutOfRange);
      }
      ghost var md0 := monitoredFds[monitoredFd];
      assert md0.monitoredFd == monitoredFd;
      var md := monitoredFds[monitoredFd];
      for n := 0 to |AllEventTypes|
        modifies {}
        invariant md.monitoredFd == md0.monitoredFd && md.isInitialized == md0.isInitialized
        invariant forall k :: md.Handler(k) == if Has(eventType, k) && Index(k) < n then None else md0.Handler(k)
      {
        var k0 := AllEventTypes[n];
        var evt := Bit(k0);
        SelectedSlot(md, eventType, k0);
        MaskedBit(eventType, k0);
        if md.HasHandler(And(eventType, evt)) {
          md := md.SetHandler(And(eventType, evt), None);
        }
        forall k ensures evt == Bit(k) <==> Index(k) == n {
          BitInjective(k, k0);
        }
      }
      SlotsDetermine(md, WithHandlers(md0, eventType, None));
      ReplaceEntry(Snapshot(), md, isEdgeTriggered, kernelAccepts);
      monitoredFds := monitoredFds[monitoredFd := md];
      o := ReloadEventHandlers(monitoredFd, kernelAccepts);
    }

    /** _reloadEventHandlers: builds the word of every kind whose slot is set
     *  (plus EPOLLET in edge-triggered mode) and pushes it with ADD the first
     *  time and MOD afterwards, as Registry.Reload describes. */
    method ReloadEventHandlers(fd: int, kernelAccepts: bool) returns (o: Outcome<EpollError>)
      requires Valid() && fd in monitoredFds
      modifies this
      ensures Valid()
      ensures Pushed(Snapshot(), o) == Reload(old(Snapshot()), old(monitoredFds)[fd], isEdgeTriggered, kernelAccepts)
      ensures nonBlockingRequested == old(nonBlockingRequested) && trace == old(trace)
    {
      var md := monitoredFds[fd];
      ReloadContract(Snapshot(), md, isEdgeTriggered, kernelAccepts);
      var resultingEvents := NONE;
      var firstEvt := true;
      for n := 0 to |AllEventTypes|
        modifies {}
        invariant resultingEvents == HandledMask(md, n)
        invariant firstEvt ==> resultingEvents == NONE
      {
        var evt := Bit(AllEventTypes[n]);
        if md.HasHandler(evt) {
          if firstEvt {
            resultingEvents := evt;
            firstEvt := false;
          } else {
            resultingEvents := Or(resultingEvents, evt);
          }
        }
      }
      if isEdgeTriggered {
        if firstEvt {
          resultingEvents := EPOLLET;
        } else {
          resultingEvents := Or(resultingEvents, EPOLLET);
        }
      }
      assert resultingEvents == InterestMask(md, isEdgeTriggered);
      if md.isInitialized {
        ctlLog := ctlLog + [CtlCall(Mod, fd, resultingEvents)];
        if !kernelAccepts {
          return Fail(ModifyFailed);
        }
        interest := interest[fd := resultingEvents];
      } else {
        ctlLog := ctlLog + [CtlCall(Add, fd, resultingEvents)];
        if !kernelAccepts {
          return Fail(AddFailed);
        }
        interest := interest[fd := resultingEvents];
        monitoredFds := monitoredFds[fd := md.(isInitialized := true)];
      }
      o := Pass;
    }

    /** A callback `inv.handler(inv.fd)` runs; what it does to the table is
     *  to call removeDescriptor on each descriptor of effects(inv). */
    method RunCallback(inv: Invocation, effects: Invocation -> seq<int>)
      requires Valid()
      modifies this
      ensures Valid()
      ensures Snapshot() == RemoveAll(old(Snapshot()), effects(inv))
      ensures trace == old(trace) + [inv] && nonBlockingRequested == old(nonBlockingRequested)
    {
      trace := trace + [inv];
      var fds := effects(inv);
      for m := 0 to |fds|
        invariant Valid()
        invariant RemoveAll(old(Snapshot()), fds) == RemoveAll(Snapshot(), fds[m..])
        invariant trace == old(trace) + [inv] && nonBlockingRequested == old(nonBlockingRequested)
      {
        assert fds[m..][0] == fds[m] && fds[m..][1..] == fds[m + 1..];
        RemoveDescriptor(fds[m]);
      }
    }

    /** waitForEvents on the batch epoll_wait filled in: the callbacks invoked
     *  and the table left are those of Dispatch.RunBatch, whose properties
     *  are proved in module Dispatch. */
    method WaitForEvents(batch: seq<EpollEvent>, effects: Invocation -> seq<int>)
      requires Valid() && |batch| <= MaxEventsNum
      modifies this
      ensures Valid()
      ensures var o := RunBatch(old(Snapshot()), batch, 0, effects);
        Snapshot() == o.state && trace == old(trace) + o.calls
      ensures nonBlockingRequested == old(nonBlockingRequested)
    {
      ghost var target := RunBatch(Snapshot(), batch, 0, effects);
      ghost var done: seq<Invocation> := [];
      for i := 0 to |batch|
        invariant Valid() && nonBlockingRequested == old(nonBlockingRequested)
        invariant trace == old(trace) + done
        invariant target == AfterBatch(done, RunBatch(Snapshot(), batch, i, effects))
      {
        var events := batch[i].events;
        var fd := batch[i].fd;
        ghost var si := Snapshot();
        ghost var doneK := RunKinds(si, fd, events, 0, effects).calls;
        var vanished := DispatchEntry(fd, events, effects);
        if vanished {
          AbortedEntry(target, done, si, Snapshot(), batch, i, effects);
          AppendTwice(old(trace), done, doneK);
          return;
        }
        ghost var afterKinds := Snapshot();
        if IsHangup(events) {
          RemoveDescriptor(fd);
        }
        CompletedEntry(target, done, si, afterKinds, Snapshot(), batch, i, effects);
        AppendTwice(old(trace), done, doneK);
        done := done + doneK;
      }
      EndOfBatch(target, done, Snapshot(), batch, effects);
    }

    /** The loop over allEventTypes for one entry of the batch; `vanished` is
     *  true where the source returns from waitForEvents because the descriptor
     *  is no longer in the table. */
    method DispatchEntry(fd: int, events: Mask, effects: Invocation -> seq<int>) returns (vanished: bool)
      requires Valid()
      modifies this
      ensures Valid() && nonBlockingRequested == old(nonBlockingRequested)
      ensures var r := RunKinds(old(Snapshot()), fd, events, 0, effects);
        Snapshot() == r.state && trace == old(trace) + r.calls && vanished == r.aborted
    {
      ghost var si := Snapshot();
      ghost var doneK: seq<Invocation> := [];
      for j := 0 to |AllEventTypes|
        invariant Valid() && nonBlockingRequested == old(nonBlockingRequested)
        invariant trace == old(trace) + doneK
        invariant RunKinds(si, fd, events, 0, effects) == AfterKinds(doneK, RunKinds(Snapshot(), fd, events, j, effects))
      {
        if fd !in monitoredFds {
          assert RunKinds(Snapshot(), fd, events, j, effects) == KindsRun(Snapshot(), [], true);
          return true;
        }
        var k := AllEventTypes[j];
        SelectedSlot(monitoredFds[fd], events, k);
        KindStep(Snapshot(), fd, events, j, doneK, effects);
        if monitoredFds[fd].HasHandler(And(events, Bit(k))) {
          var handler := monitoredFds[fd].GetHandler(And(events, Bit(k)));
          var inv := Invocation(fd, k, handler.value.value);
          RunCallback(inv, effects);
          doneK := doneK + [inv];
        }
      }
      assert RunKinds(Snapshot(), fd, events, |AllEventTypes|, effects) == KindsRun(Snapshot(), [], false);
      return false;
    }
  }

  /** A walk result with the callbacks `calls` invoked before it. */
  function AfterKinds(calls: seq<Invocation>, r: KindsRun): KindsRun {
    KindsRun(r.state, calls + r.calls, r.aborted)
  }

  function AfterBatch(calls: seq<Invocation>, o: BatchRun): BatchRun {
    BatchRun(o.state, calls + o.calls, o.processed, o.aborted)
  }

  /** One step of the kinds loop while the descriptor is in the table: the
   *  callback of kind j runs when the word carries it and its slot is set. */
  lemma KindStep(s: State, fd: int, events: Mask, j: nat, doneK: seq<Invocation>, effects: Invocation -> seq<int>)
    requires j < |AllEventTypes| && fd in s.fds
    ensures var k := AllEventTypes[j];
      var slot := s.fds[fd].Handler(k);
      AfterKinds(doneK, RunKinds(s, fd, events, j, effects)) ==
        if Has(events, k) && slot.Some? then
          var inv := Invocation(fd, k, slot.value);
          AfterKinds(doneK + [inv], RunKinds(RemoveAll(s, effects(inv)), fd, events, j + 1, effects))
        else AfterKinds(doneK, RunKinds(s, fd, events, j + 1, effects))
  {
  }

  /** The walk aborts on entry i: the whole walk ends in the state reached,
   *  with the callbacks invoked so far. */
  lemma AbortedEntry(target: BatchRun, done: seq<Invocation>, si: State, cur: State,
                     batch: seq<EpollEvent>, i: nat, effects: Invocation -> seq<int>)
    requires i < |batch| && target == AfterBatch(done, RunBatch(si, batch, i, effects))
    requires var r := RunKinds(si, batch[i].fd, batch[i].events, 0, effects); r.aborted && r.state == cur
    ensures target.state == cur
    ensures target.calls == done + RunKinds(si, batch[i].fd, batch[i].events, 0, effects).calls
  {
  }

  /** The walk completes entry i: what is left of the walk is the walk from
   *  entry i + 1 on the state after the entry's callbacks and its hangup
   *  removal. */
  lemma CompletedEntry(target: BatchRun, done: seq<Invocation>, si: State, afterKinds: State, cur: State,
                       batch: seq<EpollEvent>, i: nat, effects: Invocation -> seq<int>)
    requires i < |batch| && target == AfterBatch(done, RunBatch(si, batch, i, effects))
    requires var r := RunKinds(si, batch[i].fd, batch[i].events, 0, effects); !r.aborted && r.state == afterKinds
    requires cur == if IsHangup(batch[i].events) then Remove(afterKinds, batch[i].fd) else afterKinds
    ensures target == AfterBatch(done + RunKinds(si, batch[i].fd, batch[i].events, 0, effects).calls,
                                 RunBatch(cur, batch, i + 1, effects))
  {
    var r := RunKinds(si, batch[i].fd, batch[i].events, 0, effects);
    var rest := RunBatch(cur, batch, i + 1, effects);
    assert RunBatch(si, batch, i, effects) == AfterBatch(r.calls, rest);
    AppendTwice(done, r.calls, rest.calls);
  }

  lemma AppendTwice(a: seq<Invocation>, b: seq<Invocation>, c: seq<Invocation>)
    ensures (a + b) + c == a + (b + c)
  {
  }

  /** Past the last entry the walk has nothing left to do. */
  lemma EndOfBatch(target: BatchRun, done: seq<Invocation>, cur: State, batch: seq<EpollEvent>, effects: Invocation -> seq<int>)
    requires target == AfterBatch(done, RunBatch(cur, batch, |batch|, effects))
    ensures target.state == cur && target.calls == done
  {
  }

  /** Epoll(isEdgeTriggered): epoll_create1 returning -1 is the constructor's
   *  runtime_error; otherwise an empty multiplexer on that descriptor. */
  method Create(isEdgeTriggered: bool, epollCreateResult: int) returns (r: Result<Epoll, EpollError>)
    ensures r.Failure? <==> epollCreateResult == -1
    ensures r.Failure? ==> r.error == CreateFailed
    ensures r.Success? ==>
      && fresh(r.value) && r.value.Valid()
      && r.value.epollFd == epollCreateResult && r.value.isEdgeTriggered == isEdgeTriggered
      && r.value.monitoredFds == map[] && r.value.interest == map[] && r.value.ctlLog == []
  {
    if epollCreateResult == -1 {
      return Failure(CreateFailed);
    }
    var ep := new Epoll(isEdgeTriggered, epollCreateResult);
    return Success(ep);
  }
}
