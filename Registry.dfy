/** The multiplexer's state as a value, and the pure definitions its table
 *  operations are proved against: the interest mask pushed to the kernel, the
 *  ADD-or-MOD push, and descriptor removal. */
module Registry {
  import opened Wrappers
  import opened EventTypes
  import opened EpollErrors
  import opened Descriptors

  datatype CtlOp = Add | Mod | Del

  /** One epoll_ctl(op, fd, events) call. */
  datatype CtlCall = CtlCall(op: CtlOp, fd: int, events: Mask)

  /** fds: the table _monitoredFds. interest: the kernel's interest list of this
   *  epoll instance, descriptor to registered event word. log: every epoll_ctl
   *  call issued, in order. */
  datatype State = State(fds: map<int, MonitoredDescriptor>, interest: map<int, Mask>, log: seq<CtlCall>)

  /** Every entry is keyed by its own descriptor, and the kernel knows exactly
   *  the entries whose isInitialized flag is set. */
  ghost predicate Consistent(s: State) {
    (forall fd :: fd in s.fds ==> s.fds[fd].monitoredFd == fd) &&
    (forall fd :: fd in s.interest <==> fd in s.fds && s.fds[fd].isInitialized)
  }

  /** The table of t is a part of the table of s: entries may have gone, none
   *  was added or changed. */
  predicate Within(t: State, s: State) {
    forall fd :: fd in t.fds ==> fd in s.fds && t.fds[fd] == s.fds[fd]
  }

  // ---------------------------------------------------------------------------
  // The interest mask

  /** OR of the bits of the first n kinds of AllEventTypes whose slot is set. */
  function HandledMask(md: MonitoredDescriptor, n: nat): (m: Mask)
    requires n <= |AllEventTypes|
    ensures forall k :: Has(m, k) ==> md.Handler(k).Some?
    ensures !m.edgeTriggered
  {
    if n == 0 then NONE
    else
      var evt := Bit(AllEventTypes[n - 1]);
      if md.HasHandler(evt) then Or(HandledMask(md, n - 1), evt) else HandledMask(md, n - 1)
  }

  /** The word _reloadEventHandlers pushes for an entry: every kind that has a
   *  callback, plus EPOLLET in edge-triggered mode. */
  function InterestMask(md: MonitoredDescriptor, isEdgeTriggered: bool): (m: Mask)
    ensures forall k :: Has(m, k) ==> md.Handler(k).Some?
    ensures m.edgeTriggered == isEdgeTriggered
  {
    var handled := HandledMask(md, |AllEventTypes|);
    if isEdgeTriggered then Or(handled, EPOLLET) else handled
  }

  lemma {:induction false} HandledMaskKinds(md: MonitoredDescriptor, n: nat)
    requires n <= |AllEventTypes|
    ensures forall k :: Has(HandledMask(md, n), k) <==> Index(k) < n && md.Handler(k).Some?
    ensures !HandledMask(md, n).edgeTriggered
  {
    if n > 0 {
      HandledMaskKinds(md, n - 1);
      var k := AllEventTypes[n - 1];
      assert Index(k) == n - 1;
      forall k2 ensures Index(k2) == n - 1 <==> k2 == k {
        AllEventTypesExact();
      }
    }
  }

  /** The pushed word carries exactly the kinds whose slot is set (the whole
   *  current slot set, not only the kinds of the latest call), and EPOLLET
   *  exactly in edge-triggered mode. */
  lemma InterestMaskExact(md: MonitoredDescriptor, isEdgeTriggered: bool)
    ensures forall k :: Has(InterestMask(md, isEdgeTriggered), k) <==> md.Handler(k).Some?
    ensures InterestMask(md, isEdgeTriggered).edgeTriggered == isEdgeTriggered
  {
    HandledMaskKinds(md, |AllEventTypes|);
  }

  // ---------------------------------------------------------------------------
  // Pushing the interest mask to the kernel

  datatype Pushed = Pushed(state: State, outcome: Outcome<EpollError>)

  /** _reloadEventHandlers after the slots of the entry became those of md:
   *  EPOLL_CTL_MOD if the entry is initialized, otherwise EPOLL_CTL_ADD, which
   *  on success sets isInitialized. `accepted` is whether the kernel call
   *  succeeds; a failure is thrown after the slots were already updated. */
  function Reload(s: State, md: MonitoredDescriptor, isEdgeTriggered: bool, accepted: bool): (p: Pushed)
    ensures p.state.fds.Keys == s.fds.Keys + {md.monitoredFd}
    ensures |p.state.log| == |s.log| + 1 && p.state.log[..|s.log|] == s.log
    ensures p.state.log[|s.log|].fd == md.monitoredFd && p.state.log[|s.log|].op != Del
    ensures p.outcome == Pass <==> accepted
  {
    var fd := md.monitoredFd;
    var events := InterestMask(md, isEdgeTriggered);
    if md.isInitialized then
      var log := s.log + [CtlCall(Mod, fd, events)];
      if accepted then Pushed(State(s.fds[fd := md], s.interest[fd := events], log), Pass)
      else Pushed(State(s.fds[fd := md], s.interest, log), Fail(ModifyFailed))
    else
      var log := s.log + [CtlCall(Add, fd, events)];
      if accepted then Pushed(State(s.fds[fd := md.(isInitialized := true)], s.interest[fd := events], log), Pass)
      else Pushed(State(s.fds[fd := md], s.interest, log), Fail(AddFailed))
  }

  /** A push issues ADD exactly when the kernel does not know the descriptor yet
   *  and MOD otherwise, so ADD is issued once per entry lifetime; MOD replaces
   *  the registered word with the full current one; isInitialized never goes
   *  back to false; no other entry changes. */
  lemma ReloadContract(s: State, md: MonitoredDescriptor, isEdgeTriggered: bool, accepted: bool)
    requires Consistent(s)
    requires md.monitoredFd in s.fds && s.fds[md.monitoredFd].isInitialized == md.isInitialized
    ensures var p := Reload(s, md, isEdgeTriggered, accepted);
      var fd := md.monitoredFd;
      && Consistent(p.state)
      && p.state.log == s.log + [CtlCall(if fd in s.interest then Mod else Add, fd, InterestMask(md, isEdgeTriggered))]
      && p.state.fds == s.fds[fd := md.(isInitialized := md.isInitialized || accepted)]
      && (p.outcome == Pass <==> accepted)
      && (!accepted ==> p.outcome == Fail(if md.isInitialized then ModifyFailed else AddFailed))
      && p.state.interest == if accepted then s.interest[fd := InterestMask(md, isEdgeTriggered)] else s.interest
  {
  }

  /** Once a push of an entry has succeeded, the next push of that entry, after
   *  any rewrite of its slots by addEventHandler or removeEventHandler, is a
   *  MOD carrying the full current word: ADD is issued for a descriptor at
   *  most once while it stays in the table. */
  lemma PushedEntryIsModified(s: State, md: MonitoredDescriptor, isEdgeTriggered: bool, mask: Mask, handler: Slot, accepted: bool)
    requires Consistent(s)
    requires md.monitoredFd in s.fds && s.fds[md.monitoredFd].isInitialized == md.isInitialized
    ensures var p := Reload(s, md, isEdgeTriggered, true);
      var fd := md.monitoredFd;
      && fd in p.state.fds && p.state.fds[fd].isInitialized
      && var next := WithHandlers(p.state.fds[fd], mask, handler);
      && Consistent(p.state)
      && Reload(p.state, next, isEdgeTriggered, accepted).state.log
           == p.state.log + [CtlCall(Mod, fd, InterestMask(next, isEdgeTriggered))]
  {
    var fd := md.monitoredFd;
    ReloadContract(s, md, isEdgeTriggered, true);
    var p := Reload(s, md, isEdgeTriggered, true);
    var next := WithHandlers(p.state.fds[fd], mask, handler);
    assert next.monitoredFd == fd && next.isInitialized;
    ReloadContract(p.state, next, isEdgeTriggered, accepted);
  }

  /** The state once the slots of an entry are rewritten in place, before the
   *  push: writing the entry first does not change what the push does. */
  lemma ReplaceEntry(s: State, md: MonitoredDescriptor, isEdgeTriggered: bool, accepted: bool)
    requires Consistent(s)
    requires md.monitoredFd in s.fds && s.fds[md.monitoredFd].isInitialized == md.isInitialized
    ensures var t := State(s.fds[md.monitoredFd := md], s.interest, s.log);
      Consistent(t) && Reload(t, md, isEdgeTriggered, accepted) == Reload(s, md, isEdgeTriggered, accepted)
  {
    var fd := md.monitoredFd;
    var t := State(s.fds[fd := md], s.interest, s.log);
    assert t.fds[fd := md] == s.fds[fd := md];
    assert t.fds[fd := md.(isInitialized := true)] == s.fds[fd := md.(isInitialized := true)];
  }

  // ---------------------------------------------------------------------------
  // Removing descriptors

  /** removeDescriptor: nothing for an unknown descriptor; otherwise an
   *  EPOLL_CTL_DEL whose failure is ignored, and the entry is erased. */
  function Remove(s: State, fd: int): (t: State)
    ensures t.fds.Keys == s.fds.Keys - {fd}
    ensures |s.log| <= |t.log| <= |s.log| + 1 && t.log[..|s.log|] == s.log
  {
    if fd in s.fds then State(s.fds - {fd}, s.interest - {fd}, s.log + [CtlCall(Del, fd, NONE)]) else s
  }

  /** removeDescriptor on each descriptor of fds, in order. */
  function RemoveAll(s: State, fds: seq<int>): State
    decreases |fds|
  {
    if fds == [] then s else RemoveAll(Remove(s, fds[0]), fds[1..])
  }

  lemma RemoveContract(s: State, fd: int)
    ensures Remove(s, fd).fds == s.fds - {fd}
    ensures fd !in s.fds ==> Remove(s, fd) == s
    ensures Consistent(s) ==> Consistent(Remove(s, fd))
    ensures Within(Remove(s, fd), s)
  {
  }

  lemma {:induction false} RemoveAllContract(s: State, fds: seq<int>)
    ensures RemoveAll(s, fds).fds == s.fds - (set g | g in fds)
    ensures Consistent(s) ==> Consistent(RemoveAll(s, fds))
    ensures Within(RemoveAll(s, fds), s)
    decreases |fds|
  {
    if fds != [] {
      RemoveContract(s, fds[0]);
      RemoveAllContract(Remove(s, fds[0]), fds[1..]);
      assert (set g | g in fds) == {fds[0]} + (set g | g in fds[1..]);
    }
  }
}
