/** MonitoredDescriptor: one entry of the multiplexer's table, with its
 *  "already registered with the kernel" flag and one callback slot per kind. */
module Descriptors {
  import opened Wrappers
  import opened EventTypes
  import opened EpollErrors

  /** Opaque token standing for a std::function<void(int)> callback. */
  type HandlerId = nat

  /** A std::function slot: None is nullptr. */
  type Slot = Option<HandlerId>

  /** The entry is stored by value in the table, so it is a datatype here; the
   *  multiplexer replaces it in its map wherever the source assigns through a
   *  reference to it. */
  datatype MonitoredDescriptor = MonitoredDescriptor(
    monitoredFd: int,
    isInitialized: bool,
    inHandler: Slot,
    outHandler: Slot,
    rdhupHandler: Slot,
    priHandler: Slot,
    errHandler: Slot,
    hupHandler: Slot)
  {
    /** The slot that holds kind k's callback. */
    function Handler(k: Kind): Slot {
      match k
      case IN => inHandler
      case OUT => outHandler
      case RDHUP => rdhupHandler
      case PRI => priHandler
      case ERR => errHandler
      case HUP => hupHandler
    }

    /** hasHandler: true only for a word naming exactly one kind whose slot is
     *  set; any other word (0, an OR of kinds, a word with EPOLLET) gives false. */
    function HasHandler(eventType: Mask): (r: bool)
      ensures forall k :: eventType == Bit(k) ==> (r <==> Handler(k).Some?)
      ensures (forall k :: eventType != Bit(k)) ==> !r
    {
      if eventType == Bit(IN) then inHandler.Some?
      else if eventType == Bit(OUT) then outHandler.Some?
      else if eventType == Bit(RDHUP) then rdhupHandler.Some?
      else if eventType == Bit(PRI) then priHandler.Some?
      else if eventType == Bit(ERR) then errHandler.Some?
      else if eventType == Bit(HUP) then hupHandler.Some?
      else false
    }

    /** setHandler: stores the callback in the slot of the one kind the word
     *  names; a word that names no single kind changes nothing. */
    function SetHandler(eventType: Mask, handler: Slot): (md: MonitoredDescriptor)
      ensures md.monitoredFd == monitoredFd && md.isInitialized == isInitialized
      ensures forall k :: md.Handler(k) == if eventType == Bit(k) then handler else Handler(k)
    {
      if eventType == Bit(IN) then this.(inHandler := handler)
      else if eventType == Bit(OUT) then this.(outHandler := handler)
      else if eventType == Bit(RDHUP) then this.(rdhupHandler := handler)
      else if eventType == Bit(PRI) then this.(priHandler := handler)
      else if eventType == Bit(ERR) then this.(errHandler := handler)
      else if eventType == Bit(HUP) then this.(hupHandler := handler)
      else this
    }

    /** getHandler: the slot of the one kind the word names; any other word is
     *  the "passed eventType is invalid" error. */
    function GetHandler(eventType: Mask): (r: Result<Slot, EpollError>)
      ensures forall k :: eventType == Bit(k) ==> r == Success(Handler(k))
      ensures (forall k :: eventType != Bit(k)) ==> r == Failure(InvalidEventType)
    {
      if eventType == Bit(IN) then Success(inHandler)
      else if eventType == Bit(OUT) then Success(outHandler)
      else if eventType == Bit(RDHUP) then Success(rdhupHandler)
      else if eventType == Bit(PRI) then Success(priHandler)
      else if eventType == Bit(ERR) then Success(errHandler)
      else if eventType == Bit(HUP) then Success(hupHandler)
      else Failure(InvalidEventType)
    }
  }

  /** MonitoredDescriptor(fd): not yet registered with the kernel, every slot empty. */
  function NewMonitoredDescriptor(fd: int): (md: MonitoredDescriptor)
    ensures md.monitoredFd == fd && !md.isInitialized
    ensures forall k :: md.Handler(k) == None
  {
    MonitoredDescriptor(fd, false, None, None, None, None, None, None)
  }

  /** The entry after every kind of `mask` has had its slot set to `handler`,
   *  the other slots untouched: what addEventHandler's loop computes, and,
   *  with handler None, what removeEventHandler's loop computes. */
  function WithHandlers(md: MonitoredDescriptor, mask: Mask, handler: Slot): (m: MonitoredDescriptor)
    ensures m.monitoredFd == md.monitoredFd && m.isInitialized == md.isInitialized
    ensures forall k :: m.Handler(k) == if Has(mask, k) then handler else md.Handler(k)
  {
    md.(inHandler := if Has(mask, IN) then handler else md.inHandler,
        outHandler := if Has(mask, OUT) then handler else md.outHandler,
        rdhupHandler := if Has(mask, RDHUP) then handler else md.rdhupHandler,
        priHandler := if Has(mask, PRI) then handler else md.priHandler,
        errHandler := if Has(mask, ERR) then handler else md.errHandler,
        hupHandler := if Has(mask, HUP) then handler else md.hupHandler)
  }

  /** Two entries with the same descriptor, flag and slots are the same entry. */
  lemma SlotsDetermine(a: MonitoredDescriptor, b: MonitoredDescriptor)
    requires a.monitoredFd == b.monitoredFd && a.isInitialized == b.isInitialized
    requires forall k :: a.Handler(k) == b.Handler(k)
    ensures a == b
  {
    assert a.Handler(IN) == b.Handler(IN);
    assert a.Handler(OUT) == b.Handler(OUT);
    assert a.Handler(RDHUP) == b.Handler(RDHUP);
    assert a.Handler(PRI) == b.Handler(PRI);
    assert a.Handler(ERR) == b.Handler(ERR);
    assert a.Handler(HUP) == b.Handler(HUP);
  }

  /** The dispatch loop's lookups `hasHandler(events & evt)` and
   *  `getHandler(events & evt)`: a callback is found exactly when the word
   *  carries the kind and its slot is set, and it is that slot's callback. */
  lemma SelectedSlot(md: MonitoredDescriptor, events: Mask, k: Kind)
    ensures md.HasHandler(And(events, Bit(k))) <==> Has(events, k) && md.Handler(k).Some?
    ensures Has(events, k) ==> md.GetHandler(And(events, Bit(k))) == Success(md.Handler(k))
  {
    MaskedBit(events, k);
    if !Has(events, k) {
      forall k2 ensures NONE != Bit(k2) {
        assert k2 in Bit(k2).kinds;
      }
    }
  }
}
