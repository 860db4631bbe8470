/** The six epoll(7) event kinds the multiplexer handles, the event words built
 *  from them, and the fixed order `allEventTypes` in which every per-kind loop
 *  visits them. */
module EventTypes {

  /** One readiness kind; its bit in <sys/epoll.h> is given beside it. */
  datatype Kind =
    | IN     // EPOLLIN    0x001
    | OUT    // EPOLLOUT   0x004
    | RDHUP  // EPOLLRDHUP 0x2000
    | PRI    // EPOLLPRI   0x002
    | ERR    // EPOLLERR   0x008
    | HUP    // EPOLLHUP   0x010

  /** A uint32 event word, seen through the bits the multiplexer looks at: the
   *  set of kind bits that are 1, and whether the EPOLLET bit (1u << 31) is 1.
   *  `|` is union and `&` intersection of these bits. */
  datatype Mask = Mask(kinds: set<Kind>, edgeTriggered: bool)

  /** The word 0. */
  const NONE: Mask := Mask({}, false)

  /** EPOLLET alone. */
  const EPOLLET: Mask := Mask({}, true)

  /** EPOLLRDHUP | EPOLLHUP: the close-class kinds. */
  const HANGUP: Mask := Mask({RDHUP, HUP}, false)

  /** The word with exactly one kind bit: EPOLLIN, EPOLLOUT, ... */
  function Bit(k: Kind): Mask {
    Mask({k}, false)
  }

  /** a | b */
  function Or(a: Mask, b: Mask): Mask {
    Mask(a.kinds + b.kinds, a.edgeTriggered || b.edgeTriggered)
  }

  /** a & b */
  function And(a: Mask, b: Mask): Mask {
    Mask(a.kinds * b.kinds, a.edgeTriggered && b.edgeTriggered)
  }

  /** Is kind k's bit set in the word? */
  predicate Has(mask: Mask, k: Kind) {
    k in mask.kinds
  }

  /** `events & (EPOLLRDHUP | EPOLLHUP)` is non-zero. */
  predicate IsHangup(events: Mask) {
    And(events, HANGUP) != NONE
  }

  /** allEventTypes: IN, OUT, RDHUP, PRI, ERR, HUP, in this order. */
  const AllEventTypes: seq<Kind> := [IN, OUT, RDHUP, PRI, ERR, HUP]

  /** Position of a kind in AllEventTypes. */
  function Index(k: Kind): (i: nat)
    ensures i < |AllEventTypes| && AllEventTypes[i] == k
  {
    match k
    case IN => 0
    case OUT => 1
    case RDHUP => 2
    case PRI => 3
    case ERR => 4
    case HUP => 5
  }

  /** AllEventTypes lists exactly the six kinds, each once. */
  lemma AllEventTypesExact()
    ensures |AllEventTypes| == 6
    ensures forall i, j :: 0 <= i < j < |AllEventTypes| ==> AllEventTypes[i] != AllEventTypes[j]
    ensures forall k: Kind :: k in AllEventTypes
    ensures forall i :: 0 <= i < |AllEventTypes| ==> Index(AllEventTypes[i]) == i
  {
    forall k: Kind ensures k in AllEventTypes {
      assert AllEventTypes[Index(k)] == k;
    }
  }

  /** Different kinds have different bits. */
  lemma BitInjective(k1: Kind, k2: Kind)
    ensures Bit(k1) == Bit(k2) <==> k1 == k2
  {
    assert k1 in Bit(k1).kinds;
  }

  /** `events & evt` is either `evt` (when the word carries that kind) or 0. */
  lemma MaskedBit(events: Mask, k: Kind)
    ensures And(events, Bit(k)) == if Has(events, k) then Bit(k) else NONE
  {
    if Has(events, k) {
      assert events.kinds * {k} == {k};
    } else {
      assert events.kinds * {k} == {};
    }
  }

  /** A word is a hangup exactly when it carries RDHUP or HUP. */
  lemma HangupKinds(events: Mask)
    ensures IsHangup(events) <==> Has(events, RDHUP) || Has(events, HUP)
  {
    if Has(events, RDHUP) {
      assert RDHUP in And(events, HANGUP).kinds;
    } else if Has(events, HUP) {
      assert HUP in And(events, HANGUP).kinds;
    } else {
      assert events.kinds * HANGUP.kinds == {};
    }
  }
}
