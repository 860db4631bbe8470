/** Option, Result and Outcome: an empty callback slot, and the exceptions the
 *  multiplexer throws, become values. */
module Wrappers {

  datatype Option<+T> = None | Some(value: T)

  datatype Result<+R, +E> = Success(value: R) | Failure(error: E)

  /** Result of an operation that returns nothing (a `void` member that may throw). */
  datatype Outcome<+E> = Pass | Fail(error: E)
}

/** The std::runtime_error / std::out_of_range exceptions of the multiplexer,
 *  one constructor per throw site. */
module EpollErrors {

  datatype EpollError =
    | CreateFailed        // epoll_create1 returned -1
    | NonBlockingFailed   // fcntl(O_NONBLOCK) failed in edge-triggered mode
    | NotAdded            // addEventHandler on a descriptor never passed to addDescriptor
    | OutOfRange          // removeEventHandler: unordered_map::at on an absent key
    | AddFailed           // epoll_ctl(EPOLL_CTL_ADD) failed
    | ModifyFailed        // epoll_ctl(EPOLL_CTL_MOD) failed
    | InvalidEventType    // getHandler of a value that is not one single event kind
}
