/** The event masks of wepoll: EPOLL masks as the user gives them, AFD masks as the kernel polls them. */
module WepollEvents {

  type Mask = bv32

  const EPOLLIN: Mask := 0x0001
  const EPOLLPRI: Mask := 0x0002
  const EPOLLOUT: Mask := 0x0004
  const EPOLLERR: Mask := 0x0008
  const EPOLLHUP: Mask := 0x0010
  const EPOLLRDNORM: Mask := 0x0040
  const EPOLLRDBAND: Mask := 0x0080
  const EPOLLWRNORM: Mask := 0x0100
  const EPOLLWRBAND: Mask := 0x0200
  const EPOLLMSG: Mask := 0x0400
  const EPOLLRDHUP: Mask := 0x2000
  const EPOLLONESHOT: Mask := 0x8000_0000

  const KNOWN_EPOLL_EVENTS: Mask :=
    EPOLLIN | EPOLLPRI | EPOLLOUT | EPOLLERR | EPOLLHUP | EPOLLRDNORM
    | EPOLLRDBAND | EPOLLWRNORM | EPOLLWRBAND | EPOLLMSG | EPOLLRDHUP

  const AFD_POLL_RECEIVE: Mask := 0x0001
  const AFD_POLL_RECEIVE_EXPEDITED: Mask := 0x0002
  const AFD_POLL_SEND: Mask := 0x0004
  const AFD_POLL_DISCONNECT: Mask := 0x0008
  const AFD_POLL_ABORT: Mask := 0x0010
  const AFD_POLL_LOCAL_CLOSE: Mask := 0x0020
  const AFD_POLL_ACCEPT: Mask := 0x0080
  const AFD_POLL_CONNECT_FAIL: Mask := 0x0100

  function AfdBits(epoll: Mask, any: Mask, afd: Mask): Mask {
    if epoll & any != 0 then afd else 0
  }

  function EpollToAfd(epoll: Mask): Mask {
    AFD_POLL_LOCAL_CLOSE
    | AfdBits(epoll, EPOLLIN | EPOLLRDNORM, AFD_POLL_RECEIVE | AFD_POLL_ACCEPT)
    | AfdBits(epoll, EPOLLPRI | EPOLLRDBAND, AFD_POLL_RECEIVE_EXPEDITED)
    | AfdBits(epoll, EPOLLOUT | EPOLLWRNORM | EPOLLWRBAND, AFD_POLL_SEND)
    | AfdBits(epoll, EPOLLIN | EPOLLRDNORM | EPOLLRDHUP, AFD_POLL_DISCONNECT)
    | AfdBits(epoll, EPOLLHUP, AFD_POLL_ABORT)
    | AfdBits(epoll, EPOLLERR, AFD_POLL_CONNECT_FAIL)
  }

  function AfdToEpoll(afd: Mask): Mask {
    AfdBits(afd, AFD_POLL_RECEIVE | AFD_POLL_ACCEPT, EPOLLIN | EPOLLRDNORM)
    | AfdBits(afd, AFD_POLL_RECEIVE_EXPEDITED, EPOLLPRI | EPOLLRDBAND)
    | AfdBits(afd, AFD_POLL_SEND, EPOLLOUT | EPOLLWRNORM | EPOLLWRBAND)
    | AfdBits(afd, AFD_POLL_DISCONNECT, EPOLLIN | EPOLLRDNORM | EPOLLRDHUP)
    | AfdBits(afd, AFD_POLL_ABORT, EPOLLHUP)
    | AfdBits(afd, AFD_POLL_CONNECT_FAIL, EPOLLIN | EPOLLOUT | EPOLLERR | EPOLLRDNORM | EPOLLWRNORM | EPOLLRDHUP)
  }

  // What the kernel is asked to watch for each event, and what each of its conditions is reported as.
  lemma MaskTable(epoll: Mask, afd: Mask)
    ensures EpollToAfd(epoll) & 0x20 != 0 && EpollToAfd(epoll) & !0x1BF == 0
    ensures EpollToAfd(epoll) & 0x81 == if epoll & 0x0041 != 0 then 0x81 else 0
    ensures EpollToAfd(epoll) & 0x02 == if epoll & 0x0082 != 0 then 0x02 else 0
    ensures EpollToAfd(epoll) & 0x04 == if epoll & 0x0304 != 0 then 0x04 else 0
    ensures EpollToAfd(epoll) & 0x08 == if epoll & 0x2041 != 0 then 0x08 else 0
    ensures EpollToAfd(epoll) & 0x10 == if epoll & 0x0010 != 0 then 0x10 else 0
    ensures EpollToAfd(epoll) & 0x100 == if epoll & 0x0008 != 0 then 0x100 else 0
    ensures AfdToEpoll(afd) & 0x0041 == if afd & 0x189 != 0 then 0x0041 else 0
    ensures AfdToEpoll(afd) & 0x0082 == if afd & 0x02 != 0 then 0x0082 else 0
    ensures AfdToEpoll(afd) & 0x0104 == if afd & 0x104 != 0 then 0x0104 else 0
    ensures AfdToEpoll(afd) & 0x0200 == if afd & 0x04 != 0 then 0x0200 else 0
    ensures AfdToEpoll(afd) & 0x2000 == if afd & 0x108 != 0 then 0x2000 else 0
    ensures AfdToEpoll(afd) & 0x0010 == if afd & 0x10 != 0 then 0x0010 else 0
    ensures AfdToEpoll(afd) & 0x0008 == if afd & 0x100 != 0 then 0x0008 else 0
    ensures AfdToEpoll(afd) & !0x23DF == 0
  {
    assert EpollToAfd(epoll) & 0x81 == if epoll & 0x0041 != 0 then 0x81 else 0;
  }

  // Every event the user wants is among those a pending poll was started for.
  predicate Covers(wanted: Mask, pending: Mask) {
    wanted & KNOWN_EPOLL_EVENTS & !pending == 0
  }

  predicate Within(small: Mask, big: Mask) { small & !big == 0 }

  // A poll that covers the wanted events watches every kernel condition behind them.
  lemma CoveredIsWatched(wanted: Mask, pending: Mask)
    requires Covers(wanted, pending)
    ensures Within(EpollToAfd(wanted), EpollToAfd(pending))
  {
  }

  // A kernel condition that was polled for the wanted events is always reported to the user.
  lemma PolledIsReported(wanted: Mask, afd: Mask)
    requires afd != 0 && afd & AFD_POLL_LOCAL_CLOSE == 0 && Within(afd, EpollToAfd(wanted))
    ensures AfdToEpoll(afd) & wanted != 0
  {
  }

  // With the two events that sock_set_event always adds, the two translations agree on every
  // condition: the kernel is asked to watch it exactly when reporting it would tell the user something.
  lemma WatchedIffReported(wanted: Mask, afd: Mask)
    requires wanted & EPOLLERR != 0 && wanted & EPOLLHUP != 0 && afd & AFD_POLL_LOCAL_CLOSE == 0
    ensures afd & EpollToAfd(wanted) != 0 <==> AfdToEpoll(afd) & wanted != 0
  {
  }
}
