/** Event masks of file descriptors, as the fd table and the poll backends share them. */
module FdInterest {
  const EV_READ: bv8 := 0x01
  const EV_WRITE: bv8 := 0x02
  /** Set in a watcher's mask by `ev_io_set`: the fd may be a new file. */
  const EV__IOFDSET: bv8 := 0x80
  const EV_ANFD_REIFY: bv8 := 0x01

  /** The mask of an fd, nothing beyond the table. */
  function MaskOf(events: seq<bv8>, fd: nat): bv8 {
    if fd < |events| then events[fd] else 0
  }
}
