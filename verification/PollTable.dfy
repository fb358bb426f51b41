/** The interest set of the poll backend: an array of pollfds and an index from fd to slot. */
module PollTable {
  import opened FdInterest

  const POLLIN: bv8 := 0x01
  const POLLOUT: bv8 := 0x04

  datatype PollFd = PollFd(fd: nat, events: bv8)

  /** The poll flags for an event mask. */
  function PollEvents(mask: bv8): bv8 {
    (if mask & EV_READ != 0 then POLLIN else 0) | (if mask & EV_WRITE != 0 then POLLOUT else 0)
  }

  /** `pollidxs` and `polls` are inverse to each other. */
  ghost predicate Inverse(polls: seq<PollFd>, pollidxs: seq<int>) {
    && (forall i: nat | i < |polls| :: polls[i].fd < |pollidxs| && pollidxs[polls[i].fd] == i)
    && (forall f: nat | f < |pollidxs| :: pollidxs[f] != -1 ==> 0 <= pollidxs[f] < |polls| && polls[pollidxs[f]].fd == f)
  }

  /** What the tables register for `fd`: nothing, or the flags in its slot. */
  ghost function Registered(polls: seq<PollFd>, pollidxs: seq<int>, fd: nat): set<bv8> {
    if fd < |pollidxs| && 0 <= pollidxs[fd] < |polls| then {polls[pollidxs[fd]].events} else {}
  }

  /** What has to be registered for an event mask. */
  ghost function Wanted(mask: bv8): set<bv8> {
    if mask == 0 then {} else {PollEvents(mask)}
  }

  /** The tables hold exactly the fds whose mask is not zero, with their flags. */
  ghost predicate Represents(polls: seq<PollFd>, pollidxs: seq<int>, events: seq<bv8>) {
    && Inverse(polls, pollidxs)
    && (forall f: nat :: Registered(polls, pollidxs, f) == Wanted(MaskOf(events, f)))
  }

  /** Read as a set of pollfds: one for every fd with a mask, none twice, each with that mask's flags. */
  lemma TableIsInterest(polls: seq<PollFd>, pollidxs: seq<int>, events: seq<bv8>)
    requires Represents(polls, pollidxs, events)
    ensures forall i: nat, j: nat | i < j < |polls| :: polls[i].fd != polls[j].fd
    ensures forall i: nat | i < |polls| :: polls[i].fd < |events| && polls[i].events == PollEvents(events[polls[i].fd])
    ensures forall f: nat | f < |events| :: events[f] != 0 <==> exists i: nat :: i < |polls| && polls[i].fd == f
  {
    forall i: nat | i < |polls|
      ensures MaskOf(events, polls[i].fd) != 0 && polls[i].events == PollEvents(MaskOf(events, polls[i].fd))
    {
      assert polls[i].events in Registered(polls, pollidxs, polls[i].fd);
    }
    forall f: nat | f < |events| && events[f] != 0
      ensures exists i: nat :: i < |polls| && polls[i].fd == f
    {
      assert PollEvents(events[f]) in Registered(polls, pollidxs, f);
      assert polls[pollidxs[f]].fd == f;
    }
  }

  class Poll {
    /** `polls` up to `pollcnt`. */
    var polls: seq<PollFd>
    /** The slot of each fd, -1 if it has none. */
    var pollidxs: seq<int>

    constructor ()
      ensures Shows([])
    {
      polls, pollidxs := [], [];
    }

    ghost predicate Shows(events: seq<bv8>)
      reads this
    {
      Represents(polls, pollidxs, events)
    }

    /** The index array reaches `fd`, new entries saying that there is no slot. */
    method NeedIndex(fd: nat)
      requires Inverse(polls, pollidxs)
      modifies this`pollidxs
      ensures Inverse(polls, pollidxs) && fd < |pollidxs|
      ensures forall f: nat :: Registered(polls, pollidxs, f) == old(Registered(polls, pollidxs, f))
    {
      if fd >= |pollidxs| {
        pollidxs := pollidxs + seq(fd + 1 - |pollidxs|, _ => -1);
      }
    }

    method NeedSlot(fd: nat) returns (idx: nat)
      requires Inverse(polls, pollidxs) && fd < |pollidxs|
      modifies this
      ensures Inverse(polls, pollidxs) && fd < |pollidxs| && idx == pollidxs[fd]
      ensures idx < |polls| && polls[idx].fd == fd
      ensures forall f: nat | f != fd :: Registered(polls, pollidxs, f) == old(Registered(polls, pollidxs, f))
    {
      if pollidxs[fd] < 0 {
        pollidxs := pollidxs[fd := |polls|];
        polls := polls + [PollFd(fd, 0)];
      }
      idx := pollidxs[fd];
    }

    method SetEvents(fd: nat, idx: nat, flags: bv8)
      requires Inverse(polls, pollidxs) && fd < |pollidxs| && idx == pollidxs[fd] && idx < |polls|
      modifies this`polls
      ensures Inverse(polls, pollidxs)
      ensures Registered(polls, pollidxs, fd) == {flags}
      ensures forall f: nat | f != fd :: Registered(polls, pollidxs, f) == old(Registered(polls, pollidxs, f))
    {
      polls := polls[idx := polls[idx].(events := flags)];
    }

    /** The last slot moves into the freed one. */
    method DropSlot(fd: nat, idx: nat)
      requires Inverse(polls, pollidxs) && fd < |pollidxs| && idx == pollidxs[fd] && idx < |polls|
      modifies this
      ensures Inverse(polls, pollidxs)
      ensures Registered(polls, pollidxs, fd) == {}
      ensures forall f: nat | f != fd :: Registered(polls, pollidxs, f) == old(Registered(polls, pollidxs, f))
    {
      pollidxs := pollidxs[fd := -1];
      var last := |polls| - 1;
      if idx < last {
        polls := polls[idx := polls[last]];
        pollidxs := pollidxs[polls[idx].fd := idx];
      }
      polls := polls[..last];
    }

    /** `poll_modify`. */
    method Modify(fd: nat, oev: bv8, nev: bv8, ghost events: seq<bv8>)
      requires Shows(events) && fd < |events| && events[fd] == oev
      modifies this
      ensures Shows(events[fd := nev])
    {
      hide PollEvents, Inverse;
      if oev == nev {
        assert events[fd := nev] == events;
        return;
      }
      NeedIndex(fd);
      var idx := NeedSlot(fd);
      if nev != 0 {
        SetEvents(fd, idx, PollEvents(nev));
      } else {
        DropSlot(fd, idx);
      }
      forall f: nat
        ensures Registered(polls, pollidxs, f) == Wanted(MaskOf(events[fd := nev], f))
      {
        assert f != fd ==> Registered(polls, pollidxs, f) == old(Registered(polls, pollidxs, f));
      }
    }
  }
}
