/**
 * The fd table and its queue of pending changes: starting, stopping and killing I/O watchers,
 * and bringing the backend up to date.
 */
module FdReify {
  import opened FdInterest
  import opened Sequences
  import PollTable
  import SelectTable

  /** EV_ERROR | EV_READ | EV_WRITE. */
  const KILLED: bv32 := 0x8000_0003

  class IoWatcher {
    var fd: int
    var events: bv8
    var active: bool

    /** `ev_io_init`. */
    constructor (fd: int, events: bv8)
      ensures this.fd == fd && this.events == events | EV__IOFDSET && !active
    {
      this.fd, this.events, active := fd, events | EV__IOFDSET, false;
    }
  }

  datatype Anfd = Anfd(head: seq<IoWatcher>, events: bv8, reify: bv8)

  /** What is asked of the pending queues, in order. */
  datatype Call = Clear(w: IoWatcher) | Feed(w: IoWatcher, revents: bv32)

  /** `Refusing` stands for epoll, kqueue and port: it may find the fd unusable and kill it. */
  datatype Backend = ByPoll(poll: PollTable.Poll) | BySelect(select: SelectTable.Select) | Refusing

  /** All events any of the watchers waits for. */
  ghost function Interest(ws: seq<IoWatcher>): bv8
    reads ws`events
  {
    if ws == [] then 0 else Interest(ws[..|ws| - 1]) | ws[|ws| - 1].events
  }

  /** The interest has an event if and only if some watcher has it. */
  lemma {:induction false} InterestHas(ws: seq<IoWatcher>, mask: bv8)
    ensures Interest(ws) & mask != 0 <==> exists w :: w in ws && w.events & mask != 0
  {
    if ws != [] {
      var last := ws[|ws| - 1];
      InterestHas(ws[..|ws| - 1], mask);
      OrHas(Interest(ws[..|ws| - 1]), last.events, mask);
      assert ws == ws[..|ws| - 1] + [last];
    }
  }

  lemma OrHas(a: bv8, b: bv8, mask: bv8)
    ensures (a | b) & mask != 0 <==> a & mask != 0 || b & mask != 0
  {
  }

  function Remove(head: seq<IoWatcher>, elem: IoWatcher): seq<IoWatcher> {
    if head == [] then []
    else if head[0] == elem then head[1..]
    else [head[0]] + Remove(head[1..], elem)
  }

  lemma {:induction false} RemoveFacts(head: seq<IoWatcher>, elem: IoWatcher)
    requires Distinct(head)
    ensures Distinct(Remove(head, elem))
    ensures forall w | w in Remove(head, elem) :: w in head && w != elem
    ensures forall w | w in head && w != elem :: w in Remove(head, elem)
  {
    if head != [] {
      var tail := head[1..];
      assert head == [head[0]] + tail;
      assert head[0] !in tail && Distinct(tail);
      RemoveFacts(tail, elem);
      DistinctMore(head[0], Remove(tail, elem));
    }
  }

  lemma DistinctMore(w: IoWatcher, ws: seq<IoWatcher>)
    requires w !in ws && Distinct(ws)
    ensures Distinct([w] + ws)
  {
    var all := [w] + ws;
    forall i: nat, j: nat | i < j < |all|
      ensures all[i] != all[j]
    {
      assert all[j] == ws[j - 1];
      assert i > 0 ==> all[i] == ws[i - 1];
    }
  }

  lemma RemoveEnds(head: seq<IoWatcher>, elem: IoWatcher)
    ensures head[..0] + Remove(head[0..], elem) == Remove(head, elem)
    ensures head[..|head|] + Remove(head[|head|..], elem) == head
  {
    assert head[0..] == head;
  }

  lemma RemoveStep(head: seq<IoWatcher>, k: nat, elem: IoWatcher)
    requires k < |head|
    ensures head[..k] + Remove(head[k..], elem) ==
            if head[k] == elem then head[..k] + head[k + 1..] else head[..k + 1] + Remove(head[k + 1..], elem)
  {
    assert head[k..][1..] == head[k + 1..];
    assert head[..k + 1] == head[..k] + [head[k]];
  }

  /** `wlist_del`. */
  method WlistDel(head: seq<IoWatcher>, elem: IoWatcher) returns (rest: seq<IoWatcher>)
    ensures rest == Remove(head, elem)
  {
    hide Remove;
    RemoveEnds(head, elem);
    var k := 0;
    while k < |head|
      invariant k <= |head| && head[..k] + Remove(head[k..], elem) == Remove(head, elem)
    {
      RemoveStep(head, k, elem);
      if head[k] == elem {
        rest := head[..k] + head[k + 1..];
        return;
      }
      k := k + 1;
    }
    rest := head;
  }

  /** The events all watchers of an fd wait for. */
  method Collect(head: seq<IoWatcher>) returns (events: bv8)
    ensures events == Interest(head)
  {
    events := 0;
    for i := 0 to |head|
      invariant events == Interest(head[..i])
    {
      assert head[..i + 1][..i] == head[..i];
      events := events | head[i].events;
    }
    assert head[..|head|] == head;
  }

  /** What killing an fd with these watchers asks of the pending queues. */
  function KillCalls(ws: seq<IoWatcher>): seq<Call> {
    if ws == [] then [] else [Clear(ws[0]), Feed(ws[0], KILLED)] + KillCalls(ws[1..])
  }

  function Masks(anfds: seq<Anfd>): (r: seq<bv8>)
    ensures |r| == |anfds| && forall f: nat | f < |anfds| :: r[f] == anfds[f].events
  {
    seq(|anfds|, f requires 0 <= f < |anfds| => anfds[f].events)
  }

  /** Exactly the flagged fds are queued from position `from` on, each once. */
  ghost predicate Queued(anfds: seq<Anfd>, fdchanges: seq<nat>, from: nat) {
    && from <= |fdchanges|
    && Distinct(fdchanges[from..])
    && (forall f: nat :: f in fdchanges[from..] <==> f < |anfds| && anfds[f].reify != 0)
  }

  /** `fd_change`, on the two tables. */
  lemma ChangeQueues(anfds: seq<Anfd>, fdchanges: seq<nat>, from: nat, fd: nat, flags: bv8)
    requires fd < |anfds| && Queued(anfds, fdchanges, from) && flags & EV_ANFD_REIFY != 0
    ensures var a := anfds[fd := anfds[fd].(reify := anfds[fd].reify | flags)];
            Queued(a, if anfds[fd].reify == 0 then fdchanges + [fd] else fdchanges, from)
  {
    var bits := anfds[fd].reify | flags;
    assert bits != 0;
    var a := anfds[fd := anfds[fd].(reify := bits)];
    if anfds[fd].reify == 0 {
      var rest := fdchanges[from..];
      assert fd !in rest;
      assert (fdchanges + [fd])[from..] == rest + [fd];
    }
  }

  lemma QueuedInTable(anfds: seq<Anfd>, fdchanges: seq<nat>, i: nat)
    requires Queued(anfds, fdchanges, i) && i < |fdchanges|
    ensures fdchanges[i] < |anfds|
  {
    assert fdchanges[i..][0] == fdchanges[i] && fdchanges[i] in fdchanges[i..];
  }

  lemma QueuedByFlags(a: seq<Anfd>, b: seq<Anfd>, fdchanges: seq<nat>, from: nat)
    requires Queued(a, fdchanges, from) && |a| == |b|
    requires forall f: nat | f < |a| :: a[f].reify == b[f].reify
    ensures Queued(b, fdchanges, from)
  {
  }

  ghost predicate SameHeads(a: seq<Anfd>, b: seq<Anfd>) {
    |a| == |b| && forall f: nat | f < |a| :: a[f].head == b[f].head
  }

  /** Clearing the flag of the first queued fd takes it off the queue. */
  lemma Served(a: seq<Anfd>, b: seq<Anfd>, fdchanges: seq<nat>, i: nat)
    requires Queued(a, fdchanges, i) && i < |fdchanges| && fdchanges[i] < |a| == |b|
    requires b[fdchanges[i]].reify == 0
    requires forall f: nat | f < |a| && f != fdchanges[i] :: a[f].reify == b[f].reify
    ensures Queued(b, fdchanges, i + 1)
  {
    var all, rest := fdchanges[i..], fdchanges[i + 1..];
    assert all == [fdchanges[i]] + rest;
    Behead(all, rest);
    forall f: nat
      ensures f in rest <==> f < |b| && b[f].reify != 0
    {
      assert f in rest <==> f in all && f != fdchanges[i];
    }
  }

  lemma Behead(all: seq<nat>, rest: seq<nat>)
    requires Distinct(all) && all != [] && all == [all[0]] + rest
    ensures Distinct(rest)
    ensures forall f: nat :: f in rest <==> f in all && f != all[0]
  {
    assert forall k: nat | k < |rest| :: rest[k] == all[k + 1] && all[0] != all[k + 1];
  }

  /** The mark of a new file has moved from the watcher's mask to the flag of its fd. */
  predicate Flagged(before: bv8, after: bv8, reify: bv8) {
    after == before & !EV__IOFDSET && (before & EV__IOFDSET != 0 ==> reify & EV__IOFDSET != 0)
  }

  lemma FlagKept(reify: bv8, events: bv8)
    ensures events & EV__IOFDSET != 0 ==> (reify | ((events & EV__IOFDSET) | EV_ANFD_REIFY)) & EV__IOFDSET != 0
    ensures ((events & EV__IOFDSET) | EV_ANFD_REIFY) & EV_ANFD_REIFY != 0
  {
  }

  /** At one fd the list and the flag may have changed, elsewhere nothing. */
  ghost predicate OnlyHeadAndFlag(a: seq<Anfd>, b: seq<Anfd>, fd: nat) {
    && |a| == |b| && fd < |a| && b[fd].events == a[fd].events
    && forall f: nat | f < |a| && f != fd :: b[f] == a[f]
  }

  /** The backend is told of an fd whose mask changed or whose file may be a new one. */
  ghost predicate OneServed(a: seq<Anfd>, b: seq<Anfd>, told: seq<nat>, told': seq<nat>, fd: nat) {
    && |a| == |b| && fd < |a| && (forall f: nat | f < |a| && f != fd :: b[f] == a[f])
    && told' == told + if a[fd].events != b[fd].events || a[fd].reify & EV__IOFDSET != 0 then [fd] else []
  }

  /** So far, of every fd with a new mask the backend was told, and of every new file it was or will be. */
  ghost predicate Telling(a: seq<Anfd>, b: seq<Anfd>, told: seq<nat>, told': seq<nat>) {
    && |a| == |b| && told <= told'
    && forall f: nat | f < |a| ::
         && (a[f].events != b[f].events ==> f in told'[|told|..])
         && (a[f].reify & EV__IOFDSET != 0 ==> f in told'[|told|..] || b[f].reify & EV__IOFDSET != 0)
  }

  ghost predicate Told(a: seq<Anfd>, b: seq<Anfd>, told: seq<nat>, told': seq<nat>) {
    && |a| == |b| && told <= told'
    && forall f: nat | f < |a| && (a[f].events != b[f].events || a[f].reify & EV__IOFDSET != 0) :: f in told'[|told|..]
  }

  lemma TellingStarts(a: seq<Anfd>, told: seq<nat>)
    ensures Telling(a, a, told, told)
  {
  }

  lemma TellingGoesOn(a: seq<Anfd>, b: seq<Anfd>, c: seq<Anfd>, told: seq<nat>, told': seq<nat>, told'': seq<nat>, fd: nat)
    requires Telling(a, b, told, told') && OneServed(b, c, told', told'', fd)
    ensures Telling(a, c, told, told'')
  {
    var n := |told|;
    var more := told''[|told'|..];
    assert told'' == told' + more && told''[n..] == told'[n..] + more;
  }

  lemma TellingEnds(a: seq<Anfd>, b: seq<Anfd>, told: seq<nat>, told': seq<nat>)
    requires Telling(a, b, told, told') && forall f: nat | f < |b| :: b[f].reify == 0
    ensures Told(a, b, told, told')
  {
  }

  class FdLoop {
    var anfds: seq<Anfd>
    var fdchanges: seq<nat>
    var calls: seq<Call>
    const backend: Backend
    /** The fds the backend has been told about. */
    ghost var told: seq<nat>
    ghost var known: set<IoWatcher>

    constructor (backend: Backend)
      requires backend.ByPoll? ==> backend.poll.Shows([])
      requires backend.BySelect? ==> backend.select.Shows([])
      ensures Ok() && fdchanges == [] && anfds == [] && this.backend == backend
    {
      anfds, fdchanges, calls, known, told := [], [], [], {}, [];
      this.backend := backend;
      new;
      assert Masks(anfds) == [];
    }

    /** The watchers in the list of an fd are the active watchers of that fd. */
    ghost predicate Listed()
      reads this`anfds, this`known, known`active, known`fd
    {
      && (forall f: nat | f < |anfds| :: Distinct(anfds[f].head))
      && (forall f: nat, w | f < |anfds| && w in anfds[f].head :: w in known && w.active && w.fd == f)
      && (forall w | w in known && w.active :: 0 <= w.fd < |anfds| && w in anfds[w.fd].head)
    }

    ghost predicate Current(f: nat)
      requires f < |anfds|
      reads this`anfds, anfds[f].head`events
    {
      anfds[f].reify == 0 ==> anfds[f].events == Interest(anfds[f].head)
    }

    /** Every fd that is not flagged waits for exactly what its watchers want. */
    ghost predicate AllCurrent()
      requires Listed()
      reads this`anfds, this`known, known
    {
      forall f: nat | f < |anfds| :: Current(f)
    }

    ghost function BackendRepr(): set<object> {
      match backend
      case ByPoll(p) => {p}
      case BySelect(s) => {s}
      case Refusing => {}
    }

    /** The poll and select backends hold the table's masks. */
    ghost predicate InSync()
      reads this`anfds, BackendRepr()
    {
      match backend
      case ByPoll(p) => p.Shows(Masks(anfds))
      case BySelect(s) => s.Shows(Masks(anfds))
      case Refusing => true
    }

    ghost predicate OkFrom(from: nat)
      reads this`anfds, this`fdchanges, this`known, known, BackendRepr()
    {
      Listed() && AllCurrent() && InSync() && Queued(anfds, fdchanges, from)
    }

    ghost predicate Ok()
      reads this`anfds, this`fdchanges, this`known, known, BackendRepr()
    {
      OkFrom(0)
    }

    ghost function Active(): set<IoWatcher>
      reads this`known, known`active
    {
      set w | w in known && w.active
    }

    /** `fd_change`. */
    method Change(fd: nat, flags: bv8, ghost from: nat)
      requires fd < |anfds| && Queued(anfds, fdchanges, from) && flags & EV_ANFD_REIFY != 0
      modifies this`anfds, this`fdchanges
      ensures Queued(anfds, fdchanges, from)
      ensures |anfds| == |old(anfds)| && anfds[fd].reify == old(anfds[fd].reify) | flags
      ensures anfds == old(anfds)[fd := old(anfds[fd]).(reify := anfds[fd].reify)]
      ensures anfds[fd].reify != 0 && Masks(anfds) == Masks(old(anfds))
      ensures old(Listed()) ==> Listed()
    {
      hide Queued, Distinct;
      ChangeQueues(anfds, fdchanges, from, fd, flags);
      var reify := anfds[fd].reify;
      anfds := anfds[fd := anfds[fd].(reify := reify | flags)];
      if reify == 0 {
        fdchanges := fdchanges + [fd];
      }
      assert forall f: nat | f < |anfds| :: anfds[f].head == old(anfds)[f].head;
    }

    /** The fd table reaches `fd`. */
    method NeedFd(fd: nat)
      requires Ok()
      modifies this`anfds
      ensures Ok() && fd < |anfds|
    {
      if fd >= |anfds| {
        anfds := anfds + seq(fd + 1 - |anfds|, _ => Anfd([], 0, 0));
        assert forall f: nat :: MaskOf(Masks(anfds), f) == MaskOf(Masks(old(anfds)), f);
        assert AllCurrent() by {
          forall f: nat | f < |anfds|
            ensures Current(f)
          {
            assert f < |old(anfds)| ==> old(Current(f));
          }
        }
      }
    }

    method Link(w: IoWatcher)
      requires Listed() && !w.active && 0 <= w.fd < |anfds|
      modifies this`anfds, this`known, w`active
      ensures Listed() && Active() == old(Active()) + {w}
      ensures anfds == old(anfds)[w.fd := old(anfds)[w.fd].(head := [w] + old(anfds)[w.fd].head)]
      ensures Masks(anfds) == Masks(old(anfds))
    {
      w.active := true;
      known := known + {w};
      anfds := anfds[w.fd := anfds[w.fd].(head := [w] + anfds[w.fd].head)];
    }

    /** `ev_io_start`. */
    method Start(w: IoWatcher)
      requires Ok() && (w.active ==> w in known)
      requires w.fd >= 0 && w.events & !(EV__IOFDSET | EV_READ | EV_WRITE) == 0
      modifies this`anfds, this`fdchanges, this`known, w`active, w`events
      ensures Ok() && w.active
      ensures Active() == old(Active()) + {w}
      ensures old(!w.active) ==> w.fd < |anfds| && Flagged(old(w.events), w.events, anfds[w.fd].reify)
    {
      if w.active {
        return;
      }
      NeedFd(w.fd);
      Enter(w);
    }

    /** The kernel will be told about the fd when it is brought up to date. */
    method ForgetFdset(w: IoWatcher)
      requires Listed() && AllCurrent() && w in known && w.active && anfds[w.fd].reify != 0
      modifies w`events
      ensures AllCurrent() && w.events == old(w.events) & !EV__IOFDSET
    {
      hide Interest;
      w.events := w.events & !EV__IOFDSET;
      forall f: nat | f < |anfds|
        ensures Current(f)
      {
        assert f != w.fd ==> w !in anfds[f].head && old(Current(f));
      }
    }

    method Enter(w: IoWatcher)
      requires Ok() && !w.active && 0 <= w.fd < |anfds|
      modifies this`anfds, this`fdchanges, this`known, w`active, w`events
      ensures Ok() && w.active
      ensures Active() == old(Active()) + {w}
      ensures w.fd < |anfds| && Flagged(old(w.events), w.events, anfds[w.fd].reify)
    {
      hide Interest, Masks, Queued, Distinct, PollTable.Represents, PollTable.Poll.Shows, SelectTable.Select.Shows;
      var fd := w.fd;
      Link(w);
      QueuedByFlags(old(anfds), anfds, fdchanges, 0);
      FlagKept(anfds[fd].reify, w.events);
      Change(fd, (w.events & EV__IOFDSET) | EV_ANFD_REIFY, 0);
      forall f: nat | f < |anfds|
        ensures Current(f)
      {
        assert f != fd ==> anfds[f] == old(anfds)[f] && old(Current(f));
      }
      ForgetFdset(w);
    }

    method Unlink(w: IoWatcher)
      requires Listed() && w in known && w.active
      modifies this`anfds, w`active
      ensures 0 <= w.fd < |anfds| == |old(anfds)| && Listed() && !w.active && Active() == old(Active()) - {w}
      ensures anfds == old(anfds)[w.fd := old(anfds)[w.fd].(head := Remove(old(anfds)[w.fd].head, w))]
      ensures Masks(anfds) == Masks(old(anfds))
    {
      hide Distinct, Remove;
      RemoveFacts(anfds[w.fd].head, w);
      var head := WlistDel(anfds[w.fd].head, w);
      anfds := anfds[w.fd := anfds[w.fd].(head := head)];
      w.active := false;
      assert forall f: nat | f < |anfds| && f != w.fd :: anfds[f].head == old(anfds)[f].head && w !in anfds[f].head;
      assert forall x | x in anfds[w.fd].head :: x in old(anfds)[w.fd].head && x != w;
      assert forall x | x in old(anfds)[w.fd].head && x != w :: x in anfds[w.fd].head;
    }

    method Leave(w: IoWatcher, ghost from: nat)
      requires OkFrom(from) && w in known && w.active
      modifies this`anfds, this`fdchanges, w`active
      ensures OkFrom(from) && !w.active && Active() == old(Active()) - {w}
      ensures 0 <= w.fd < |anfds| == |old(anfds)|
      ensures forall f: nat | f < |anfds| && f != w.fd :: anfds[f] == old(anfds)[f]
      ensures anfds[w.fd].head == Remove(old(anfds)[w.fd].head, w) && anfds[w.fd].events == old(anfds)[w.fd].events
    {
      hide Interest, Masks, Queued, Distinct, PollTable.Represents, PollTable.Poll.Shows, SelectTable.Select.Shows;
      var fd := w.fd;
      Unlink(w);
      QueuedByFlags(old(anfds), anfds, fdchanges, from);
      Change(fd, EV_ANFD_REIFY, from);
      forall f: nat | f < |anfds|
        ensures Current(f)
      {
        assert f != fd ==> anfds[f] == old(anfds)[f] && old(Current(f));
      }
    }

    /** `ev_io_stop`. */
    method Stop(w: IoWatcher, ghost from: nat)
      requires OkFrom(from) && (w.active ==> w in known)
      modifies this`anfds, this`fdchanges, this`calls, w`active
      ensures OkFrom(from) && !w.active && Active() == old(Active()) - {w}
      ensures calls == old(calls) + [Clear(w)]
      ensures |anfds| == |old(anfds)|
      ensures forall f: nat | f < |anfds| && (old(!w.active) || f != w.fd) :: anfds[f] == old(anfds)[f]
      ensures old(w.active) ==> anfds[w.fd].head == Remove(old(anfds)[w.fd].head, w)
      ensures old(w.active) ==> anfds[w.fd].events == old(anfds)[w.fd].events
    {
      hide AllCurrent, Queued, Distinct;
      calls := calls + [Clear(w)];
      if !w.active {
        return;
      }
      Leave(w, from);
    }

    method KillHead(fd: nat, ghost from: nat) returns (w: IoWatcher)
      requires OkFrom(from) && fd < |anfds| && anfds[fd].head != []
      modifies this`anfds, this`fdchanges, this`calls, known`active
      ensures OkFrom(from) && |anfds| == |old(anfds)|
      ensures w == old(anfds)[fd].head[0] && w in old(Active())
      ensures anfds[fd].head == old(anfds)[fd].head[1..] && anfds[fd].events == old(anfds)[fd].events
      ensures forall f: nat | f < |anfds| && f != fd :: anfds[f] == old(anfds)[f]
      ensures Active() == old(Active()) - {w}
      ensures calls == old(calls) + [Clear(w), Feed(w, KILLED)]
    {
      w := anfds[fd].head[0];
      assert w in known && w.active && w.fd == fd;
      hide OkFrom, Listed, AllCurrent;
      Stop(w, from);
      calls := calls + [Feed(w, KILLED)];
    }

    /** `fd_kill`. */
    method Kill(fd: nat, ghost from: nat)
      requires OkFrom(from) && fd < |anfds|
      modifies this`anfds, this`fdchanges, this`calls, known`active
      ensures OkFrom(from) && |anfds| == |old(anfds)| && anfds[fd].head == [] && anfds[fd].events == old(anfds)[fd].events
      ensures forall f: nat | f < |anfds| && f != fd :: anfds[f] == old(anfds)[f]
      ensures old(anfds)[fd].head == [] ==> anfds == old(anfds) && fdchanges == old(fdchanges)
      ensures Active() == old(Active()) - set w | w in old(anfds)[fd].head
      ensures calls == old(calls) + KillCalls(old(anfds)[fd].head)
    {
      hide OkFrom, Listed, AllCurrent, Active;
      ghost var all := anfds[fd].head;
      ghost var k := 0;
      assert all[..0] == [] && all[0..] == all;
      while |anfds[fd].head| > 0
        invariant OkFrom(from) && |anfds| == |old(anfds)| && k <= |all| && anfds[fd].head == all[k..]
        invariant anfds[fd].events == old(anfds)[fd].events
        invariant forall f: nat | f < |anfds| && f != fd :: anfds[f] == old(anfds)[f]
        invariant k == 0 ==> anfds == old(anfds) && fdchanges == old(fdchanges)
        invariant Active() == old(Active()) - set w | w in all[..k]
        invariant calls + KillCalls(all[k..]) == old(calls) + KillCalls(all)
        decreases |anfds[fd].head|
      {
        var w := KillHead(fd, from);
        assert all[..k + 1] == all[..k] + [w];
        assert all[k..][1..] == all[k + 1..];
        k := k + 1;
      }
      assert all[..k] == all;
    }

    /** `backend_modify`, the table already showing `nev`. */
    method Modify(fd: nat, oev: bv8, nev: bv8, ghost from: nat)
      requires Listed() && AllCurrent() && Queued(anfds, fdchanges, from)
      requires fd < |anfds| && anfds[fd].events == nev
      requires backend.ByPoll? ==> backend.poll.Shows(Masks(anfds)[fd := oev])
      requires backend.BySelect? ==> backend.select.Shows(Masks(anfds)[fd := oev])
      modifies this`anfds, this`fdchanges, this`calls, known`active, BackendRepr()
      ensures OkFrom(from) && from <= |fdchanges| && Active() <= old(Active())
      ensures OnlyHeadAndFlag(old(anfds), anfds, fd)
      ensures (anfds == old(anfds) && fdchanges == old(fdchanges)) || Active() < old(Active())
      ensures backend != Refusing ==> Active() == old(Active()) && calls == old(calls) && anfds == old(anfds)
    {
      match backend {
        case ByPoll(p) =>
          ghost var was := Masks(anfds)[fd := oev];
          p.Modify(fd, oev, nev, was);
          assert was[fd := nev] == Masks(anfds);
        case BySelect(s) =>
          ghost var was := Masks(anfds)[fd := oev];
          s.Modify(fd, oev, nev, was);
          assert was[fd := nev] == Masks(anfds);
        case Refusing =>
          var unusable: bool := *;
          if unusable {
            MaybeKill(fd, from);
          }
      }
    }

    method MaybeKill(fd: nat, ghost from: nat)
      requires OkFrom(from) && fd < |anfds|
      modifies this`anfds, this`fdchanges, this`calls, known`active
      ensures OkFrom(from) && Active() <= old(Active()) && OnlyHeadAndFlag(old(anfds), anfds, fd)
      ensures (anfds == old(anfds) && fdchanges == old(fdchanges)) || Active() < old(Active())
    {
      ghost var head := anfds[fd].head;
      assert forall w | w in head :: w in Active();
      hide OkFrom, Listed, AllCurrent, Active;
      Kill(fd, from);
      assert Active() < old(Active()) || head == [] by {
        if head != [] {
          assert head[0] in old(Active()) && head[0] !in Active();
        }
      }
    }

    /** One round of `fd_reify`: entry `i` is served. */
    method ReifyOne(i: nat)
      requires OkFrom(i) && i < |fdchanges|
      modifies this`anfds, this`fdchanges, this`calls, this`told, known`active, BackendRepr()
      ensures OkFrom(i + 1) && i + 1 <= |fdchanges| && Active() <= old(Active())
      ensures OneServed(old(anfds), anfds, old(told), told, old(fdchanges)[i])
      ensures fdchanges == old(fdchanges) || Active() < old(Active())
      ensures backend != Refusing ==> Active() == old(Active()) && calls == old(calls) && SameHeads(anfds, old(anfds))
    {
      hide Listed, AllCurrent, Queued, Masks, PollTable.Represents, PollTable.Poll.Shows, SelectTable.Select.Shows;
      QueuedInTable(anfds, fdchanges, i);
      var fd := fdchanges[i];
      var events := Collect(anfds[fd].head);
      var oldEvents, oldReify := anfds[fd].events, anfds[fd].reify;
      Settle(i, fd, events);
      if oldEvents != events || oldReify & EV__IOFDSET != 0 {
        told := told + [fd];
        Modify(fd, oldEvents, events, i + 1);
      }
    }

    method Settle(i: nat, fd: nat, events: bv8)
      requires OkFrom(i) && i < |fdchanges| && fd == fdchanges[i] && fd < |anfds| && events == Interest(anfds[fd].head)
      modifies this`anfds
      ensures Listed() && AllCurrent() && Queued(anfds, fdchanges, i + 1)
      ensures SameHeads(anfds, old(anfds)) && anfds[fd].events == events
      ensures forall f: nat | f < |anfds| && f != fd :: anfds[f] == old(anfds)[f]
      ensures Masks(anfds)[fd := old(anfds)[fd].events] == Masks(old(anfds))
      ensures events == old(anfds)[fd].events ==> InSync()
    {
      anfds := anfds[fd := anfds[fd].(reify := 0, events := events)];
      Served(old(anfds), anfds, fdchanges, i);
      forall f: nat | f < |anfds|
        ensures Current(f)
      {
        assert f != fd ==> old(Current(f));
      }
    }

    /** When the queue has been served, no fd is flagged and every one is current. */
    lemma AllServed()
      requires OkFrom(|fdchanges|)
      ensures forall f: nat | f < |anfds| :: anfds[f].reify == 0 && anfds[f].events == Interest(anfds[f].head)
      ensures Listed() && AllCurrent() && InSync() && Queued(anfds, [], 0)
    {
      hide Interest;
      assert fdchanges[|fdchanges|..] == [];
      assert forall f: nat | f < |anfds| :: anfds[f].reify == 0 && Current(f);
    }

    /** `fd_reify`. */
    method Reify()
      requires Ok()
      modifies this`anfds, this`fdchanges, this`calls, this`told, known`active, BackendRepr()
      ensures Ok() && fdchanges == [] && Active() <= old(Active())
      ensures Told(old(anfds), anfds, old(told), told)
      ensures forall f: nat | f < |anfds| :: anfds[f].reify == 0 && anfds[f].events == Interest(anfds[f].head)
      ensures backend != Refusing ==> Active() == old(Active()) && calls == old(calls) && SameHeads(anfds, old(anfds))
    {
      hide Listed, AllCurrent, InSync, Queued, Interest, Active, OneServed, Telling;
      TellingStarts(anfds, told);
      var i := 0;
      while i < |fdchanges|
        invariant i <= |fdchanges| && OkFrom(i) && Active() <= old(Active())
        invariant Telling(old(anfds), anfds, old(told), told)
        invariant backend != Refusing ==> Active() == old(Active()) && calls == old(calls) && SameHeads(anfds, old(anfds))
        decreases Active(), |fdchanges| - i
      {
        ghost var before, toldBefore, fd := anfds, told, fdchanges[i];
        ReifyOne(i);
        TellingGoesOn(old(anfds), before, anfds, old(told), toldBefore, told, fd);
        i := i + 1;
      }
      AllServed();
      TellingEnds(old(anfds), anfds, old(told), told);
      Emptied();
    }

    method Emptied()
      requires Listed() && AllCurrent() && InSync() && Queued(anfds, [], 0)
      modifies this`fdchanges
      ensures Ok() && fdchanges == []
    {
      fdchanges := [];
    }

    /** With nothing queued, the table says exactly what the active watchers of an fd wait for. */
    lemma TableMeetsWatchers(f: nat, mask: bv8)
      requires Ok() && fdchanges == []
      ensures MaskOf(Masks(anfds), f) & mask != 0 <==> exists w :: w in Active() && w.fd == f && w.events & mask != 0
    {
      if f < |anfds| {
        assert fdchanges[0..] == [] && Current(f);
        InterestHas(anfds[f].head, mask);
      }
    }

    /** With nothing queued, poll watches an fd if and only if an active watcher waits for something on it. */
    lemma PollMeetsWatchers(f: nat)
      requires Ok() && fdchanges == [] && backend.ByPoll?
      ensures (exists i: nat :: i < |backend.poll.polls| && backend.poll.polls[i].fd == f)
              <==> exists w :: w in Active() && w.fd == f && w.events != 0
    {
      TableMeetsWatchers(f, 0xff);
      hide Queued, Interest, Listed, AllCurrent;
      PollTable.TableIsInterest(backend.poll.polls, backend.poll.pollidxs, Masks(anfds));
    }

    /** With nothing queued, select watches an fd for an event if and only if an active watcher does. */
    lemma SelectMeetsWatchers(f: nat)
      requires Ok() && fdchanges == [] && backend.BySelect?
      ensures SelectTable.Bit(backend.select.vecRi, f) <==> exists w :: w in Active() && w.fd == f && w.events & EV_READ != 0
      ensures SelectTable.Bit(backend.select.vecWi, f) <==> exists w :: w in Active() && w.fd == f && w.events & EV_WRITE != 0
    {
      hide SelectTable.Bit;
      TableMeetsWatchers(f, EV_READ);
      TableMeetsWatchers(f, EV_WRITE);
    }
  }
}
