/** The event core: pending stacks and the timer queue of one loop. */
module EventLoop {
  import opened FourHeap
  import opened TimerHeap
  import opened PendingHistory
  import opened ArraySize
  import opened TimerExpiry
  import opened Options
  import opened Sequences

  const EV_MINPRI := -2
  const EV_MAXPRI := 2
  const NUMPRI := 5
  const EV_TIMEOUT: bv32 := 0x100

  /** A slot of a pending stack. */
  datatype Pending = Pending(w: Watcher, events: bv32)

  /** What can happen to the pending stacks; callbacks feed and clear too. */
  datatype Op = DoFeed(w: Watcher, events: bv32) | DoClear(w: Watcher) | DoInvoke(pri: nat)

  class Loop {
    /** One stack per priority; `pendingcnt` is the height of the stack. */
    var pendings: seq<seq<Pending>>
    /** The dummy that replaces cleared watchers. */
    const pendingW: Watcher
    /** The timer heap; slots from `timercnt` + HEAP0 on are spare. */
    var timers: array<Slot>
    var timercnt: nat
    /** The monotonic time of this iteration (`mn_now`). */
    var now: real
    /** The watchers that were handed to this loop. */
    ghost var known: set<Watcher>
    ghost var history: seq<Event<Watcher>>

    constructor (time: real)
      ensures Ok() && fresh(timers) && fresh(pendingW)
      ensures known == {} && history == [] && timercnt == 0 && now == time
    {
      var dummy := new Watcher(0.0, 0.0, 0);
      pendingW := dummy;
      pendings := [[], [], [], [], []];
      timers := new Slot[HEAP0](_ => Entry(0.0, dummy));
      timercnt, now := 0, time;
      known, history := {}, [];
    }

    /** The back-pointers are exact: `pending` is k > 0 iff slot k - 1 of the watcher's priority holds it. */
    ghost predicate PendingOk()
      reads this`pendings, this`known, known`pending, known`priority
    {
      && |pendings| == NUMPRI && pendingW !in known
      && (forall w | w in known :: InRange(w.priority))
      && (forall p: nat, k: nat | p < NUMPRI && k < |pendings[p]| && pendings[p][k].w != pendingW ::
            Holds(pendings[p][k].w, p, k))
      && (forall w | w in known :: w.pending == 0 ||
            (1 <= w.pending <= |pendings[w.priority - EV_MINPRI]| &&
             pendings[w.priority - EV_MINPRI][w.pending - 1].w == w))
    }

    /** The fill counts of the stacks (`pendingcnt`). */
    ghost function Heights(): (r: seq<nat>)
      requires |pendings| == NUMPRI
      reads this`pendings
      ensures |r| == NUMPRI
    {
      [|pendings[0]|, |pendings[1]|, |pendings[2]|, |pendings[3]|, |pendings[4]|]
    }

    static predicate InRange(pri: int) {
      EV_MINPRI <= pri <= EV_MAXPRI
    }

    ghost predicate Holds(w: Watcher, p: nat, k: nat)
      reads this`known, known`pending, known`priority
    {
      w in known && w.priority - EV_MINPRI == p && w.pending == k + 1
    }

    /** The events a watcher will be invoked with, if it is pending. */
    ghost function Owed(w: Watcher): Option<bv32>
      requires PendingOk() && w in known
      reads this`pendings, this`known, known`pending, known`priority
    {
      if w.pending == 0 then None else Some(pendings[w.priority - EV_MINPRI][w.pending - 1].events)
    }

    /** Every watcher is owed what the history says, and every past invocation delivered what was due. */
    ghost predicate HistoryOk()
      requires PendingOk()
      reads this`pendings, this`known, this`history, known`pending, known`priority
    {
      Lawful(history) && forall w | w in known :: Owed(w) == Due(history, w)
    }

    /** The watcher is pending: its slot gains the events. */
    method MergeSlot(w: Watcher, revents: bv32)
      requires PendingOk() && w in known && w.pending != 0
      modifies `pendings
      ensures PendingOk() && Heights() == old(Heights())
      ensures Owed(w) == Some(Or(old(Owed(w)).value, revents))
      ensures forall v | v in known && v != w :: Owed(v) == old(Owed(v))
    {
      hide Or;
      var pri := w.priority - EV_MINPRI;
      var slot := pendings[pri][w.pending - 1];
      pendings := pendings[pri := pendings[pri][w.pending - 1 := slot.(events := Or(slot.events, revents))]];
    }

    /** The watcher is not pending: it takes a new slot on top of the stack of its priority. */
    method PushSlot(w: Watcher, revents: bv32)
      requires PendingOk() && w in known && w.pending == 0
      modifies `pendings, w`pending
      ensures PendingOk() && w.pending == |old(pendings)[w.priority - EV_MINPRI]| + 1
      ensures pendings == old(pendings)[w.priority - EV_MINPRI := old(pendings)[w.priority - EV_MINPRI] + [Pending(w, revents)]]
    {
      var pri := w.priority - EV_MINPRI;
      ghost var ps := pendings;
      w.pending := |pendings[pri]| + 1;
      pendings := pendings[pri := pendings[pri] + [Pending(w, revents)]];
      assert forall p: nat, k: nat | p < NUMPRI && k < |ps[p]| :: pendings[p][k] == ps[p][k];
      assert forall p: nat, k: nat | p < NUMPRI && k < |ps[p]| :: ps[p][k].w != w;
    }

    /** The new slot is owed what was fed, and no other watcher is owed anything else. */
    method Push(w: Watcher, revents: bv32)
      requires PendingOk() && w in known && w.pending == 0
      modifies `pendings, w`pending
      ensures PendingOk() && Heights() == old(Heights())[w.priority - EV_MINPRI := w.pending]
      ensures w.pending == old(Heights())[w.priority - EV_MINPRI] + 1
      ensures Owed(w) == Some(revents)
      ensures forall v | v in known && v != w :: Owed(v) == old(Owed(v))
    {
      PushSlot(w, revents);
      ghost var pri := w.priority - EV_MINPRI;
      forall v | v in known && v != w
        ensures Owed(v) == old(Owed(v))
      {
        assert v.pending == old(v.pending) && v.priority == old(v.priority);
      }
    }

    /** `ev_feed_event`. */
    method FeedEvent(w: Watcher, revents: bv32)
      requires PendingOk() && HistoryOk() && w in known
      modifies `pendings, `history, w`pending
      ensures PendingOk() && HistoryOk()
      ensures history == old(history) + [Fed(w, revents)]
      ensures if old(w.pending) != 0 then w.pending == old(w.pending) && Heights() == old(Heights())
              else w.pending == old(Heights())[w.priority - EV_MINPRI] + 1
                   && Heights() == old(Heights())[w.priority - EV_MINPRI := w.pending]
    {
      hide Lawful, Due, Or, Heights;
      if w.pending != 0 {
        MergeSlot(w, revents);
      } else {
        Push(w, revents);
      }
      Append(history, Fed(w, revents), known);
      history := history + [Fed(w, revents)];
    }

    /** The slot stays on the stack, held by the dummy. */
    method DropSlot(w: Watcher)
      requires PendingOk() && w in known && w.pending != 0
      modifies `pendings, w`pending
      ensures PendingOk() && w.pending == 0 && Heights() == old(Heights())
      ensures pendings == old(Dropped(w))
    {
      ghost var ps, j := pendings, w.pending - 1;
      var pri := w.priority - EV_MINPRI;
      pendings := pendings[pri := pendings[pri][w.pending - 1 := pendings[pri][w.pending - 1].(w := pendingW)]];
      w.pending := 0;
      assert forall p: nat, k: nat | p < NUMPRI && k < |ps[p]| && !(p == pri && k == j) :: pendings[p][k] == ps[p][k];
    }

    /** The stacks with the watcher's slot given to the dummy. */
    ghost function Dropped(w: Watcher): seq<seq<Pending>>
      requires PendingOk() && w in known && w.pending != 0
      reads this`pendings, this`known, known`pending, known`priority
    {
      var pri := w.priority - EV_MINPRI;
      pendings[pri := pendings[pri][w.pending - 1 := pendings[pri][w.pending - 1].(w := pendingW)]]
    }

    /** No other watcher is owed anything else. */
    method Drop(w: Watcher)
      requires PendingOk() && w in known && w.pending != 0
      modifies `pendings, w`pending
      ensures PendingOk() && Heights() == old(Heights()) && w.pending == 0
      ensures forall v | v in known && v != w :: Owed(v) == old(Owed(v))
    {
      DropSlot(w);
      forall v | v in known && v != w
        ensures Owed(v) == old(Owed(v))
      {
        assert v.pending == old(v.pending) && v.priority == old(v.priority);
      }
    }

    /** `ev_clear_pending`. */
    method ClearPending(w: Watcher) returns (revents: bv32)
      requires PendingOk() && HistoryOk() && w in known
      modifies `pendings, `history, w`pending
      ensures PendingOk() && HistoryOk() && Heights() == old(Heights()) && w.pending == 0
      ensures history == old(history) + [Cleared(w)]
      ensures revents == match old(Owed(w)) case None => 0 case Some(e) => e
    {
      hide Lawful, Due, Heights;
      revents := 0;
      if w.pending != 0 {
        revents := pendings[w.priority - EV_MINPRI][w.pending - 1].events;
        Drop(w);
      }
      Append(history, Cleared(w), known);
      history := history + [Cleared(w)];
    }

    /** Pops the top slot of a stack and resets the back-pointer of its watcher. */
    method PopSlot(pri: nat) returns (w: Watcher, revents: bv32)
      requires PendingOk() && pri < NUMPRI && pendings[pri] != []
      modifies `pendings, known`pending, pendingW`pending
      ensures PendingOk()
      ensures Pending(w, revents) == old(pendings)[pri][|old(pendings)[pri]| - 1]
      ensures pendings == old(pendings)[pri := old(pendings)[pri][..|old(pendings)[pri]| - 1]]
      ensures w == pendingW || (w in known && w.pending == 0 && old(Holds(w, pri, |pendings[pri]| - 1)))
      ensures forall v | v in known && v != w :: v.pending == old(v.pending)
    {
      var k := |pendings[pri]| - 1;
      var slot := pendings[pri][k];
      assert slot.w != pendingW ==> Holds(slot.w, pri, k);
      w, revents := slot.w, slot.events;
      pendings := pendings[pri := pendings[pri][..k]];
      w.pending := 0;
    }

    /** The watcher is handed what it was owed, and the others stay as they were. */
    method Pop(pri: nat) returns (w: Watcher, revents: bv32)
      requires PendingOk() && pri < NUMPRI && pendings[pri] != []
      modifies `pendings, known`pending, pendingW`pending
      ensures PendingOk()
      ensures Pending(w, revents) == old(pendings)[pri][|old(pendings)[pri]| - 1]
      ensures pendings == old(pendings)[pri := old(pendings)[pri][..|old(pendings)[pri]| - 1]]
      ensures w == pendingW || (w in known && w.pending == 0 && old(Owed(w)) == Some(revents))
      ensures forall v | v in known && v != w :: Owed(v) == old(Owed(v))
    {
      w, revents := PopSlot(pri);
      forall v | v in known && v != w
        ensures Owed(v) == old(Owed(v))
      {
        assert v.pending == old(v.pending) && v.priority == old(v.priority);
      }
    }

    /** One round of `ev_invoke_pending`. The dummy's callback does nothing. */
    method InvokeTop(pri: nat) returns (w: Watcher, revents: bv32)
      requires PendingOk() && HistoryOk() && pri < NUMPRI && pendings[pri] != []
      modifies `pendings, `history, known`pending, pendingW`pending
      ensures PendingOk() && HistoryOk()
      ensures pendings == old(pendings)[pri := old(pendings)[pri][..|old(pendings)[pri]| - 1]]
      ensures Pending(w, revents) == old(pendings)[pri][|old(pendings)[pri]| - 1]
      ensures history == old(history) + Delivery(Pending(w, revents))
    {
      hide Lawful, Due;
      w, revents := Pop(pri);
      if w != pendingW {
        Append(history, Invoked(w, revents), known);
        history := history + [Invoked(w, revents)];
      }
    }

    /**
     * Any run of feeds, clears and invocations, in any order: the back-pointers stay exact and
     * every invocation delivers what was due.
     */
    method Run(ops: seq<Op>)
      requires PendingOk() && HistoryOk()
      requires OpsKnown(ops)
      modifies `pendings, `history, known`pending, pendingW`pending
      ensures PendingOk() && HistoryOk() && old(history) <= history
    {
      hide HistoryOk, Heights, Owed;
      for i := 0 to |ops|
        invariant PendingOk() && HistoryOk() && old(history) <= history
      {
        match ops[i] {
          case DoFeed(w, events) =>
            FeedEvent(w, events);
          case DoClear(w) =>
            var revents := ClearPending(w);
          case DoInvoke(pri) =>
            if pri < NUMPRI && pendings[pri] != [] {
              var w, revents := InvokeTop(pri);
            }
        }
      }
    }

    /** The invocation a slot stands for. */
    ghost function Delivery(slot: Pending): seq<Event<Watcher>> {
      if slot.w == pendingW then [] else [Invoked(slot.w, slot.events)]
    }

    /** The invocations a stack stands for, from the top down. */
    ghost function Drained(stack: seq<Pending>): seq<Event<Watcher>> {
      if stack == [] then [] else Delivery(stack[|stack| - 1]) + Drained(stack[..|stack| - 1])
    }

    /** The invocations of the stacks below `n`, the highest first. */
    ghost function AllDrained(stacks: seq<seq<Pending>>, n: nat): seq<Event<Watcher>>
      requires n <= |stacks|
    {
      if n == 0 then [] else Drained(stacks[n - 1]) + AllDrained(stacks, n - 1)
    }

    ghost predicate OpsKnown(ops: seq<Op>)
      reads this`known
    {
      forall i: nat | i < |ops| && !ops[i].DoInvoke? :: ops[i].w in known
    }

    /** The top of a stack is invoked; the callback of a watcher runs the next script, if there is one. */
    method InvokeNext(pri: nat, scripts: seq<seq<Op>>, done: nat) returns (done': nat)
      requires PendingOk() && HistoryOk() && pri < NUMPRI && pendings[pri] != [] && done <= |scripts|
      requires forall i: nat | i < |scripts| :: OpsKnown(scripts[i])
      modifies `pendings, `history, known`pending, pendingW`pending
      ensures PendingOk() && HistoryOk() && old(history) <= history && done <= done' <= |scripts|
      ensures done' == done ==> |pendings[pri]| < |old(pendings[pri])|
      ensures history == old(history) || (history[|old(history)|].Invoked? && history[|old(history)|].w in known
                && history[|old(history)|].w.priority - EV_MINPRI == pri)
      ensures scripts == [] ==>
        && pendings == old(pendings)[pri := old(pendings)[pri][..|old(pendings)[pri]| - 1]]
        && history == old(history) + Delivery(old(pendings)[pri][|old(pendings)[pri]| - 1])
    {
      hide HistoryOk, Heights, Owed;
      ghost var top, n := pendings[pri][|pendings[pri]| - 1], |history|;
      assert top.w != pendingW ==> Holds(top.w, pri, |pendings[pri]| - 1);
      var w, revents := InvokeTop(pri);
      ghost var invoked := history;
      assert w != pendingW ==> invoked[n] == Invoked(w, revents);
      done' := done;
      if w != pendingW && done < |scripts| {
        Run(scripts[done]);
        assert history[n] == invoked[n];
        done' := done + 1;
      }
    }

    /** The stack of one priority is invoked until it is empty. */
    method InvokeLevel(pri: nat, scripts: seq<seq<Op>>, done: nat, ghost from: nat, ghost start: set<Watcher>)
      returns (done': nat)
      requires PendingOk() && HistoryOk() && pri < NUMPRI && done <= |scripts| && from <= |history|
      requires forall i: nat | i < |scripts| :: OpsKnown(scripts[i])
      requires Round(history, from, start, Priorities(), pri + 1 + EV_MINPRI)
      modifies `pendings, `history, known`pending, pendingW`pending
      ensures PendingOk() && HistoryOk() && old(history) <= history && done' <= |scripts|
      ensures Round(history, from, start, Priorities(), pri + EV_MINPRI)
      ensures scripts == [] ==> history + AllDrained(pendings, pri) == old(history) + AllDrained(old(pendings), pri + 1)
    {
      hide HistoryOk, AllDrained, Delivery, Round, OpsKnown, PendingHistory.Due;
      done' := done;
      while pendings[pri] != []
        invariant PendingOk() && HistoryOk() && old(history) <= history && done' <= |scripts|
        invariant Round(history, from, start, Priorities(), pri + 1 + EV_MINPRI)
        invariant scripts == [] ==>
          history + AllDrained(pendings, pri + 1) == old(history) + AllDrained(old(pendings), pri + 1)
        decreases |scripts| - done', |pendings[pri]|
      {
        PopDrains(pendings, pri, history);
        ghost var before := history;
        done' := InvokeNext(pri, scripts, done');
        RoundGoesOn(before, history, from, start, Priorities(), pri + 1 + EV_MINPRI);
      }
      EmptyDrains(pendings, pri);
      NothingLeft(pri);
      RoundDescends(history, from, start, Priorities(), pri + 1 + EV_MINPRI);
    }

    /**
     * `ev_invoke_pending`. The callbacks of the watchers invoked feed and clear watchers, and invoke others
     * in nested rounds, as the scripts say, one after the other.
     */
    method InvokePending(scripts: seq<seq<Op>>)
      requires PendingOk() && HistoryOk()
      requires forall i: nat | i < |scripts| :: OpsKnown(scripts[i])
      modifies `pendings, `history, known`pending, pendingW`pending
      ensures PendingOk() && HistoryOk() && old(history) <= history
      ensures forall w | w in known && old(w.pending) != 0 :: SettledSince(history, |old(history)|, w)
      ensures forall w | w in known && w.pending != 0 :: FedLate(history, |old(history)|, Priorities(), w)
      ensures scripts == [] ==> history == old(history) + AllDrained(old(pendings), NUMPRI)
      ensures scripts == [] ==> forall w | w in known :: w.pending == 0
    {
      hide HistoryOk, Drained, Delivery, Round, FedLate, SettledSince, OpsKnown;
      ghost var start := set w | w in known && w.pending != 0;
      RoundStarts(start);
      var pri, done: nat := NUMPRI, 0;
      while pri > 0
        invariant 0 <= pri <= NUMPRI && PendingOk() && HistoryOk() && old(history) <= history && done <= |scripts|
        invariant Round(history, |old(history)|, start, Priorities(), pri + EV_MINPRI)
        invariant scripts == [] ==> history + AllDrained(pendings, pri) == old(history) + AllDrained(old(pendings), NUMPRI)
      {
        pri := pri - 1;
        done := InvokeLevel(pri, scripts, done, |old(history)|, start);
      }
      assert history == history + AllDrained(pendings, 0);
      RoundEnds(|old(history)|, start);
      if scripts == [] {
        NoneLate(old(history), old(pendings));
      }
    }

    lemma RoundStarts(start: set<Watcher>)
      requires PendingOk() && HistoryOk() && start == set w | w in known && w.pending != 0
      ensures Round(history, |history|, start, Priorities(), NUMPRI + EV_MINPRI)
    {
      forall w | w in known
        ensures w.priority < NUMPRI + EV_MINPRI && (w.pending != 0 ==> Due(history, w).Some?)
      {
        assert InRange(w.priority) && Owed(w) == Due(history, w);
      }
    }

    /** Nothing is due to a watcher whose stack is empty. */
    lemma NothingLeft(pri: nat)
      requires PendingOk() && HistoryOk() && pri < NUMPRI && pendings[pri] == []
      ensures forall w | w in known && w.priority - EV_MINPRI == pri :: Due(history, w).None?
    {
      forall w | w in known && w.priority - EV_MINPRI == pri
        ensures Due(history, w).None?
      {
        assert Owed(w) == Due(history, w);
      }
    }

    lemma RoundEnds(from: nat, start: set<Watcher>)
      requires PendingOk() && HistoryOk() && Round(history, from, start, Priorities(), EV_MINPRI)
      ensures forall w | w in start :: SettledSince(history, from, w)
      ensures forall w | w in known && w.pending != 0 :: FedLate(history, from, Priorities(), w)
    {
      forall w | w in known
        ensures w.priority >= EV_MINPRI && (w.pending != 0 ==> Due(history, w).Some?)
      {
        assert InRange(w.priority) && Owed(w) == Due(history, w);
      }
    }

    lemma {:induction false} SameDrains(a: seq<seq<Pending>>, b: seq<seq<Pending>>, n: nat)
      requires n <= |a| && n <= |b| && forall p: nat | p < n :: a[p] == b[p]
      ensures AllDrained(a, n) == AllDrained(b, n)
    {
      if n > 0 { SameDrains(a, b, n - 1); }
    }

    lemma EmptyDrains(stacks: seq<seq<Pending>>, pri: nat)
      requires pri < |stacks| && stacks[pri] == []
      ensures AllDrained(stacks, pri + 1) == AllDrained(stacks, pri)
    {
    }

    /** Popping the top of the highest stack in use takes its delivery off the front. */
    lemma PopDrains(stacks: seq<seq<Pending>>, pri: nat, h: seq<Event<Watcher>>)
      requires pri < |stacks| && stacks[pri] != []
      ensures
        var s := stacks[pri];
        h + AllDrained(stacks, pri + 1) == h + Delivery(s[|s| - 1]) + AllDrained(stacks[pri := s[..|s| - 1]], pri + 1)
    {
      hide Delivery;
      var s := stacks[pri];
      var less := stacks[pri := s[..|s| - 1]];
      SameDrains(stacks, less, pri);
      assert less[pri] == s[..|s| - 1];
      Regroup(h, Delivery(s[|s| - 1]), Drained(s[..|s| - 1]), AllDrained(stacks, pri));
    }

    /** A stack delivers to the watchers in its slots, and to no other. */
    lemma {:induction false} DrainedMember(stack: seq<Pending>, e: Event<Watcher>)
      requires e in Drained(stack)
      ensures e.Invoked? && e.w != pendingW && exists k: nat | k < |stack| :: stack[k].w == e.w
    {
      var k := |stack| - 1;
      if e in Delivery(stack[k]) {
        assert stack[k].w == e.w;
      } else {
        DrainedMember(stack[..k], e);
        var j: nat :| j < k && stack[..k][j].w == e.w;
        assert stack[j].w == e.w;
      }
    }

    lemma {:induction false} SlotDelivers(stack: seq<Pending>, k: nat)
      requires k < |stack| && stack[k].w != pendingW
      ensures Invoked(stack[k].w, stack[k].events) in Drained(stack)
      decreases |stack|
    {
      if k < |stack| - 1 { SlotDelivers(stack[..|stack| - 1], k); }
    }

    /** What stands higher in the stack is delivered first. */
    lemma {:induction false} HigherFirst(lo: seq<Pending>, hi: seq<Pending>)
      ensures Drained(lo + hi) == Drained(hi) + Drained(lo)
      decreases |hi|
    {
      if hi == [] {
        assert lo + hi == lo;
      } else {
        var k := |hi| - 1;
        assert (lo + hi)[..|lo + hi| - 1] == lo + hi[..k];
        HigherFirst(lo, hi[..k]);
      }
    }

    /** Before stack `p` come the deliveries of the stacks above it. */
    lemma {:induction false} LevelsAbove(stacks: seq<seq<Pending>>, n: nat, p: nat) returns (above: seq<Event<Watcher>>)
      requires p < n <= |stacks|
      ensures AllDrained(stacks, n) == above + Drained(stacks[p]) + AllDrained(stacks, p)
      ensures forall e | e in above :: e.Invoked? && exists q: nat | p < q < n :: e in Drained(stacks[q])
    {
      hide Drained;
      if p == n - 1 {
        above := [];
      } else {
        var rest := LevelsAbove(stacks, n - 1, p);
        above := Drained(stacks[n - 1]) + rest;
        forall e | e in Drained(stacks[n - 1])
          ensures e.Invoked?
        {
          DrainedMember(stacks[n - 1], e);
        }
      }
    }

    lemma {:induction false} AllInvoked(stacks: seq<seq<Pending>>, n: nat)
      requires n <= |stacks|
      ensures forall e | e in AllDrained(stacks, n) :: e.Invoked?
    {
      if n > 0 {
        AllInvoked(stacks, n - 1);
        forall e | e in Drained(stacks[n - 1])
          ensures e.Invoked?
        {
          DrainedMember(stacks[n - 1], e);
        }
      }
    }

    /** Deliveries alone feed nobody. */
    lemma NoneLate(h: seq<Event<Watcher>>, stacks: seq<seq<Pending>>)
      requires |stacks| == NUMPRI && history == h + AllDrained(stacks, NUMPRI)
      ensures forall w | w in known :: !FedLate(history, |h|, Priorities(), w)
    {
      hide AllDrained;
      AllInvoked(stacks, NUMPRI);
      forall k: nat | |h| <= k < |history|
        ensures history[k].Invoked?
      {
        assert history[k] == AllDrained(stacks, NUMPRI)[k - |h|];
      }
    }

    /** A stack cut at one of its slots. */
    lemma CutAt(s: seq<Pending>, a: nat)
      requires a < |s| && s[a].w != pendingW
      ensures Drained(s) == Drained(s[a + 1..]) + ([Invoked(s[a].w, s[a].events)] + Drained(s[..a]))
    {
      var lo, hi := s[..a] + [s[a]], s[a + 1..];
      assert s == lo + hi && lo[..a] == s[..a];
      HigherFirst(lo, hi);
    }

    /** Of two pending watchers with one priority, the one nearer the top is invoked first. */
    lemma TopFirst(h: seq<Event<Watcher>>, w: Watcher, v: Watcher)
      requires PendingOk() && w in known && v in known && w.priority == v.priority && w.pending > v.pending > 0
      ensures InvokedBefore(h + AllDrained(pendings, NUMPRI), |h|, w, v)
    {
      hide InvokedBefore, Drained, AllDrained;
      var p, a, b := w.priority - EV_MINPRI, w.pending - 1, v.pending - 1;
      var s := pendings[p];
      var above := LevelsAbove(pendings, NUMPRI, p);
      CutAt(s, a);
      SlotDelivers(s[..a], b);
      NotAmong(above, s[a + 1..], p, w, v);
      var x, y, rest := Invoked(w, s[a].events), Invoked(v, s[b].events), AllDrained(pendings, p);
      Placed(h, above + Drained(s[a + 1..]), x, Drained(s[..a]), y, rest);
      assert above + (Drained(s[a + 1..]) + ([x] + Drained(s[..a]))) + rest
          == above + Drained(s[a + 1..]) + ([x] + Drained(s[..a])) + rest;
    }

    /** The lower of the two is not delivered from above the higher one. */
    lemma NotAmong(above: seq<Event<Watcher>>, hi: seq<Pending>, p: nat, w: Watcher, v: Watcher)
      requires PendingOk() && w in known && v in known && w.priority == v.priority && w.pending > v.pending > 0
      requires p == w.priority - EV_MINPRI && hi == pendings[p][w.pending..]
      requires forall e | e in above :: exists q: nat | p < q < NUMPRI :: e in Drained(pendings[q])
      ensures forall e | e in above + Drained(hi) :: e.w != v
    {
      forall e | e in above
        ensures e.w != v
      {
        var q: nat :| p < q < NUMPRI && e in Drained(pendings[q]);
        DrainedMember(pendings[q], e);
        var k: nat :| k < |pendings[q]| && pendings[q][k].w == e.w;
        assert Holds(e.w, q, k);
      }
      forall e | e in Drained(hi)
        ensures e.w != v
      {
        DrainedMember(hi, e);
        var k: nat :| k < |hi| && hi[k].w == e.w;
        assert hi[k] == pendings[p][w.pending + k];
        assert Holds(e.w, p, w.pending + k);
      }
    }

    static lemma Placed(h: seq<Event<Watcher>>, before: seq<Event<Watcher>>, x: Event<Watcher>, after: seq<Event<Watcher>>,
                        y: Event<Watcher>, rest: seq<Event<Watcher>>)
      requires x.Invoked? && y.Invoked? && x.w != y.w && y in after && forall e | e in before :: e.w != y.w
      ensures InvokedBefore(h + (before + ([x] + after) + rest), |h|, x.w, y.w)
    {
      var g := h + (before + ([x] + after) + rest);
      var a := |h| + |before|;
      var j :| 0 <= j < |after| && after[j] == y;
      assert g[a] == x && g[a + 1 + j] == y;
      forall k: nat | |h| <= k <= a
        ensures g[k].w != y.w
      {
        assert k < a ==> g[k] == before[k - |h|];
      }
    }

    /** Deliveries alone settle a watcher by invoking it. */
    lemma InvokedNotCleared(h: seq<Event<Watcher>>, stacks: seq<seq<Pending>>, w: Watcher)
      requires |stacks| == NUMPRI && history == h + AllDrained(stacks, NUMPRI) && SettledSince(history, |h|, w)
      ensures InvokedSince(history, |h|, w)
    {
      hide AllDrained;
      AllInvoked(stacks, NUMPRI);
      var k: nat :| |h| <= k < |history| && history[k].w == w && !history[k].Fed?;
      assert history[k] == AllDrained(stacks, NUMPRI)[k - |h|];
    }

    /** A round with callbacks that do nothing: all are invoked, of one priority the one nearer the top first. */
    method InvokeAll()
      requires PendingOk() && HistoryOk()
      modifies `pendings, `history, known`pending, pendingW`pending
      ensures PendingOk() && HistoryOk() && old(history) <= history && forall w | w in known :: w.pending == 0
      ensures forall w | w in known && old(w.pending) != 0 :: InvokedSince(history, |old(history)|, w)
      ensures forall w, v | w in known && v in known && w.priority == v.priority && old(w.pending) > old(v.pending) > 0 ::
                InvokedBefore(history, |old(history)|, w, v)
    {
      hide HistoryOk, AllDrained, SettledSince, InvokedSince, InvokedBefore, FedLate, OpsKnown;
      ghost var h, stacks := history, pendings;
      forall w, v | w in known && v in known && w.priority == v.priority && w.pending > v.pending > 0
        ensures InvokedBefore(h + AllDrained(stacks, NUMPRI), |h|, w, v)
      {
        TopFirst(h, w, v);
      }
      InvokePending([]);
      forall w | w in known && old(w.pending) != 0
        ensures InvokedSince(history, |h|, w)
      {
        InvokedNotCleared(h, stacks, w);
      }
    }

    static lemma Regroup<T>(a: seq<T>, b: seq<T>, c: seq<T>, d: seq<T>)
      ensures a + (b + c + d) == a + b + (c + d)
    {
    }

    /** What `verify_heap` asserts, and that a timer is active exactly while it is in the heap. */
    ghost predicate TimersOk()
      reads this`timers, this`timercnt, this`known, timers, known`active, known`at, known`repeat
    {
      && Sized(timers[..], timercnt) && Owners(timers[..], timercnt) <= known && HeapOk(timers[..], timercnt)
      && (forall w | w in known :: w.active == 0 || w in Owners(timers[..], timercnt))
    }

    static ghost predicate HeapOk(h: seq<Slot>, n: nat)
      requires Sized(h, n)
      reads Owners(h, n)`active, Owners(h, n)`at, Owners(h, n)`repeat
    {
      Single(h, n) && Linked(h, n) && Ordered(h, n) && Cached(h, n)
    }

    /** The keys in the heap are the times of the watchers, and no timer repeats with a negative interval. */
    static ghost predicate Cached(h: seq<Slot>, n: nat)
      requires Sized(h, n)
      reads Owners(h, n)`at, Owners(h, n)`repeat
    {
      forall i: nat | HEAP0 <= i < n + HEAP0 :: h[i].at == h[i].w.at && h[i].w.repeat >= 0.0
    }

    /** The timers in the heap. */
    ghost function Timers(): set<Watcher>
      requires Sized(timers[..], timercnt)
      reads this`timers, this`timercnt, timers
    {
      Owners(timers[..], timercnt)
    }

    /** `array_needsize` for the heap. */
    method NeedTimers(size: nat, filler: Watcher)
      modifies `timers
      ensures timers.Length >= size && timers.Length >= old(timers.Length)
      ensures timers[..old(timers.Length)] == old(timers[..])
      ensures timers == old(timers) || fresh(timers)
    {
      if size > timers.Length {
        var grown := NextSize(16, timers.Length, size);
        var bigger := new Slot[grown](_ => Entry(0.0, filler));
        var i := 0;
        while i < timers.Length
          invariant timers == old(timers) && timers[..] == old(timers[..])
          invariant i <= timers.Length && bigger[..i] == timers[..i]
        {
          bigger[i] := timers[i];
          i := i + 1;
        }
        timers := bigger;
      }
    }

    static lemma Pushed(h: seq<Slot>, r: seq<Slot>, n: nat, e: Slot)
      requires Sized(h, n) && Sized(r, n + 1) && r[..n + HEAP0] == h[..n + HEAP0] && r[n + HEAP0] == e
      requires Single(h, n) && Ordered(h, n) && e.w !in Owners(h, n)
      ensures Single(r, n + 1) && BrokenUp(r, n + 1, n + HEAP0) && Owners(r, n + 1) == Owners(h, n) + {e.w}
    {
      assert forall i: nat | i < n + HEAP0 :: r[i] == r[..n + HEAP0][i] == h[i];
      forall i: nat | HEAP0 <= i < n + HEAP0 ensures Above(r, i) {
        assert Above(h, i);
      }
      forall w | w in Owners(r, n + 1) ensures w in Owners(h, n) + {e.w} {
      }
      forall w | w in Owners(h, n) ensures w in Owners(r, n + 1) {
        var i: nat :| HEAP0 <= i < n + HEAP0 && h[i].w == w;
        assert r[i].w == w;
      }
      assert e.w in Owners(r, n + 1);
    }

    /** Permuting the slots keeps the keys in step with the watchers. */
    static lemma CachedPermuted(h: seq<Slot>, r: seq<Slot>, n: nat)
      requires Sized(h, n) && Cached(h, n) && Permuted(h, r, n)
      ensures Cached(r, n)
    {
      PermutedEntries(h, r, n);
      forall i: nat | HEAP0 <= i < n + HEAP0 ensures r[i].at == r[i].w.at && r[i].w.repeat >= 0.0 {
        assert r[i] in Entries(r, n);
        var j: nat :| HEAP0 <= j < n + HEAP0 && h[j] == r[i];
      }
    }

    /** Writes the new last slot and moves it up. */
    method InsertLast(w: Watcher)
      requires timercnt > 0 && Sized(timers[..], timercnt) && HeapOk(timers[..], timercnt - 1)
      requires w !in Owners(timers[..], timercnt - 1) && w.repeat >= 0.0
      modifies timers, Owners(timers[..], timercnt - 1)`active, w`active
      ensures HeapOk(timers[..], timercnt)
      ensures Owners(timers[..], timercnt) == old(Owners(timers[..], timercnt - 1)) + {w}
    {
      ghost var h := timers[..];
      var k := timercnt + HEAP0 - 1;
      timers[k] := Entry(w.at, w);
      ghost var r := timers[..];
      assert r[..k] == h[..k];
      Pushed(h, r, timercnt - 1, Entry(w.at, w));
      assert forall i: nat | HEAP0 <= i < k :: r[i] == h[i] == r[..k][i];
      assert LinkedBut(r, timercnt, k) && Cached(r, timercnt);
      MoveUp(k);
    }

    /** Moves an entry up when only the edge above it is out of order. */
    method MoveUp(k: nat)
      requires Sized(timers[..], timercnt) && HEAP0 <= k < timercnt + HEAP0
      requires Single(timers[..], timercnt) && LinkedBut(timers[..], timercnt, k) && Cached(timers[..], timercnt)
      requires BrokenUp(timers[..], timercnt, k)
      modifies timers, Owners(timers[..], timercnt)`active
      ensures HeapOk(timers[..], timercnt)
      ensures Owners(timers[..], timercnt) == old(Owners(timers[..], timercnt))
    {
      ghost var r := timers[..];
      SiftUpOrders(r, k, timercnt);
      SiftUpPermutes(r, k, timercnt);
      CachedPermuted(r, SiftUp(r, k), timercnt);
      hide Ordered, Permuted, Single, SiftUp, LinkedBut, BrokenUp;
      UpHeap(timers, k, timercnt);
    }

    /** The heap part of `ev_timer_start`: counts the timer, grows the array, writes the slot. */
    method Insert(w: Watcher)
      requires Sized(timers[..], timercnt) && HeapOk(timers[..], timercnt)
      requires w !in Owners(timers[..], timercnt) && w.repeat >= 0.0
      modifies `timers, `timercnt, timers, Owners(timers[..], timercnt)`active, w`active
      ensures Sized(timers[..], timercnt) && HeapOk(timers[..], timercnt) && (timers == old(timers) || fresh(timers))
      ensures Owners(timers[..], timercnt) == old(Owners(timers[..], timercnt)) + {w}
    {
      hide HeapOk;
      ghost var h, n := timers[..], timercnt;
      assert HeapOk(h, n) && w !in Owners(h, n);
      timercnt := timercnt + 1;
      w.active := timercnt + HEAP0 - 1;
      assert HeapOk(h, n);
      NeedTimers(w.active + 1, w);
      SamePrefix(h, timers[..], timercnt - 1);
      InsertLast(w);
    }

    /** `ev_timer_start` of a watcher of this loop, but for the priority. */
    method StartKnown(w: Watcher)
      requires TimersOk() && w in known && (w.active == 0 ==> w.repeat >= 0.0)
      modifies `timers, `timercnt, timers, known`active, w`at
      ensures TimersOk() && (timers == old(timers) || fresh(timers))
      ensures Timers() == old(Timers()) + {w}
      ensures w.at == if old(w.active) == 0 then old(w.at) + now else old(w.at)
    {
      hide HeapOk, Owners;
      if w.active != 0 {
        return;
      }
      InactiveIsOut(timers[..], timercnt, w);
      ghost var ts := Timers();
      w.at := w.at + now;
      Insert(w);
      assert forall v | v in known && v !in ts && v != w :: v.active == old(v.active);
    }

    static function Clamp(pri: int): int {
      if pri < EV_MINPRI then EV_MINPRI else if pri > EV_MAXPRI then EV_MAXPRI else pri
    }

    /** `pri_adjust`. */
    method PriAdjust(w: Watcher)
      modifies w`priority
      ensures w.priority == Clamp(old(w.priority)) && InRange(w.priority)
    {
      var pri := w.priority;
      pri := if pri < EV_MINPRI then EV_MINPRI else pri;
      pri := if pri > EV_MAXPRI then EV_MAXPRI else pri;
      w.priority := pri;
    }

    /** The watcher is in no stack and not in the heap, and nothing is due to it. */
    ghost predicate Spare(w: Watcher)
      reads this`history, w`pending, w`active
    {
      w != pendingW && w.pending == 0 && w.active == 0 && Due(history, w).None?
    }

    /** `ev_timer_start`. A watcher that is new to the loop may have any priority. */
    method TimerStart(w: Watcher)
      requires Ok() && (w in known || Spare(w)) && (w.active == 0 ==> w.repeat >= 0.0)
      modifies `timers, `timercnt, `known, timers, known`active, w`active, w`at, w`priority
      ensures Ok() && known == old(known) + {w} && (timers == old(timers) || fresh(timers))
      ensures Timers() == old(Timers()) + {w}
      ensures w.at == if old(w.active) == 0 then old(w.at) + now else old(w.at)
      ensures w.priority == if old(w.active) == 0 then Clamp(old(w.priority)) else old(w.priority)
    {
      hide HeapOk, Owners, PendingOk, HistoryOk, TimersOk, Due;
      if w.active != 0 {
        ActiveInHeap(w);
        return;
      }
      Enlist(w);
      StartKnown(w);
    }

    /** The priority is brought into range, and the watcher is one of this loop's. */
    method Enlist(w: Watcher)
      requires Ok() && (w in known || Spare(w)) && w.active == 0
      modifies `known, w`priority
      ensures Ok() && known == old(known) + {w} && Timers() == old(Timers()) && w.priority == Clamp(old(w.priority))
    {
      hide HeapOk, Owners, Lawful, Due;
      assert w in known ==> InRange(w.priority);
      PriAdjust(w);
      if w !in known {
        Adopt(w);
      }
    }

    lemma ActiveInHeap(w: Watcher)
      requires TimersOk() && w in known && w.active != 0
      ensures w in Timers()
    {
    }

    static lemma InactiveIsOut(h: seq<Slot>, n: nat, w: Watcher)
      requires Sized(h, n) && HeapOk(h, n) && w.active == 0
      ensures w !in Owners(h, n)
    {
    }

    static lemma SamePrefix(h: seq<Slot>, r: seq<Slot>, n: nat)
      requires Sized(h, n) && Sized(r, n) && r[..n + HEAP0] == h[..n + HEAP0] && HeapOk(h, n)
      ensures HeapOk(r, n) && Owners(r, n) == Owners(h, n)
    {
      assert forall i: nat | i < n + HEAP0 :: r[i] == r[..n + HEAP0][i] == h[i];
      forall i: nat | HEAP0 <= i < n + HEAP0 ensures Above(r, i) {
        assert Above(h, i);
      }
      assert forall i: nat | HEAP0 <= i < n + HEAP0 :: h[i].w in Owners(r, n) && r[i].w in Owners(h, n);
    }

    /** Moving the last entry into slot `k` leaves a heap that is broken at `k` only. */
    static lemma Replaced(h: seq<Slot>, n: nat, k: nat)
      requires Sized(h, n + 1) && HeapOk(h, n + 1) && HEAP0 <= k < n + HEAP0
      ensures
        var r := h[k := h[n + HEAP0]];
        && BrokenAt(r, n, k) && Single(r, n) && LinkedBut(r, n, k) && Cached(r, n)
        && Owners(r, n) == Owners(h, n + 1) - {h[k].w}
    {
      var r := h[k := h[n + HEAP0]];
      forall i: nat | HEAP0 <= i < n + HEAP0 ensures Above(h, i) {
      }
      ReplaceBreaks(h, n, k, h[n + HEAP0]);
      forall w | w in Owners(h, n + 1) && w != h[k].w ensures w in Owners(r, n) {
        var i: nat :| HEAP0 <= i < n + 1 + HEAP0 && h[i].w == w;
        if i == n + HEAP0 { assert r[k].w == w; } else { assert r[i].w == w; }
      }
      forall w | w in Owners(r, n) ensures w in Owners(h, n + 1) - {h[k].w} {
        var i: nat :| HEAP0 <= i < n + HEAP0 && r[i].w == w;
        assert h[if i == k then n + HEAP0 else i].w == w;
      }
    }

    static lemma DroppedLast(h: seq<Slot>, n: nat)
      requires Sized(h, n + 1) && HeapOk(h, n + 1)
      ensures HeapOk(h, n) && Owners(h, n) == Owners(h, n + 1) - {h[n + HEAP0].w}
    {
      forall i: nat | HEAP0 <= i < n + HEAP0 ensures Above(h, i) {
      }
      forall w | w in Owners(h, n + 1) && w != h[n + HEAP0].w ensures w in Owners(h, n) {
        var i: nat :| HEAP0 <= i < n + 1 + HEAP0 && h[i].w == w;
        assert i != n + HEAP0;
      }
    }

    /** Moves an entry to its place after its key was replaced. */
    method Rearrange(k: nat)
      requires Sized(timers[..], timercnt) && HEAP0 <= k < timercnt + HEAP0
      requires Single(timers[..], timercnt) && LinkedBut(timers[..], timercnt, k) && Cached(timers[..], timercnt)
      requires BrokenAt(timers[..], timercnt, k)
      modifies timers, Owners(timers[..], timercnt)`active
      ensures HeapOk(timers[..], timercnt)
      ensures Owners(timers[..], timercnt) == old(Owners(timers[..], timercnt))
    {
      ghost var r := timers[..];
      AdjustOrders(r, timercnt, k);
      CachedPermuted(r, Adjust(r, timercnt, k), timercnt);
      hide Ordered, Permuted, Single, Adjust, LinkedBut, BrokenAt;
      AdjustHeap(timers, timercnt, k);
    }

    /** Takes the entry in slot `k` out of the heap. */
    method RemoveSlot(k: nat)
      requires timercnt > 0 && Sized(timers[..], timercnt) && HeapOk(timers[..], timercnt)
      requires HEAP0 <= k < timercnt + HEAP0
      modifies timers, `timercnt, (Owners(timers[..], timercnt) - {timers[k].w})`active
      ensures timercnt == old(timercnt) - 1
      ensures Sized(timers[..], timercnt) && HeapOk(timers[..], timercnt)
      ensures Owners(timers[..], timercnt) == old(Owners(timers[..], timercnt) - {timers[k].w})
    {
      hide HeapOk;
      if k < timercnt + HEAP0 - 1 {
        MoveLastInto(k);
      } else {
        DroppedLast(timers[..], timercnt - 1);
        timercnt := timercnt - 1;
      }
    }

    /** The last entry goes where the removed one was. */
    method MoveLastInto(k: nat)
      requires timercnt > 0 && Sized(timers[..], timercnt) && HeapOk(timers[..], timercnt)
      requires HEAP0 <= k < timercnt + HEAP0 - 1
      modifies timers, `timercnt, (Owners(timers[..], timercnt) - {timers[k].w})`active
      ensures timercnt == old(timercnt) - 1
      ensures Sized(timers[..], timercnt) && HeapOk(timers[..], timercnt)
      ensures Owners(timers[..], timercnt) == old(Owners(timers[..], timercnt) - {timers[k].w})
    {
      hide HeapOk, BrokenAt, Single, LinkedBut, Cached;
      ghost var h := timers[..];
      timercnt := timercnt - 1;
      Replaced(h, timercnt, k);
      timers[k] := timers[timercnt + HEAP0];
      assert timers[..] == h[k := h[timercnt + HEAP0]];
      Rearrange(k);
    }

    /** `ev_timer_stop`. */
    method TimerStop(w: Watcher)
      requires PendingOk() && HistoryOk() && TimersOk() && w in known
      modifies `pendings, `history, w`pending, timers, `timercnt, known`active, w`at
      ensures PendingOk() && HistoryOk() && TimersOk() && w.pending == 0 && w.active == 0
      ensures history == old(history) + [Cleared(w)] && Heights() == old(Heights())
      ensures Timers() == old(Timers()) - {w}
      ensures w.at == if old(w.active) == 0 then old(w.at) else old(w.at) - now
    {
      hide HistoryOk, PendingOk, HeapOk, Owners, Heights;
      var revents := ClearPending(w);
      if w.active == 0 {
        InactiveIsOut(timers[..], timercnt, w);
        return;
      }
      ActiveSlot(timers[..], timercnt, w);
      ghost var ts := Owners(timers[..], timercnt);
      RemoveSlot(w.active);
      assert Timers() == ts - {w};
      assert forall v | v in known && v !in ts :: v.active == old(v.active);
      w.at := w.at - now;
      w.active := 0;
    }

    static lemma ActiveSlot(h: seq<Slot>, n: nat, w: Watcher)
      requires Sized(h, n) && HeapOk(h, n) && w in Owners(h, n)
      ensures HEAP0 <= w.active < n + HEAP0 && h[w.active].w == w
    {
    }

    /** Replacing the key in slot `k` by the new time of its watcher leaves a heap that is broken at `k` only. */
    static lemma Rekeyed(h: seq<Slot>, n: nat, k: nat, time: real)
      requires Sized(h, n) && HEAP0 <= k < n + HEAP0
      requires Single(h, n) && Linked(h, n) && Ordered(h, n)
      requires h[k].w.at == time && h[k].w.repeat >= 0.0
      requires forall i: nat | HEAP0 <= i < n + HEAP0 && i != k :: h[i].at == h[i].w.at && h[i].w.repeat >= 0.0
      ensures
        var r := h[k := Entry(time, h[k].w)];
        && BrokenAt(r, n, k) && Single(r, n) && LinkedBut(r, n, k) && Cached(r, n)
        && Owners(r, n) == Owners(h, n)
    {
      var r := h[k := Entry(time, h[k].w)];
      ReplaceBreaks(h, n, k, Entry(time, h[k].w));
      assert forall i: nat | HEAP0 <= i < n + HEAP0 :: r[i].w == h[i].w;
      assert forall i: nat | HEAP0 <= i < n + HEAP0 :: h[i].w in Owners(r, n) && r[i].w in Owners(h, n);
    }

    /** Gives an active timer a new time. */
    method Reschedule(w: Watcher, time: real)
      requires TimersOk() && w in Timers()
      modifies timers, known`active, w`at
      ensures TimersOk() && Timers() == old(Timers()) && w.at == time
      ensures forall v | v in known && v !in Timers() :: v.active == old(v.active)
    {
      ghost var h := timers[..];
      ActiveSlot(h, timercnt, w);
      ghost var ts := Owners(h, timercnt);
      w.at := time;
      Rekeyed(h, timercnt, w.active, time);
      hide HeapOk, Owners, BrokenAt, Single, LinkedBut, Cached;
      timers[w.active] := Entry(w.at, w);
      assert timers[..] == h[w.active := Entry(time, w)];
      Rearrange(w.active);
      assert Timers() == ts;
      assert forall v | v in known && v !in ts :: v.active == old(v.active);
    }

    /** `ev_timer_again`. */
    method TimerAgain(w: Watcher)
      requires Ok() && (w in known || Spare(w)) && w.repeat >= 0.0
      modifies `pendings, `history, w`pending, `timers, timers, `timercnt, `known, known`active, w`active, w`at, w`priority
      ensures Ok() && (timers == old(timers) || fresh(timers))
      ensures known == old(known) + if w.repeat > 0.0 then {w} else {}
      ensures w.priority == if w.repeat > 0.0 && old(w.active) == 0 then Clamp(old(w.priority)) else old(w.priority)
      ensures w.repeat > 0.0 ==> Timers() == old(Timers()) + {w} && w.at == now + w.repeat
      ensures w.repeat > 0.0 ==> history == old(history) && pendings == old(pendings) && w.pending == old(w.pending)
      ensures w.repeat == 0.0 ==> Timers() == old(Timers()) - {w}
      ensures w.repeat == 0.0 && old(w.active) == 0 ==> w.at == old(w.at) && history == old(history)
      ensures w.repeat == 0.0 && old(w.active) != 0 ==> w.at == old(w.at) - now && w.pending == 0
      ensures w.repeat == 0.0 && old(w.active) != 0 ==> history == old(history) + [Cleared(w)]
    {
      hide HistoryOk, PendingOk, HeapOk, Owners;
      if w.active != 0 {
        if w.repeat != 0.0 {
          Reschedule(w, now + w.repeat);
        } else {
          TimerStop(w);
        }
      } else {
        InactiveIsOut(timers[..], timercnt, w);
        if w.repeat != 0.0 {
          w.at := w.repeat;
          TimerStart(w);
        }
      }
    }

    static lemma RootFirst(h: seq<Slot>, n: nat, v: Watcher)
      requires Sized(h, n) && HeapOk(h, n) && v in Owners(h, n)
      ensures n > 0 && h[HEAP0].at == h[HEAP0].w.at <= v.at && h[HEAP0].w in Owners(h, n) && h[HEAP0].w.repeat >= 0.0
    {
      ActiveSlot(h, n, v);
      RootIsLeast(h, n, v.active);
    }

    /** The body of the loop in `timers_reify`: reschedules or stops the timer at the root. */
    method ExpireRoot() returns (w: Watcher)
      requires PendingOk() && HistoryOk() && TimersOk() && timercnt > 0 && timers[HEAP0].at < now
      modifies `pendings, `history, timers, `timercnt, known`active, timers[HEAP0].w`at, timers[HEAP0].w`pending
      ensures PendingOk() && HistoryOk() && TimersOk()
      ensures w == old(timers[HEAP0].w) && w in old(Timers()) && old(w.at) < now && w.repeat >= 0.0
      ensures forall v | v in old(Timers()) :: old(w.at) <= old(v.at)
      ensures w.repeat > 0.0 ==> Timers() == old(Timers()) && w.at == Max(old(w.at) + w.repeat, now)
      ensures w.repeat > 0.0 ==> history == old(history) && w.pending == old(w.pending)
      ensures w.repeat == 0.0 ==> Timers() == old(Timers()) - {w} && w.active == 0 && w.at == old(w.at) - now
      ensures w.repeat == 0.0 ==> history == old(history) + [Cleared(w)] && w.pending == 0
    {
      w := timers[HEAP0].w;
      assert w in Timers();
      forall v | v in Timers() ensures timers[HEAP0].at == w.at <= v.at && w.repeat >= 0.0 {
        RootFirst(timers[..], timercnt, v);
      }
      hide HistoryOk, PendingOk, HeapOk, Owners;
      if w.repeat != 0.0 {
        Reschedule(w, Max(w.at + w.repeat, now));
      } else {
        TimerStop(w);
      }
    }

    /** The feeds of a list from its last element to its first. */
    static ghost function FeedsBack(ws: seq<Watcher>, revents: bv32): seq<Event<Watcher>> {
      if ws == [] then [] else [Fed(ws[|ws| - 1], revents)] + FeedsBack(ws[..|ws| - 1], revents)
    }

    /** `feed_reverse_done`: what was queued first ends up nearer the top of its stack. */
    method FeedReverseDone(ws: seq<Watcher>, revents: bv32)
      requires PendingOk() && HistoryOk() && Distinct(ws) && forall w | w in ws :: w in known
      modifies `pendings, `history, ws`pending
      ensures PendingOk() && HistoryOk()
      ensures history == old(history) + FeedsBack(ws, revents)
      ensures forall w | w in ws :: w.pending != 0
      ensures forall i: nat, j: nat | i < j < |ws| && ws[i].priority == ws[j].priority
                && old(ws[i].pending) == 0 && old(ws[j].pending) == 0 :: ws[i].pending > ws[j].pending
    {
      hide HistoryOk, Heights, PendingOk, FeedsBack;
      var k := |ws|;
      assert ws[..k] == ws;
      while k > 0
        invariant 0 <= k <= |ws| && PendingOk() && HistoryOk()
        invariant history + FeedsBack(ws[..k], revents) == old(history) + FeedsBack(ws, revents)
        invariant forall i: nat | i < k :: ws[i].pending == old(ws[i].pending)
        invariant forall i: nat | k <= i < |ws| :: ws[i].pending != 0
        invariant forall i: nat, j: nat | k <= i < j < |ws| && ws[i].priority == ws[j].priority
                    && old(ws[i].pending) == 0 && old(ws[j].pending) == 0 :: ws[i].pending > ws[j].pending
      {
        k := k - 1;
        FeedsStep(history, ws, k, revents);
        FeedOnTop(ws[k], revents);
      }
      FeedsNone(history, ws, revents);
    }

    static lemma FeedsStep(h: seq<Event<Watcher>>, ws: seq<Watcher>, k: nat, revents: bv32)
      requires k < |ws|
      ensures h + FeedsBack(ws[..k + 1], revents) == h + [Fed(ws[k], revents)] + FeedsBack(ws[..k], revents)
    {
      assert ws[..k + 1][..k] == ws[..k];
    }

    static lemma FeedsNone(h: seq<Event<Watcher>>, ws: seq<Watcher>, revents: bv32)
      ensures h + FeedsBack(ws[..0], revents) == h
    {
    }

    /** A watcher that was not pending ends up above every pending watcher of its priority. */
    method FeedOnTop(w: Watcher, revents: bv32)
      requires PendingOk() && HistoryOk() && w in known
      modifies `pendings, `history, w`pending
      ensures PendingOk() && HistoryOk()
      ensures history == old(history) + [Fed(w, revents)]
      ensures w.pending != 0
      ensures forall v | v in known && v != w && v.priority == w.priority && old(w.pending) == 0 :: w.pending > v.pending
    {
      hide HistoryOk, Heights;
      TallestSlots();
      FeedEvent(w, revents);
    }

    /** No back-pointer exceeds the height of its stack. */
    lemma TallestSlots()
      requires PendingOk()
      ensures |pendings| == NUMPRI && forall w | w in known :: InRange(w.priority)
      ensures forall w | w in known :: w.pending <= Heights()[w.priority - EV_MINPRI]
    {
      forall w | w in known ensures w.pending <= Heights()[w.priority - EV_MINPRI] {
        assert InRange(w.priority);
      }
    }

    /** Everything the loop keeps between operations. */
    ghost predicate Ok()
      reads this`pendings, this`known, this`history, this`timers, this`timercnt, timers
      reads known`pending, known`priority, known`active, known`at, known`repeat
    {
      PendingOk() && HistoryOk() && TimersOk()
    }

    /** The timers in the heap, and the times and back-pointers of all watchers. */
    ghost function View(): Snapshot<Watcher>
      requires Ok()
      reads this`pendings, this`known, this`history, this`timers, this`timercnt, timers
      reads known`pending, known`priority, known`active, known`at, known`repeat
    {
      Snapshot(Timers(), map w | w in known :: w.at, map w | w in known :: w.pending)
    }

    ghost function Repeats(): map<Watcher, real>
      reads this`known, known`repeat
    {
      map w | w in known :: w.repeat
    }

    /** The loop condition of `timers_reify`. */
    predicate RootDue()
      requires Ok()
      reads this`pendings, this`known, this`history, this`timers, this`timercnt, timers, this`now
      reads known`pending, known`priority, known`active, known`at, known`repeat
    {
      timercnt > 0 && timers[HEAP0].at < now
    }

    lemma RootIsDue()
      requires Ok() && RootDue()
      ensures timercnt > 0 && HEAP0 < timers.Length && timers[HEAP0].w in known && timers[HEAP0].w in Timers()
    {
      assert timers[HEAP0].w in Timers();
    }

    lemma NoneDue()
      requires Ok() && !RootDue()
      ensures forall w | w in View().timers :: w in known && w.at >= now
    {
      forall w | w in Timers() ensures w.at >= now {
        RootFirst(timers[..], timercnt, w);
      }
    }

    /** One expiry, on the view of the loop. */
    method ExpireView() returns (w: Watcher)
      requires Ok() && RootDue()
      modifies `pendings, `history, timers, `timercnt, known`active, known`at, known`pending
      ensures Ok() && Repeats() == old(Repeats()) && w in known && Repeats()[w] >= 0.0
      ensures w in old(View()).timers && old(View()).at[w] < now
      ensures forall x | x in old(View()).timers :: x in known && old(View()).at[w] <= old(View()).at[x]
      ensures View() == ExpireOne(old(View()), w, Repeats()[w], now)
      ensures history == old(history) + Clear(Repeats(), w)
    {
      hide HistoryOk, PendingOk, HeapOk, Owners, Max;
      RootIsDue();
      ghost var p := View();
      w := ExpireRoot();
      ghost var r := View();
      ChangedView(p, r, w, w.at, w.pending);
    }

    /** Only one watcher's entries have changed. */
    static lemma ChangedView(p: Snapshot<Watcher>, r: Snapshot<Watcher>, w: Watcher, at: real, pending: int)
      requires p.at.Keys == r.at.Keys && p.pending.Keys == r.pending.Keys && w in r.at && w in r.pending
      requires forall x | x in r.at && x != w :: r.at[x] == p.at[x]
      requires forall x | x in r.pending && x != w :: r.pending[x] == p.pending[x]
      requires r.at[w] == at && r.pending[w] == pending
      ensures r.at == p.at[w := at] && r.pending == p.pending[w := pending]
    {
    }

    /** Stopping a non-repeating timer clears it. */
    static ghost function Clear(repeat: map<Watcher, real>, w: Watcher): seq<Event<Watcher>>
      requires w in repeat
    {
      if repeat[w] == 0.0 then [Cleared(w)] else []
    }

    static ghost function Clears(repeat: map<Watcher, real>, ws: seq<Watcher>): seq<Event<Watcher>>
      requires forall w | w in ws :: w in repeat
    {
      if ws == [] then [] else Clears(repeat, ws[..|ws| - 1]) + Clear(repeat, ws[|ws| - 1])
    }

    /** The timers in `ws` have expired since the view was `v` and the history `h`. */
    ghost predicate Progress(v: Snapshot<Watcher>, h: seq<Event<Watcher>>, repeat: map<Watcher, real>, ws: seq<Watcher>)
      requires Ok()
      reads this`pendings, this`known, this`history, this`timers, this`timercnt, timers, this`now
      reads known`pending, known`priority, known`active, known`at, known`repeat
    {
      && Repeats() == repeat && Wellformed(v, repeat) && v.at.Keys == known
      && InOrder(v, ws, now) && (forall w | w in ws :: w in repeat && repeat[w] >= 0.0)
      && View() == ExpireAll(v, repeat, ws, now) && history == h + Clears(repeat, ws)
    }

    /** One more timer expires. */
    method ExpireNext(ghost v: Snapshot<Watcher>, ghost h: seq<Event<Watcher>>, ghost repeat: map<Watcher, real>,
                      ghost ws: seq<Watcher>)
      returns (w: Watcher)
      requires Ok() && RootDue() && Progress(v, h, repeat, ws)
      modifies `pendings, `history, timers, `timercnt, known`active, known`at, known`pending
      ensures Ok() && Progress(v, h, repeat, ws + [w]) && w in v.timers && w !in ws
    {
      hide Ok, RootDue, View, Repeats, InOrder;
      w := ExpireView();
      NextInOrder(v, repeat, ws, now, w);
      ClearsNext(h, repeat, ws, w);
    }

    static lemma ClearsNext(h: seq<Event<Watcher>>, repeat: map<Watcher, real>, ws: seq<Watcher>, w: Watcher)
      requires w in repeat && forall x | x in ws :: x in repeat
      ensures h + Clears(repeat, ws) + Clear(repeat, w) == h + Clears(repeat, ws + [w])
    {
      assert (ws + [w])[..|ws|] == ws;
    }

    /** The expiry loop of `timers_reify`. */
    method ExpireDue() returns (ws: seq<Watcher>)
      requires Ok()
      modifies `pendings, `history, timers, `timercnt, known`active, known`at, known`pending
      ensures Ok() && Progress(old(View()), old(history), old(Repeats()), ws)
      ensures forall w | w in View().timers :: w in known && w.at >= now
    {
      hide Ok, RootDue, View, Repeats, InOrder, Progress;
      ws := [];
      ghost var v, h, repeat := View(), history, Repeats();
      NoProgress();
      ghost var left := v.timers;
      while RootDue()
        invariant Ok() && Progress(v, h, repeat, ws)
        invariant left == v.timers - (set w | w in ws)
        decreases left
      {
        var w := ExpireNext(v, h, repeat, ws);
        assert forall x :: x in ws + [w] <==> x in ws || x == w;
        ws := ws + [w];
        left := left - {w};
      }
      NoneDue();
    }

    lemma NoProgress()
      requires Ok()
      ensures Progress(View(), history, Repeats(), [])
    {
      assert history + Clears(Repeats(), []) == history;
    }

    ghost function Priorities(): map<Watcher, int>
      reads this`known, known`priority
    {
      map w | w in known :: w.priority
    }

    /** Feeds the expired timers; neither times nor the heap change. */
    method FeedExpired(ws: seq<Watcher>)
      requires Ok() && Distinct(ws) && forall w | w in ws :: w in known
      modifies `pendings, `history, ws`pending
      ensures Ok() && history == old(history) + FeedsBack(ws, EV_TIMEOUT)
      ensures View().timers == old(View()).timers && View().at == old(View()).at && Repeats() == old(Repeats())
      ensures FedInReverse(old(View()).pending, View().pending, Priorities(), ws)
    {
      hide PendingOk, HistoryOk, TimersOk, FeedsBack;
      FeedReverseDone(ws, EV_TIMEOUT);
    }

    /** `timers_reify`. */
    method TimersReify() returns (ws: seq<Watcher>)
      requires Ok()
      modifies `pendings, `history, timers, `timercnt, known`active, known`at, known`pending
      ensures Ok() && Reified(old(View()), View(), Repeats(), Priorities(), now, ws)
      ensures forall w | w in ws :: w in Repeats()
      ensures history == old(history) + Clears(Repeats(), ws) + FeedsBack(ws, EV_TIMEOUT)
    {
      hide Ok, View, Repeats, RootDue, Priorities, Reified, FeedsBack, Clears;
      ghost var v := View();
      ViewFields();
      ws := ExpireDue();
      ghost var q := View();
      ViewFields();
      FeedExpired(ws);
      ReifyResult(v, q, View(), Repeats(), Priorities(), now, ws);
    }

    lemma ViewFields()
      requires Ok()
      ensures View().at.Keys == View().pending.Keys == known && View().timers <= known
      ensures forall w | w in known :: View().at[w] == w.at && View().pending[w] == w.pending
    {
    }

    static lemma {:induction false} OnlyFeeds(ws: seq<Watcher>, revents: bv32)
      ensures forall e | e in FeedsBack(ws, revents) :: e.Fed?
    {
      if ws != [] { OnlyFeeds(ws[..|ws| - 1], revents); }
    }

    static lemma {:induction false} OnlyClears(repeat: map<Watcher, real>, ws: seq<Watcher>)
      requires forall w | w in ws :: w in repeat
      ensures forall e | e in Clears(repeat, ws) :: e.Cleared?
    {
      if ws != [] { OnlyClears(repeat, ws[..|ws| - 1]); }
    }

    /** Expiring timers invokes nobody. */
    static lemma NoneInvoked(h: seq<Event<Watcher>>, g: seq<Event<Watcher>>, repeat: map<Watcher, real>, ws: seq<Watcher>)
      requires (forall w | w in ws :: w in repeat) && g == h + Clears(repeat, ws) + FeedsBack(ws, EV_TIMEOUT)
      ensures forall k: nat | |h| <= k < |g| :: !g[k].Invoked?
    {
      OnlyFeeds(ws, EV_TIMEOUT);
      OnlyClears(repeat, ws);
      hide FeedsBack, Clears;
      var c, f := Clears(repeat, ws), FeedsBack(ws, EV_TIMEOUT);
      forall k: nat | |h| <= k < |g|
        ensures !g[k].Invoked?
      {
        assert g[k] in if k < |h| + |c| then c else f;
      }
    }

    /** How the expired timers stand when the round begins. */
    lemma ReadyInOrder(v: Snapshot<Watcher>, ws: seq<Watcher>)
      requires Ok() && Reified(v, View(), Repeats(), Priorities(), now, ws)
      ensures DueListed(v, now, ws) && v.pending.Keys == known && forall w | w in ws :: w in known && w.pending > 0
      ensures forall i: nat, j: nat | i < j < |ws| && ws[i].priority == ws[j].priority
                && NewlyPending(v, Repeats(), ws[i]) && NewlyPending(v, Repeats(), ws[j]) ::
                ws[i].pending > ws[j].pending
    {
      ViewFields();
      forall w | w in ws
        ensures w in known && w.pending > 0 && Priorities()[w] == w.priority && View().pending[w] == w.pending
      {
        assert w in Priorities();
      }
    }

    /**
     * `timers_reify` and then a round in which the callbacks do nothing: every timer that was due is
     * invoked, and of two with one priority, neither pending before, the earlier first.
     */
    method ExpireAndInvoke() returns (ws: seq<Watcher>)
      requires Ok()
      modifies `pendings, `history, timers, `timercnt, known`active, known`at, known`pending, pendingW`pending
      ensures Ok() && DueListed(old(View()), now, ws) && old(View()).pending.Keys == known
      ensures forall w | w in ws :: w in known && w.pending == 0 && InvokedSince(history, |old(history)|, w)
      ensures forall i: nat, j: nat | i < j < |ws| && ws[i].priority == ws[j].priority
                && NewlyPending(old(View()), Repeats(), ws[i]) && NewlyPending(old(View()), Repeats(), ws[j]) ::
                InvokedBefore(history, |old(history)|, ws[i], ws[j])
    {
      hide HeapOk, Owners, PendingOk, HistoryOk, Reified, DueListed, InvokedBefore, InvokedSince, Clears, FeedsBack;
      ghost var v, from := View(), |history|;
      ws := TimersReify();
      ghost var mid := history;
      NoneInvoked(old(history), mid, Repeats(), ws);
      ReadyInOrder(v, ws);
      InvokeAll();
      assert forall k: nat | from <= k < |mid| :: history[k] == mid[k];
      forall w | w in ws
        ensures InvokedSince(history, from, w)
      {
        FromEarlier(history, from, |mid|, w, w);
      }
      forall w, x | w in ws && x in ws && InvokedBefore(history, |mid|, w, x)
        ensures InvokedBefore(history, from, w, x)
      {
        FromEarlier(history, from, |mid|, w, x);
      }
    }

    /** A watcher that has just been initialised is handed to the loop. */
    ghost method Adopt(w: Watcher)
      requires Ok() && Spare(w) && InRange(w.priority)
      modifies `known
      ensures Ok() && known == old(known) + {w} && Timers() == old(Timers())
    {
      hide HeapOk, Lawful, Due, Owners, PendingOk, TimersOk;
      AdoptPending(w);
    }

    ghost method AdoptPending(w: Watcher)
      requires PendingOk() && HistoryOk() && TimersOk()
      requires Spare(w) && InRange(w.priority)
      modifies `known
      ensures PendingOk() && HistoryOk() && TimersOk() && known == old(known) + {w}
    {
      hide HeapOk, Lawful, Due, Owners;
      known := known + {w};
    }
  }
}
