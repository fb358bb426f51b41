/**
 * Waking the loop from other threads and from signal handlers: any number of senders and the
 * loop's pipe callback, interleaved one memory access or system call at a time.
 */
module WakeUp {
  datatype Chan = Signals | Asyncs

  /** A signal number or an async watcher. */
  datatype Item = Item(chan: Chan, id: nat)

  /** A sender, by what it does next: test the flag, raise it, write to the pipe. */
  datatype Sender = Idle | Check(item: Item) | Raise(chan: Chan) | Write

  /**
   * The loop, by what it does next: test a flag, clear it, look at the item below `left`,
   * clear that item's mark, feed its event.
   */
  datatype Pc = Outside | Test(chan: Chan) | Clear(chan: Chan) | Scan(chan: Chan, left: nat)
              | Drop(chan: Chan, left: nat) | Feed(chan: Chan, left: nat)

  /**
   * `count` is the eventfd's counter or the bytes in the pipe; `sent` are the marked items;
   * `owed` are the items sent since they were last fed.
   */
  datatype State = State(
    eventfd: bool, capacity: nat, count: nat, flags: set<Chan>, signals: seq<nat>, asyncs: seq<nat>,
    sent: set<Item>, owed: set<Item>, senders: seq<Sender>, pc: Pc)
  {
    function Ids(c: Chan): seq<nat> {
      if c == Signals then signals else asyncs
    }

    ghost predicate Listed(x: Item) {
      x.id in Ids(x.chan)
    }

    predicate Readable() {
      count > 0
    }
  }

  /** What happens next: a sender starts or goes on, the loop goes on, its owner starts or stops a watcher. */
  datatype Action = Send(sender: nat, item: Item) | Sending(sender: nat) | Looping | Start(id: nat) | Stop(id: nat)

  /** `ev_async_send`, `ev_sighandler`: mark the item. */
  function SendStep(s: State, k: nat, x: Item): State
    requires k < |s.senders|
  {
    if s.senders[k] != Idle then s
    else s.(sent := s.sent + {x}, owed := s.owed + {x}, senders := s.senders[k := Check(x)])
  }

  /** `evpipe_write`, one step. */
  function SendingStep(s: State, k: nat): State
    requires k < |s.senders|
  {
    match s.senders[k]
    case Idle => s
    case Check(x) => s.(senders := s.senders[k := if x.chan in s.flags then Idle else Raise(x.chan)])
    case Raise(c) => s.(flags := s.flags + {c}, senders := s.senders[k := Write])
    case Write => s.(count := if s.count < s.capacity then s.count + 1 else s.count, senders := s.senders[k := Idle])
  }

  function AfterChan(c: Chan): Pc {
    if c == Signals then Test(Asyncs) else Outside
  }

  /** `pipecb`, one step. */
  function LoopStep(s: State): State {
    match s.pc
    case Outside => s.(count := if s.eventfd || s.count == 0 then 0 else s.count - 1, pc := Test(Signals))
    case Test(c) => s.(pc := if c in s.flags then Clear(c) else AfterChan(c))
    case Clear(c) => s.(flags := s.flags - {c}, pc := Scan(c, |s.Ids(c)|))
    case Scan(c, left) =>
      if left == 0 || left > |s.Ids(c)| then s.(pc := AfterChan(c))
      else if Item(c, s.Ids(c)[left - 1]) in s.sent then s.(pc := Drop(c, left))
      else s.(pc := Scan(c, left - 1))
    case Drop(c, left) =>
      if left == 0 || left > |s.Ids(c)| then s.(pc := AfterChan(c))
      else s.(sent := s.sent - {Item(c, s.Ids(c)[left - 1])}, pc := Feed(c, left))
    case Feed(c, left) =>
      if left == 0 || left > |s.Ids(c)| then s.(pc := AfterChan(c))
      else s.(owed := s.owed - {Item(c, s.Ids(c)[left - 1])}, pc := Scan(c, left - 1))
  }

  /** Where `id` stands in the array, its length if nowhere. */
  function IndexOf(ids: seq<nat>, id: nat): (k: nat)
    ensures k <= |ids|
    ensures k < |ids| ==> ids[k] == id
    ensures k == |ids| <==> id !in ids
  {
    if ids == [] then 0 else if ids[0] == id then 0 else 1 + IndexOf(ids[1..], id)
  }

  /** `ev_async_start` and `ev_async_stop`: append, or put the last one in its place. */
  function StartStep(s: State, id: nat): State {
    if s.pc != Outside || id in s.asyncs then s else s.(asyncs := s.asyncs + [id])
  }

  function StopStep(s: State, id: nat): State {
    if s.pc != Outside || id !in s.asyncs then s
    else
      var last := |s.asyncs| - 1;
      s.(asyncs := s.asyncs[IndexOf(s.asyncs, id) := s.asyncs[last]][..last])
  }

  function Step(s: State, a: Action): State {
    match a
    case Send(k, x) => if k < |s.senders| then SendStep(s, k, x) else s
    case Sending(k) => if k < |s.senders| then SendingStep(s, k) else s
    case Looping => LoopStep(s)
    case Start(id) => StartStep(s, id)
    case Stop(id) => StopStep(s, id)
  }

  function Run(s: State, acts: seq<Action>): State
    decreases acts
  {
    if acts == [] then s else Run(Step(s, acts[0]), acts[1..])
  }

  ghost predicate Initial(s: State) {
    && s.capacity > 0 && s.count == 0 && s.flags == {} && s.asyncs == [] && s.sent == {} && s.owed == {}
    && s.pc == Outside && (forall k: nat | k < |s.senders| :: s.senders[k] == Idle)
  }

  ghost predicate Quiet(s: State) {
    s.pc == Outside && forall k: nat | k < |s.senders| :: s.senders[k] == Idle
  }

  /** Once nobody is in the middle of anything, an item that is owed an event has left the loop's fd readable. */
  ghost predicate NoLostWakeUp(s: State) {
    Quiet(s) && (exists x :: x in s.sent + s.owed && s.Listed(x)) ==> s.Readable()
  }

  /** The callback has yet to test this flag. */
  ghost predicate WillTest(pc: Pc, c: Chan) {
    match pc
    case Outside => false
    case Test(d) => d == Signals || c == Asyncs
    case Clear(d) => d == c || (d == Signals && c == Asyncs)
    case Scan(d, _) => d == Signals && c == Asyncs
    case Drop(d, _) => d == Signals && c == Asyncs
    case Feed(d, _) => d == Signals && c == Asyncs
  }

  /** How many of a channel's items the callback will still look at, without another test. */
  ghost function Ahead(pc: Pc, c: Chan): nat {
    match pc
    case Scan(d, left) => if d == c then left else 0
    case Drop(d, left) => if d == c then left else 0
    case Feed(d, left) => if d == c && left > 0 then left - 1 else 0
    case _ => 0
  }

  /** `id` is among the first `n`. */
  ghost predicate Below(ids: seq<nat>, n: nat, id: nat) {
    exists j: nat :: j < n && j < |ids| && ids[j] == id
  }

  ghost predicate WillScan(ids: seq<nat>, pc: Pc, x: Item) {
    Below(ids, Ahead(pc, x.chan), x.id)
  }

  ghost predicate Feeding(ids: seq<nat>, pc: Pc, x: Item) {
    pc.Feed? && pc.chan == x.chan && 0 < pc.left <= |ids| && ids[pc.left - 1] == x.id
  }

  ghost predicate Writing(senders: seq<Sender>) {
    exists k: nat :: k < |senders| && senders[k] == Write
  }

  ghost predicate Raises(sender: Sender, c: Chan) {
    sender == Raise(c) || (sender.Check? && sender.item.chan == c)
  }

  /** Some sender is on its way to raise the channel's flag, unless it finds it raised. */
  ghost predicate Raising(senders: seq<Sender>, c: Chan) {
    exists k: nat :: k < |senders| && Raises(senders[k], c)
  }

  ghost predicate InBounds(s: State) {
    match s.pc
    case Scan(c, left) => left <= |s.Ids(c)|
    case Drop(c, left) => 0 < left <= |s.Ids(c)|
    case Feed(c, left) => 0 < left <= |s.Ids(c)|
    case _ => true
  }

  /** A raised flag will be seen. */
  ghost predicate FlagSeen(s: State, c: Chan) {
    c in s.flags ==> s.Readable() || Writing(s.senders) || WillTest(s.pc, c)
  }

  /** A marked item will be looked at. */
  ghost predicate MarkSeen(s: State, x: Item) {
    x in s.sent && s.Listed(x) ==>
      x.chan in s.flags || WillScan(s.Ids(x.chan), s.pc, x) || Raising(s.senders, x.chan)
  }

  /** An item owed an event is marked, or is being fed. */
  ghost predicate DebtSeen(s: State, x: Item) {
    x in s.owed ==> x in s.sent || Feeding(s.Ids(x.chan), s.pc, x)
  }

  ghost predicate Inv(s: State) {
    && s.capacity > 0 && InBounds(s)
    && (forall c :: FlagSeen(s, c))
    && (forall x :: MarkSeen(s, x))
    && (forall x :: DebtSeen(s, x))
  }

  /**
   * A start is safe when the watcher carries no mark of an earlier life, or when the callback will look at
   * the marks again: the flag is raised, or some sender is about to raise it.
   */
  ghost predicate SafeToStart(s: State, id: nat) {
    Item(Asyncs, id) !in s.sent || Asyncs in s.flags || Raising(s.senders, Asyncs)
  }

  /** The action does not start a watcher when that is not safe. */
  ghost predicate CleanStart(s: State, a: Action) {
    a.Start? && s.pc == Outside && a.id !in s.asyncs ==> SafeToStart(s, a.id)
  }

  /** The steps of one sender leave what the others do next. */
  lemma OtherSenders(senders: seq<Sender>, k: nat, next: Sender, c: Chan)
    requires k < |senders|
    ensures Writing(senders) ==> Writing(senders[k := next]) || senders[k] == Write
    ensures Raising(senders, c) ==> Raising(senders[k := next], c) || Raises(senders[k], c)
    ensures next == Write ==> Writing(senders[k := next])
    ensures Raises(next, c) ==> Raising(senders[k := next], c)
  {
    var t := senders[k := next];
    assert t[k] == next;
    if Writing(senders) {
      var j: nat :| j < |senders| && senders[j] == Write;
      assert j != k ==> t[j] == Write;
    }
    if Raising(senders, c) {
      var j: nat :| j < |senders| && Raises(senders[j], c);
      assert j != k ==> t[j] == senders[j];
    }
  }

  lemma SendKeeps(s: State, k: nat, x: Item)
    requires Inv(s) && k < |s.senders|
    ensures Inv(SendStep(s, k, x))
  {
    var t := SendStep(s, k, x);
    if s.senders[k] == Idle {
      forall c
        ensures FlagSeen(t, c)
      {
        assert FlagSeen(s, c);
        OtherSenders(s.senders, k, Check(x), c);
      }
      forall y
        ensures MarkSeen(t, y) && DebtSeen(t, y)
      {
        assert MarkSeen(s, y) && DebtSeen(s, y);
        OtherSenders(s.senders, k, Check(x), y.chan);
      }
    }
  }

  lemma SendingKeeps(s: State, k: nat)
    requires Inv(s) && k < |s.senders|
    ensures Inv(SendingStep(s, k))
  {
    var t := SendingStep(s, k);
    var next := t.senders[k];
    forall c
      ensures FlagSeen(t, c)
    {
      assert FlagSeen(s, c);
      OtherSenders(s.senders, k, next, c);
    }
    forall y
      ensures MarkSeen(t, y) && DebtSeen(t, y)
    {
      assert MarkSeen(s, y) && DebtSeen(s, y);
      OtherSenders(s.senders, k, next, y.chan);
    }
  }

  /** The callback passes by a listed item only without its mark. */
  lemma ScanMoves(s: State, x: Item)
    requires InBounds(s) && s.Listed(x)
    ensures var t := LoopStep(s);
            WillScan(s.Ids(x.chan), s.pc, x) ==> WillScan(t.Ids(x.chan), t.pc, x) || x !in t.sent
    ensures s.pc == Clear(x.chan) ==> WillScan(s.Ids(x.chan), LoopStep(s).pc, x)
  {
    var ids := s.Ids(x.chan);
    if s.pc == Clear(x.chan) {
      var j: nat :| j < |ids| && ids[j] == x.id;
      assert Below(ids, |ids|, x.id);
    }
    if WillScan(ids, s.pc, x) {
      var j: nat :| j < Ahead(s.pc, x.chan) && j < |ids| && ids[j] == x.id;
      var t := LoopStep(s);
      if j < Ahead(t.pc, x.chan) {
        assert Below(ids, Ahead(t.pc, x.chan), x.id);
      }
    }
  }

  lemma LoopKeepsMark(s: State, x: Item)
    requires InBounds(s) && MarkSeen(s, x)
    ensures MarkSeen(LoopStep(s), x)
  {
    if s.Listed(x) {
      ScanMoves(s, x);
      hide WillScan, Raising;
      assert LoopStep(s).Ids(x.chan) == s.Ids(x.chan);
    }
  }

  lemma LoopKeepsDebt(s: State, x: Item)
    requires InBounds(s) && DebtSeen(s, x)
    ensures DebtSeen(LoopStep(s), x)
  {
  }

  lemma LoopKeeps(s: State)
    requires Inv(s)
    ensures Inv(LoopStep(s))
  {
    var t := LoopStep(s);
    assert InBounds(t);
    forall c
      ensures FlagSeen(t, c)
    {
      assert FlagSeen(s, c);
    }
    hide FlagSeen, InBounds, LoopStep, MarkSeen, DebtSeen;
    forall x
      ensures MarkSeen(t, x) && DebtSeen(t, x)
    {
      LoopKeepsMark(s, x);
      LoopKeepsDebt(s, x);
    }
  }

  lemma StartKeeps(s: State, id: nat)
    requires Inv(s)
    ensures Inv(StartStep(s, id)) <==> CleanStart(s, Start(id))
  {
    var t := StartStep(s, id);
    if CleanStart(s, Start(id)) {
      assert forall c :: FlagSeen(s, c) ==> FlagSeen(t, c);
      forall y
        ensures MarkSeen(t, y) && DebtSeen(t, y)
      {
        assert MarkSeen(s, y) && DebtSeen(s, y);
        if t != s {
          assert y.chan == Asyncs && y.id in t.asyncs ==> y.id == id || y.id in s.asyncs;
        }
      }
    } else {
      assert t.Listed(Item(Asyncs, id)) && !MarkSeen(t, Item(Asyncs, id));
    }
  }

  lemma StopKeeps(s: State, id: nat)
    requires Inv(s)
    ensures Inv(StopStep(s, id))
  {
    var t := StopStep(s, id);
    assert forall c :: FlagSeen(s, c) ==> FlagSeen(t, c);
    forall y
      ensures MarkSeen(t, y) && DebtSeen(t, y)
    {
      assert MarkSeen(s, y) && DebtSeen(s, y);
      assert y.chan == Asyncs && y.id in t.asyncs ==> y.id in s.asyncs;
    }
  }

  /** A step keeps the invariant if and only if it is not an unsafe start. */
  lemma StepKeeps(s: State, a: Action)
    requires Inv(s)
    ensures Inv(Step(s, a)) <==> CleanStart(s, a)
  {
    match a
    case Send(k, x) => if k < |s.senders| { SendKeeps(s, k, x); }
    case Sending(k) => if k < |s.senders| { SendingKeeps(s, k); }
    case Looping => LoopKeeps(s);
    case Start(id) => StartKeeps(s, id);
    case Stop(id) => StopKeeps(s, id);
  }

  /** Every watcher the run starts is started clean. */
  ghost predicate CleanStarts(s: State, acts: seq<Action>)
    decreases acts
  {
    acts == [] || (CleanStart(s, acts[0]) && CleanStarts(Step(s, acts[0]), acts[1..]))
  }

  lemma {:induction false} RunKeeps(s: State, acts: seq<Action>)
    requires Inv(s) && CleanStarts(s, acts)
    ensures Inv(Run(s, acts))
    decreases acts
  {
    if acts != [] {
      StepKeeps(s, acts[0]);
      RunKeeps(Step(s, acts[0]), acts[1..]);
    }
  }

  lemma InvIsSafe(s: State)
    requires Inv(s)
    ensures NoLostWakeUp(s)
  {
    if Quiet(s) {
      forall x | x in s.sent + s.owed && s.Listed(x)
        ensures s.Readable()
      {
        assert DebtSeen(s, x) && MarkSeen(s, x) && FlagSeen(s, x.chan);
      }
    }
  }

  /** The loop alone, for `n` steps. */
  function Loops(n: nat): seq<Action> {
    seq(n, _ => Looping)
  }

  ghost function Channel(pc: Pc): nat {
    if !pc.Outside? && pc.chan == Signals then 1 else 0
  }

  ghost function Stage(pc: Pc): nat {
    if pc.Test? then 5 else if pc.Clear? then 4 else if pc.Outside? then 0 else 1
  }

  ghost function Left(pc: Pc): nat {
    if pc.Scan? || pc.Drop? || pc.Feed? then pc.left else 0
  }

  ghost function Rank(pc: Pc): nat {
    match pc
    case Scan(_, _) => 2
    case Drop(_, _) => 1
    case _ => 0
  }

  /** Left alone, the callback ends, having cleared exactly the flags it had yet to test. */
  lemma {:induction false} CallbackEnds(s: State) returns (n: nat)
    requires Inv(s)
    ensures var t := Run(s, Loops(n)); Inv(t) && t.pc == Outside
    ensures var t := Run(s, Loops(n)); forall c :: c in t.flags <==> c in s.flags && !WillTest(s.pc, c)
    ensures var t := Run(s, Loops(n)); t.asyncs == s.asyncs && t.signals == s.signals && t.senders == s.senders
    decreases Channel(s.pc), Stage(s.pc), Left(s.pc), Rank(s.pc)
  {
    if s.pc == Outside {
      n := 0;
    } else {
      var t := LoopStep(s);
      LoopKeeps(s);
      assert forall c :: c in t.flags && !WillTest(t.pc, c) <==> c in s.flags && !WillTest(s.pc, c);
      hide Inv;
      var m := CallbackEnds(t);
      n := m + 1;
      assert Loops(n)[0] == Looping && Loops(n)[1..] == Loops(m);
    }
  }

  /** One undisturbed callback pays every debt. */
  lemma CallbackDelivers(s: State) returns (n: nat)
    requires Inv(s) && Quiet(s)
    ensures var t := Run(s, Loops(n)); t.pc == Outside && forall x | t.Listed(x) :: x !in t.sent && x !in t.owed
    ensures n > 0
  {
    var s1 := LoopStep(s);
    LoopKeeps(s);
    var m := CallbackEnds(s1);
    n := m + 1;
    assert Loops(n)[0] == Looping && Loops(n)[1..] == Loops(m);
    var t := Run(s, Loops(n));
    forall x | t.Listed(x)
      ensures x !in t.sent && x !in t.owed
    {
      assert MarkSeen(t, x) && DebtSeen(t, x);
    }
  }

  /** The watcher carries a mark that no callback will look at. */
  ghost predicate Stuck(s: State, id: nat) {
    && Item(Asyncs, id) in s.sent && id in s.asyncs && Asyncs !in s.flags && !Raising(s.senders, Asyncs)
    && (s.pc == Outside || s.pc.chan == Signals || s.pc == Test(Asyncs))
  }

  /** Going on with a sender leaves the watcher stuck. */
  lemma StuckSending(s: State, id: nat, k: nat)
    requires Stuck(s, id) && k < |s.senders|
    ensures Stuck(SendingStep(s, k), id)
  {
    var t := SendingStep(s, k);
    assert !Raises(s.senders[k], Asyncs);
    forall j: nat | j < |t.senders|
      ensures !Raises(t.senders[j], Asyncs)
    {
      assert j != k ==> t.senders[j] == s.senders[j];
    }
  }

  ghost function StepsLeft(sender: Sender): nat {
    match sender
    case Idle => 0
    case Check(_) => 3
    case Raise(_) => 2
    case Write => 1
  }

  /** Senders and the loop going on, with nothing new begun. */
  ghost predicate Drifts(acts: seq<Action>) {
    forall i: nat | i < |acts| :: acts[i].Sending? || acts[i].Looping?
  }

  lemma {:induction false} DriftsAreClean(s: State, acts: seq<Action>)
    requires Drifts(acts)
    ensures CleanStarts(s, acts)
    decreases acts
  {
    if acts != [] {
      DriftsAreClean(Step(s, acts[0]), acts[1..]);
    }
  }

  /** The first `n` senders finish what they are doing. */
  lemma {:induction false} SendersFinish(s: State, id: nat, n: nat) returns (acts: seq<Action>)
    requires Stuck(s, id) && s.pc == Outside && n <= |s.senders|
    requires forall k: nat | n <= k < |s.senders| :: s.senders[k] == Idle
    ensures Drifts(acts) && Stuck(Run(s, acts), id) && Quiet(Run(s, acts))
    decreases n, if n == 0 then 0 else StepsLeft(s.senders[n - 1])
  {
    if n == 0 {
      acts := [];
    } else if s.senders[n - 1] == Idle {
      acts := SendersFinish(s, id, n - 1);
    } else {
      StuckSending(s, id, n - 1);
      var rest := SendersFinish(SendingStep(s, n - 1), id, n);
      acts := [Sending(n - 1)] + rest;
      assert acts[1..] == rest;
    }
  }

  /** Callback after callback, until nothing is readable: the watcher is still asleep. */
  lemma {:induction false} StuckForGood(s: State, id: nat) returns (n: nat)
    requires Stuck(s, id) && forall k: nat | k < |s.senders| :: s.senders[k] == Idle
    ensures !NoLostWakeUp(Run(s, Loops(n)))
    decreases s.count, Channel(s.pc), Stage(s.pc), Left(s.pc), Rank(s.pc)
  {
    if s.pc == Outside && s.count == 0 {
      n := 0;
      assert s.Listed(Item(Asyncs, id)) && Item(Asyncs, id) in s.sent + s.owed;
    } else {
      var m := StuckForGood(LoopStep(s), id);
      n := m + 1;
      assert Loops(n)[0] == Looping && Loops(n)[1..] == Loops(m);
    }
  }

  lemma {:induction false} RunOn(s: State, acts: seq<Action>, more: seq<Action>)
    ensures Run(s, acts + more) == Run(Run(s, acts), more)
    decreases acts
  {
    if acts == [] {
      assert acts + more == more;
    } else {
      assert (acts + more)[0] == acts[0] && (acts + more)[1..] == acts[1..] + more;
      RunOn(Step(s, acts[0]), acts[1..], more);
    }
  }

  /** After an unsafe start the senders need only finish and the loop go on for the wake-up to be lost. */
  lemma UnsafeStartLoses(s: State, id: nat) returns (acts: seq<Action>)
    requires s.pc == Outside && id !in s.asyncs && !SafeToStart(s, id)
    ensures Drifts(acts) && !NoLostWakeUp(Run(Step(s, Start(id)), acts))
  {
    var t := Step(s, Start(id));
    assert Stuck(t, id);
    var finish := SendersFinish(t, id, |t.senders|);
    var n := StuckForGood(Run(t, finish), id);
    acts := finish + Loops(n);
    RunOn(t, finish, Loops(n));
  }

  /** However the run goes on, short of another unsafe start, no wake-up is lost. */
  ghost predicate SafeForGood(s: State) {
    forall acts | CleanStarts(s, acts) :: NoLostWakeUp(Run(s, acts))
  }

  /**
   * Starting a watcher does not clear its mark. At any moment, with senders anywhere, the start keeps all
   * wake-ups safe for good if and only if the watcher is unmarked or its mark will be looked at.
   */
  lemma StartIff(s: State, id: nat)
    requires Inv(s) && s.pc == Outside && id !in s.asyncs
    ensures SafeForGood(Step(s, Start(id))) <==> SafeToStart(s, id)
  {
    var t := Step(s, Start(id));
    if SafeToStart(s, id) {
      StartKeeps(s, id);
      forall acts | CleanStarts(t, acts)
        ensures NoLostWakeUp(Run(t, acts))
      {
        RunKeeps(t, acts);
        InvIsSafe(Run(t, acts));
      }
    } else {
      var acts := UnsafeStartLoses(s, id);
      DriftsAreClean(t, acts);
    }
  }

  /** From every state of the run, senders and loop can go on as they like without losing a wake-up. */
  ghost predicate NeverLoses(s: State, acts: seq<Action>)
    decreases acts
  {
    && (forall more | Drifts(more) :: NoLostWakeUp(Run(s, more)))
    && (acts == [] || NeverLoses(Step(s, acts[0]), acts[1..]))
  }

  /** A run never loses a wake-up if and only if every start in it is safe. */
  lemma {:induction false} RunIff(s: State, acts: seq<Action>)
    requires Inv(s)
    ensures NeverLoses(s, acts) <==> CleanStarts(s, acts)
    decreases acts
  {
    forall more | Drifts(more)
      ensures NoLostWakeUp(Run(s, more))
    {
      DriftsAreClean(s, more);
      RunKeeps(s, more);
      InvIsSafe(Run(s, more));
    }
    if acts != [] {
      if CleanStart(s, acts[0]) {
        StepKeeps(s, acts[0]);
        RunIff(Step(s, acts[0]), acts[1..]);
      } else {
        var more := UnsafeStartLoses(s, acts[0].id);
      }
    }
  }

  /** In every interleaving no wake-up is lost, exactly as long as no start is unsafe. */
  lemma WakeUpsArrive(s: State, acts: seq<Action>)
    requires Initial(s)
    ensures CleanStarts(s, acts) ==> NoLostWakeUp(Run(s, acts))
    ensures NeverLoses(s, acts) <==> CleanStarts(s, acts)
  {
    if CleanStarts(s, acts) {
      RunKeeps(s, acts);
      InvIsSafe(Run(s, acts));
    }
    RunIff(s, acts);
  }

  /** From the middle of a run, one more step. */
  lemma Then(s: State, acts: seq<Action>, t: State, a: Action, u: State) returns (more: seq<Action>)
    requires Run(s, acts) == t && Step(t, a) == u
    ensures Run(s, more) == u
  {
    more := acts + [a];
    RunOn(s, acts, [a]);
    assert Run(t, [a]) == Run(u, [a][1..]) && [a][1..] == [];
  }

  /** Start, send, stop: the mark and a byte in the pipe are left. */
  lemma StopLeavesMark(s: State, x: Item) returns (acts: seq<Action>)
    requires Initial(s) && |s.senders| == 1 && x.chan == Asyncs
    ensures Run(s, acts) == s.(sent := {x}, owed := {x}, flags := {Asyncs}, count := 1)
  {
    acts := [];
    var t := Run(s, acts);
    var u := t.(asyncs := [x.id]);
    assert t == s && s.senders == [Idle];
    hide Run, LoopStep, IndexOf;
    acts := Then(s, acts, t, Start(x.id), u);
    t, u := u, u.(sent := {x}, owed := {x}, senders := [Check(x)]);
    acts := Then(s, acts, t, Send(0, x), u);
    t, u := u, u.(senders := [Raise(Asyncs)]);
    acts := Then(s, acts, t, Sending(0), u);
    t, u := u, u.(flags := {Asyncs}, senders := [Write]);
    acts := Then(s, acts, t, Sending(0), u);
    t, u := u, u.(count := 1, senders := [Idle]);
    acts := Then(s, acts, t, Sending(0), u);
    t, u := u, u.(asyncs := []);
    assert StopStep(t, x.id) == u;
    acts := Then(s, acts, t, Stop(x.id), u);
  }

  /** Then the loop runs its callback, and the watcher is started again: nothing is readable. */
  lemma RestartLoses(s: State, x: Item) returns (acts: seq<Action>)
    requires Initial(s) && |s.senders| == 1 && s.signals == [] && x.chan == Asyncs
    ensures !NoLostWakeUp(Run(s, acts))
  {
    acts := StopLeavesMark(s, x);
    var t := s.(sent := {x}, owed := {x}, flags := {Asyncs}, count := 1);
    var u := t.(count := 0, pc := Test(Signals));
    hide Run;
    acts := Then(s, acts, t, Looping, u);
    t, u := u, u.(pc := Test(Asyncs));
    acts := Then(s, acts, t, Looping, u);
    t, u := u, u.(pc := Clear(Asyncs));
    acts := Then(s, acts, t, Looping, u);
    t, u := u, u.(flags := {}, pc := Scan(Asyncs, 0));
    acts := Then(s, acts, t, Looping, u);
    t, u := u, u.(pc := Outside);
    acts := Then(s, acts, t, Looping, u);
    t, u := u, u.(asyncs := [x.id]);
    acts := Then(s, acts, t, Start(x.id), u);
    assert u.Listed(x) && x in u.sent + u.owed;
  }
}
