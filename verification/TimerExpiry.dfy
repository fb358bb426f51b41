/** What expiring due timers one after the other does to the set of timers. */
module TimerExpiry {
  import opened Sequences

  /** The timers in the heap at one moment, with the times and back-pointers of all watchers. */
  datatype Snapshot<W> = Snapshot(timers: set<W>, at: map<W, real>, pending: map<W, int>)

  function Max(a: real, b: real): real {
    if a < b then b else a
  }

  /** What expiry does to one timer: a repeating timer is due again later, any other leaves the heap. */
  ghost function ExpireOne<W>(v: Snapshot<W>, w: W, repeat: real, now: real): Snapshot<W>
    requires w in v.at
  {
    if repeat > 0.0 then v.(at := v.at[w := Max(v.at[w] + repeat, now)])
    else Snapshot(v.timers - {w}, v.at[w := v.at[w] - now], v.pending[w := 0])
  }

  ghost predicate Wellformed<W>(v: Snapshot<W>, repeat: map<W, real>) {
    v.timers <= v.at.Keys == v.pending.Keys == repeat.Keys
  }

  ghost function ExpireAll<W>(v: Snapshot<W>, repeat: map<W, real>, ws: seq<W>, now: real): (r: Snapshot<W>)
    requires Wellformed(v, repeat) && forall w | w in ws :: w in v.at
    ensures Wellformed(r, repeat) && r.at.Keys == v.at.Keys
  {
    if ws == [] then v else
    ExpireOne(ExpireAll(v, repeat, ws[..|ws| - 1], now), ws[|ws| - 1], repeat[ws[|ws| - 1]], now)
  }

  /** `ws` lists timers due at `now` in the order of their times, before all others. */
  ghost predicate InOrder<W>(v: Snapshot<W>, ws: seq<W>, now: real) {
    && v.timers <= v.at.Keys && Distinct(ws) && (forall w | w in ws :: w in v.timers && v.at[w] < now)
    && (forall i: nat, j: nat | i < j < |ws| :: v.at[ws[i]] <= v.at[ws[j]])
    && (forall w, x | w in ws && x in v.timers && x !in ws :: v.at[w] <= v.at[x])
  }

  /** What became of timer `x` when it expired. */
  ghost predicate Expired<W>(v: Snapshot<W>, r: Snapshot<W>, x: W, repeat: real, now: real)
    requires x in v.at && x in r.at && x in v.pending && x in r.pending
  {
    if repeat > 0.0 then x in r.timers && r.at[x] == Max(v.at[x] + repeat, now) && r.pending[x] == v.pending[x]
    else x !in r.timers && r.at[x] == v.at[x] - now && r.pending[x] == 0
  }

  ghost predicate Same<W>(v: Snapshot<W>, r: Snapshot<W>, x: W)
    requires x in v.at && x in r.at && x in v.pending && x in r.pending
  {
    (x in r.timers <==> x in v.timers) && r.at[x] == v.at[x] && r.pending[x] == v.pending[x]
  }

  lemma ExpireOneSpec<W>(v: Snapshot<W>, q: Snapshot<W>, w: W, repeat: real, now: real, x: W)
    requires x in v.at && x in v.pending && x in q.at && x in q.pending && w in q.at && w in q.pending
    ensures
      var r := ExpireOne(q, w, repeat, now);
      x in r.at && x in r.pending && (x != w ==> Same(q, r, x))
    ensures x == w && Same(v, q, x) && x in v.timers ==> Expired(v, ExpireOne(q, w, repeat, now), x, repeat, now)
  {
  }

  lemma SameKeeps<W>(v: Snapshot<W>, q: Snapshot<W>, r: Snapshot<W>, x: W, repeat: real, now: real)
    requires x in v.at && x in v.pending && x in q.at && x in q.pending && x in r.at && x in r.pending
    requires Same(q, r, x)
    ensures Same(v, q, x) ==> Same(v, r, x)
    ensures Expired(v, q, x, repeat, now) ==> Expired(v, r, x, repeat, now)
  {
  }

  /** Expiring a list changes exactly its members, each of them once. */
  lemma {:induction false} ExpireAllSpec<W>(v: Snapshot<W>, repeat: map<W, real>, ws: seq<W>, now: real, x: W)
    requires Wellformed(v, repeat) && Distinct(ws) && (forall w | w in ws :: w in v.timers) && x in v.at
    ensures
      var r := ExpireAll(v, repeat, ws, now);
      if x in ws then Expired(v, r, x, repeat[x], now) else Same(v, r, x)
    decreases |ws|
  {
    hide Same, Expired;
    if ws == [] {
      SameRefl(v, x);
    } else {
      var k := |ws| - 1;
      var w := ws[k];
      assert forall y | y in ws[..k] :: y in ws;
      assert x in ws <==> x in ws[..k] || x == w;
      assert w !in ws[..k];
      ExpireAllSpec(v, repeat, ws[..k], now, x);
      var q := ExpireAll(v, repeat, ws[..k], now);
      ExpireOneSpec(v, q, w, repeat[w], now, x);
      if x != w { SameKeeps(v, q, ExpireOne(q, w, repeat[w], now), x, repeat[x], now); }
    }
  }

  lemma SameRefl<W>(v: Snapshot<W>, x: W)
    requires x in v.at && x in v.pending
    ensures Same(v, v, x)
  {
  }

  /** The timer at the root of the heap is the next in order. */
  lemma NextInOrder<W>(v: Snapshot<W>, repeat: map<W, real>, ws: seq<W>, now: real, w: W)
    requires Wellformed(v, repeat) && InOrder(v, ws, now)
    requires
      var r := ExpireAll(v, repeat, ws, now);
      w in r.timers && r.at[w] < now && forall x | x in r.timers :: r.at[w] <= r.at[x]
    ensures w !in ws && w in v.timers && InOrder(v, ws + [w], now)
    ensures ExpireAll(v, repeat, ws + [w], now) == ExpireOne(ExpireAll(v, repeat, ws, now), w, repeat[w], now)
  {
    assert (ws + [w])[..|ws|] == ws;
    assert ExpireAll(v, repeat, ws + [w], now) == ExpireOne(ExpireAll(v, repeat, ws, now), w, repeat[w], now);
    hide ExpireAll, ExpireOne;
    ExpireAllSpec(v, repeat, ws, now, w);
    forall x | x in v.timers && x !in ws ensures v.at[w] <= v.at[x] {
      ExpireAllSpec(v, repeat, ws, now, x);
    }
    OrderExtends(v, ws, now, w);
  }

  lemma OrderExtends<W>(v: Snapshot<W>, ws: seq<W>, now: real, w: W)
    requires InOrder(v, ws, now) && w in v.timers && w !in ws && v.at[w] < now
    requires forall x | x in v.timers && x !in ws :: v.at[w] <= v.at[x]
    ensures InOrder(v, ws + [w], now)
  {
  }

  /** Once no timer is due, the list holds exactly the timers that were due. */
  lemma AllDueListed<W>(v: Snapshot<W>, repeat: map<W, real>, ws: seq<W>, now: real)
    requires Wellformed(v, repeat) && InOrder(v, ws, now)
    requires var r := ExpireAll(v, repeat, ws, now); forall x | x in r.timers :: r.at[x] >= now
    ensures forall x | x in v.timers :: x in ws <==> v.at[x] < now
  {
    forall x | x in v.timers ensures x in ws <==> v.at[x] < now {
      ExpireAllSpec(v, repeat, ws, now, x);
    }
  }

  /** Feeding the list from its end makes every member pending, the first fed last and so on top;
      members that were pending keep their slots. */
  ghost predicate FedInReverse<W>(p: map<W, int>, q: map<W, int>, pri: map<W, int>, ws: seq<W>) {
    && p.Keys == q.Keys == pri.Keys && (forall w | w in ws :: w in q && q[w] != 0)
    && (forall w | w in p && w !in ws :: q[w] == p[w])
    && (forall i: nat, j: nat | i < j < |ws| && pri[ws[i]] == pri[ws[j]] && p[ws[i]] == 0 && p[ws[j]] == 0 ::
          q[ws[i]] > q[ws[j]])
  }

  /** The timer was not pending, or was stopped and thereby cleared. */
  ghost predicate NewlyPending<W>(v: Snapshot<W>, repeat: map<W, real>, w: W)
    requires w in v.pending && w in repeat
  {
    repeat[w] == 0.0 || v.pending[w] == 0
  }

  /** `ws` lists exactly the timers that were due, once each, in the order of their times. */
  ghost predicate DueListed<W>(v: Snapshot<W>, now: real, ws: seq<W>) {
    && v.timers <= v.at.Keys && Distinct(ws)
    && (forall w | w in ws :: w in v.timers && v.at[w] < now)
    && (forall w | w in v.timers && v.at[w] < now :: w in ws)
    && (forall i: nat, j: nat | i < j < |ws| :: v.at[ws[i]] <= v.at[ws[j]])
  }

  /** No timer stays due; expired timers are rescheduled or stopped, and nothing else changes. */
  ghost predicate Rescheduled<W>(v: Snapshot<W>, r: Snapshot<W>, repeat: map<W, real>, now: real, ws: seq<W>) {
    && Wellformed(v, repeat) && Wellformed(r, repeat) && (forall w | w in ws :: w in repeat)
    && (forall w | w in r.timers :: r.at[w] >= now)
    && (forall w | w in v.at && w !in ws :: Same(v, r, w))
    && (forall w | w in ws && repeat[w] > 0.0 :: w in r.timers && r.at[w] == Max(v.at[w] + repeat[w], now))
    && (forall w | w in ws && repeat[w] <= 0.0 :: w !in r.timers && r.at[w] == v.at[w] - now)
  }

  /** Every expired timer is pending, and of two the earlier-expiring sits nearer the top of the stack. */
  ghost predicate Stacked<W>(v: Snapshot<W>, r: Snapshot<W>, repeat: map<W, real>, pri: map<W, int>, ws: seq<W>) {
    && v.pending.Keys == r.pending.Keys == repeat.Keys == pri.Keys && (forall w | w in ws :: w in pri && r.pending[w] != 0)
    && (forall i: nat, j: nat | i < j < |ws| && pri[ws[i]] == pri[ws[j]]
          && NewlyPending(v, repeat, ws[i]) && NewlyPending(v, repeat, ws[j]) :: r.pending[ws[i]] > r.pending[ws[j]])
  }

  /** What `timers_reify` promises: from view `v` to view `r`, with `ws` the list of expired timers. */
  ghost predicate Reified<W>(v: Snapshot<W>, r: Snapshot<W>, repeat: map<W, real>, pri: map<W, int>, now: real, ws: seq<W>) {
    DueListed(v, now, ws) && Rescheduled(v, r, repeat, now, ws) && Stacked(v, r, repeat, pri, ws)
  }

  lemma RescheduledResult<W>(v: Snapshot<W>, q: Snapshot<W>, r: Snapshot<W>, repeat: map<W, real>, now: real, ws: seq<W>)
    requires Wellformed(v, repeat) && Wellformed(r, repeat) && (forall w | w in ws :: w in v.timers)
    requires q.at.Keys == q.pending.Keys == v.at.Keys
    requires forall x | x in q.timers :: x in q.at && q.at[x] >= now
    requires forall w | w in v.at :: if w in ws then Expired(v, q, w, repeat[w], now) else Same(v, q, w)
    requires r.timers == q.timers && r.at == q.at && forall w | w in q.pending && w !in ws :: r.pending[w] == q.pending[w]
    ensures Rescheduled(v, r, repeat, now, ws)
  {
  }

  lemma StackedResult<W>(v: Snapshot<W>, q: Snapshot<W>, r: Snapshot<W>, repeat: map<W, real>, pri: map<W, int>, now: real,
                         ws: seq<W>)
    requires Wellformed(v, repeat) && q.at.Keys == q.pending.Keys == v.at.Keys
    requires forall w | w in ws :: w in v.at && Expired(v, q, w, repeat[w], now) && repeat[w] >= 0.0
    requires FedInReverse(q.pending, r.pending, pri, ws)
    ensures Stacked(v, r, repeat, pri, ws)
  {
    forall w | w in ws && NewlyPending(v, repeat, w) ensures q.pending[w] == 0 {
    }
  }

  lemma ReifyResult<W>(v: Snapshot<W>, q: Snapshot<W>, r: Snapshot<W>, repeat: map<W, real>, pri: map<W, int>,
                       now: real, ws: seq<W>)
    requires Wellformed(v, repeat) && InOrder(v, ws, now) && q == ExpireAll(v, repeat, ws, now)
    requires forall x | x in q.timers :: q.at[x] >= now
    requires forall w | w in ws :: repeat[w] >= 0.0
    requires r.timers == q.timers && r.at == q.at && FedInReverse(q.pending, r.pending, pri, ws)
    ensures Reified(v, r, repeat, pri, now, ws)
  {
    hide ExpireAll, Expired, Same, Rescheduled, Stacked;
    AllDueListed(v, repeat, ws, now);
    forall w | w in v.at ensures if w in ws then Expired(v, q, w, repeat[w], now) else Same(v, q, w) {
      ExpireAllSpec(v, repeat, ws, now, w);
    }
    RescheduledResult(v, q, r, repeat, now, ws);
    StackedResult(v, q, r, repeat, pri, now, ws);
  }
}
