/** What a history of feeding, clearing and invoking watchers owes to each of them. */
module PendingHistory {
  import opened Options

  datatype Event<W> =
    | Fed(w: W, events: bv32)
    | Cleared(w: W)
    | Invoked(w: W, events: bv32)

  /** Event masks are combined bitwise. */
  function Or(u: bv32, v: bv32): bv32 {
    u | v
  }

  /** The events fed to `w` since its last invocation or clear, combined; None if there were none. */
  ghost function Due<W>(h: seq<Event<W>>, w: W): Option<bv32> {
    if h == [] then None else
    var rest, e := h[..|h| - 1], h[|h| - 1];
    if e.w != w then Due(rest, w) else
    match e
    case Fed(_, v) => (match Due(rest, w) case None => Some(v) case Some(u) => Some(Or(u, v)))
    case Cleared(_) => None
    case Invoked(_, _) => None
  }

  /** Every invocation delivers exactly what was due at that moment. */
  ghost predicate Lawful<W>(h: seq<Event<W>>) {
    forall i: nat | i < |h| && h[i].Invoked? :: Due(h[..i], h[i].w) == Some(h[i].events)
  }

  lemma Append<W>(h: seq<Event<W>>, e: Event<W>, ws: set<W>)
    requires Lawful(h) && (e.Invoked? ==> Due(h, e.w) == Some(e.events))
    ensures Lawful(h + [e])
    ensures forall w | w in ws && w != e.w :: Due(h + [e], w) == Due(h, w)
    ensures Due(h + [e], e.w) == match e
      case Fed(_, v) => (match Due(h, e.w) case None => Some(v) case Some(u) => Some(Or(u, v)))
      case Cleared(_) => None
      case Invoked(_, _) => None
  {
    var g := h + [e];
    assert g[..|g| - 1] == h && g[|g| - 1] == e;
    forall i: nat | i < |g| && g[i].Invoked? ensures Due(g[..i], g[i].w) == Some(g[i].events) {
      if i < |h| { assert g[..i] == h[..i]; } else { assert g[..i] == h; }
    }
  }

  /** A feed of `w` among the entries `i` to `j`. */
  ghost predicate FedWithin<W>(h: seq<Event<W>>, w: W, i: nat, j: nat)
    requires j <= |h|
  {
    exists k: nat | i <= k < j :: h[k].Fed? && h[k].w == w
  }

  /** Without a feed after entry `i` that settled `w`, nothing is due to `w`. */
  lemma {:induction false} NothingDue<W>(h: seq<Event<W>>, w: W, i: nat, j: nat)
    requires i < j <= |h| && h[i].w == w && !h[i].Fed? && !FedWithin(h, w, i + 1, j)
    ensures Due(h[..j], w) == None
    decreases j
  {
    var g := h[..j];
    assert g[..|g| - 1] == h[..j - 1] && g[|g| - 1] == h[j - 1];
    if j > i + 1 {
      assert !FedWithin(h, w, i + 1, j - 1);
      if h[j - 1].w != w {
        NothingDue(h, w, i, j - 1);
      } else {
        assert !h[j - 1].Fed?;
      }
    }
  }

  /** Between an invocation or a clear of a watcher and its next invocation it is fed:
      no event is delivered twice and a cleared watcher is not invoked. */
  lemma InvokedOncePerFeed<W>(h: seq<Event<W>>, i: nat, j: nat)
    requires Lawful(h) && i < j < |h| && h[j].Invoked? && h[i].w == h[j].w && !h[i].Fed?
    ensures FedWithin(h, h[j].w, i + 1, j)
  {
    if !FedWithin(h, h[j].w, i + 1, j) {
      NothingDue(h, h[j].w, i, j);
    }
  }

  /** Since entry `from` the watcher was invoked or cleared. */
  ghost predicate SettledSince<W>(h: seq<Event<W>>, from: nat, w: W) {
    exists k: nat | from <= k < |h| :: h[k].w == w && !h[k].Fed?
  }

  /** What is due stays due until the watcher is settled. */
  lemma {:induction false} StaysDue<W>(h: seq<Event<W>>, g: seq<Event<W>>, w: W)
    requires h <= g && Due(h, w).Some?
    ensures SettledSince(g, |h|, w) || Due(g, w).Some?
    decreases |g|
  {
    if |h| == |g| {
      assert h == g;
    } else {
      var rest := g[..|g| - 1];
      StaysDue(h, rest, w);
      if SettledSince(rest, |h|, w) {
        var k: nat :| |h| <= k < |rest| && rest[k].w == w && !rest[k].Fed?;
        assert g[k] == rest[k];
      }
    }
  }

  /** What has become due was fed. */
  lemma {:induction false} DueSince<W>(h: seq<Event<W>>, g: seq<Event<W>>, w: W)
    requires h <= g && Due(g, w).Some?
    ensures Due(h, w).Some? || FedWithin(g, w, |h|, |g|)
    decreases |g|
  {
    if |h| == |g| {
      assert h == g;
    } else {
      var k := |g| - 1;
      var rest := g[..k];
      if g[k].w == w {
        assert g[k].Fed?;
      } else {
        DueSince(h, rest, w);
        if FedWithin(rest, w, |h|, |rest|) {
          var j: nat :| |h| <= j < |rest| && rest[j].Fed? && rest[j].w == w;
          assert g[j] == rest[j];
        }
      }
    }
  }

  /** The watcher was fed after one of lower priority had been invoked. */
  ghost predicate FedLate<W>(h: seq<Event<W>>, from: nat, pri: map<W, int>, w: W)
    requires w in pri
  {
    exists i: nat, k: nat | from <= i < k < |h| ::
      h[i].Invoked? && h[i].w in pri && pri[h[i].w] < pri[w] && h[k].Fed? && h[k].w == w
  }

  /**
   * In the middle of a round that began with entry `from` and the watchers `start` pending: those of
   * priority `level` or more have had their turn, the others are still due if they are not settled.
   */
  ghost predicate Round<W>(h: seq<Event<W>>, from: nat, start: set<W>, pri: map<W, int>, level: int) {
    && (forall w | w in start :: w in pri && (SettledSince(h, from, w) || (Due(h, w).Some? && pri[w] < level)))
    && (forall w | w in pri && pri[w] >= level && Due(h, w).Some? :: FedLate(h, from, pri, w))
  }

  /** An invocation at a lower level and whatever its callback does keep this up. */
  lemma RoundGoesOn<W>(h: seq<Event<W>>, g: seq<Event<W>>, from: nat, start: set<W>, pri: map<W, int>, level: int)
    requires Round(h, from, start, pri, level) && from <= |h| && h <= g
    requires h == g || (g[|h|].Invoked? && g[|h|].w in pri && pri[g[|h|].w] < level)
    ensures Round(g, from, start, pri, level)
  {
    hide Due;
    forall w | w in start
      ensures SettledSince(g, from, w) || (Due(g, w).Some? && pri[w] < level)
    {
      if SettledSince(h, from, w) {
        var k: nat :| from <= k < |h| && h[k].w == w && !h[k].Fed?;
        assert g[k] == h[k];
      } else {
        StaysDue(h, g, w);
      }
    }
    forall w | w in pri && pri[w] >= level && Due(g, w).Some?
      ensures FedLate(g, from, pri, w)
    {
      DueSince(h, g, w);
      if Due(h, w).Some? {
        var i: nat, k: nat :| from <= i < k < |h| &&
          h[i].Invoked? && h[i].w in pri && pri[h[i].w] < pri[w] && h[k].Fed? && h[k].w == w;
        assert g[i] == h[i] && g[k] == h[k];
      } else {
        var k: nat :| |h| <= k < |g| && g[k].Fed? && g[k].w == w;
        assert k != |h|;
      }
    }
  }

  /** A level with nothing due has had its turn. */
  lemma RoundDescends<W>(h: seq<Event<W>>, from: nat, start: set<W>, pri: map<W, int>, level: int)
    requires Round(h, from, start, pri, level)
    requires forall w | w in pri && pri[w] == level - 1 :: Due(h, w).None?
    ensures Round(h, from, start, pri, level - 1)
  {
  }

  /** Since entry `from`, `w` has been invoked, and only after that `v`. */
  ghost predicate InvokedBefore<W>(h: seq<Event<W>>, from: nat, w: W, v: W) {
    exists a: nat, b: nat | from <= a < b < |h| ::
      && h[a].Invoked? && h[a].w == w && h[b].Invoked? && h[b].w == v
      && forall k: nat | from <= k < b && h[k].Invoked? && h[k].w == v :: a < k
  }

  ghost predicate InvokedSince<W>(h: seq<Event<W>>, from: nat, w: W) {
    exists k: nat | from <= k < |h| :: h[k].Invoked? && h[k].w == w
  }

  /** Entries before that invoke nobody make no difference. */
  lemma FromEarlier<W>(h: seq<Event<W>>, from: nat, mid: nat, w: W, v: W)
    requires from <= mid <= |h| && (forall k: nat | from <= k < mid :: !h[k].Invoked?)
    ensures InvokedBefore(h, mid, w, v) ==> InvokedBefore(h, from, w, v)
    ensures InvokedSince(h, mid, w) ==> InvokedSince(h, from, w)
  {
    if InvokedBefore(h, mid, w, v) {
      var a: nat, b: nat :| mid <= a < b < |h| && h[a].Invoked? && h[a].w == w && h[b].Invoked? && h[b].w == v
        && forall k: nat | mid <= k < b && h[k].Invoked? && h[k].w == v :: a < k;
      assert from <= a < b < |h|;
    }
  }

  /** A watcher that was never fed is never invoked. */
  lemma {:induction false} NeverFed<W>(h: seq<Event<W>>, w: W)
    requires !FedWithin(h, w, 0, |h|)
    ensures Due(h, w) == None
  {
    if h != [] {
      var rest := h[..|h| - 1];
      assert forall k: nat | k < |rest| :: rest[k] == h[k];
      NeverFed(rest, w);
    }
  }

  predicate Has(events: bv32, bit: bv32) {
    events & bit != 0
  }

  lemma OrHas(u: bv32, v: bv32, bit: bv32)
    ensures Has(Or(u, v), bit) <==> Has(u, bit) || Has(v, bit)
  {
    assert (u | v) & bit == (u & bit) | (v & bit);
  }

  /** What is due to a watcher contains every event fed to it since it was last settled. */
  lemma {:induction false} DueHasEvent<W>(h: seq<Event<W>>, w: W, k: nat, bit: bv32)
    requires k < |h| && h[k].Fed? && h[k].w == w && Has(h[k].events, bit)
    requires forall i: nat | k < i < |h| && h[i].w == w :: h[i].Fed?
    ensures Due(h, w).Some? && Has(Due(h, w).value, bit)
    decreases |h|
  {
    hide Has;
    var rest, e := h[..|h| - 1], h[|h| - 1];
    if k < |h| - 1 {
      DueHasEvent(rest, w, k, bit);
      if e.w == w { OrHas(Due(rest, w).value, e.events, bit); }
    } else if Due(rest, w).Some? {
      OrHas(Due(rest, w).value, e.events, bit);
    }
  }

  /** Every event due to a watcher was fed to it after it was last settled. */
  lemma {:induction false} DueWasFed<W>(h: seq<Event<W>>, w: W, bit: bv32) returns (k: nat)
    requires Due(h, w).Some? && Has(Due(h, w).value, bit)
    ensures k < |h| && h[k].Fed? && h[k].w == w && Has(h[k].events, bit)
    ensures forall i: nat | k < i < |h| && h[i].w == w :: h[i].Fed?
    decreases |h|
  {
    hide Has, Due;
    DueOfLast(h, w);
    var rest, e := h[..|h| - 1], h[|h| - 1];
    if e.w != w {
      k := DueWasFed(rest, w, bit);
    } else if Has(e.events, bit) {
      k := |h| - 1;
    } else {
      OrHas(Due(rest, w).value, e.events, bit);
      k := DueWasFed(rest, w, bit);
    }
  }

  lemma DueOfLast<W>(h: seq<Event<W>>, w: W)
    requires Due(h, w).Some?
    ensures h != [] && (h[|h| - 1].w == w ==> h[|h| - 1].Fed?)
    ensures
      var rest, e := Due(h[..|h| - 1], w), h[|h| - 1];
      && (e.w != w ==> Due(h, w) == rest)
      && (e.w == w ==> Due(h, w).value == if rest.None? then e.events else Or(rest.value, e.events))
  {
  }
}
