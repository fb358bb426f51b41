/** Finding the rules for a host: `MatchFirst`, `MatchNext` and the walk back through the host's labels. */
module HostSearch {
  import opened CharIndex
  import opened HostNames
  import opened HostTable
  import opened HostLookup
  import opened HostMatch
  import opened Options
  import opened Sequences

  /** `HostLookupState`; `next` is -1 when no label is left, `copy` ends where the last label was cut off. */
  class State {
    var cur: Branch
    var level: nat
    var arrayIndex: int
    var hostname: string
    var copy: string
    var next: int

    constructor (root: Branch)
    {
      cur, level, arrayIndex, hostname, copy, next := root, 0, -1, "", "", 0;
    }
  }

  /** What is left of the host ends with the label at `next`; `left` labels are left. */
  ghost predicate Cursor(host: string, copy: string, next: int, left: nat) {
    var sp := Split(Lowered(host));
    left <= |sp| &&
    if left == 0 then next == -1
    else 0 <= next <= |copy| && Split(copy) == sp[..left] && copy[next..] == sp[left - 1]
  }

  /** A label starts after a dot or at the beginning. */
  lemma LastLabel(copy: string, start: nat)
    requires start <= |copy| && DotFree(copy[start..]) && (start == 0 || copy[start - 1] == '.')
    ensures Split(copy)[|Split(copy)| - 1] == copy[start..]
    ensures start == 0 ==> |Split(copy)| == 1
    ensures start > 0 ==> Split(copy)[..|Split(copy)| - 1] == Split(copy[..start - 1])
  {
    SplitAlone(copy[start..]);
    if start > 0 {
      assert copy == copy[..start - 1] + "." + copy[start..];
      SplitAt(copy[..start - 1], copy[start..]);
    } else {
      assert copy[0..] == copy;
    }
  }

  /** Where the last label of a name starts, whatever precedes it. */
  lemma LabelStart(copy: string, next: nat)
    requires next <= |copy| && Split(copy)[|Split(copy)| - 1] == copy[next..] && copy[next..] != ""
    ensures DotFree(copy[next..])
    ensures next == 0 <==> |Split(copy)| == 1
    ensures next > 0 ==> copy[next - 1] == '.' && Split(copy)[..|Split(copy)| - 1] == Split(copy[..next - 1])
  {
    hide Split, Join;
    var sp := Split(copy);
    var front := sp[..|sp| - 1];
    SplitDotFree(copy);
    JoinSplit(copy);
    assert sp == front + [copy[next..]];
    JoinOne(copy[next..]);
    if front == [] {
      assert sp == [copy[next..]];
      assert copy == copy[next..];
    } else {
      JoinAppend(front, [copy[next..]]);
      assert copy == Join(front) + "." + copy[next..];
      assert next == |Join(front)| + 1;
      LastLabel(copy, next);
    }
  }

  lemma JoinOne(l: string)
    ensures Join([l]) == l
  {
  }

  /** Back from the end of a name to the start of its last label. */
  method BackUp(copy: string) returns (next: nat)
    requires copy != "" && copy[0] != '.' && copy[|copy| - 1] != '.'
    ensures next <= |copy| && Split(copy)[|Split(copy)| - 1] == copy[next..]
  {
    next := |copy| - 1;
    while true
      invariant next < |copy| && DotFree(copy[next + 1..])
      decreases next
    {
      if next <= 0 {
        assert copy[0..] == [copy[0]] + copy[1..];
        LastLabel(copy, 0);
        break;
      }
      if copy[next] == '.' {
        next := next + 1;
        LastLabel(copy, next);
        break;
      }
      assert copy[next..] == [copy[next]] + copy[next + 1..];
      next := next - 1;
    }
  }

  /** On to the label before: the cursor of one label less. */
  method PreviousLabel(copy: string, next: nat, ghost host: string, ghost left: nat) returns (rest: string, start: int)
    requires WellFormed(Lowered(host)) && left > 0 && Cursor(host, copy, next, left)
    ensures Cursor(host, rest, start, left - 1)
  {
    ghost var sp := Split(Lowered(host));
    assert sp[left - 1] != "";
    assert Split(copy)[|Split(copy)| - 1] == sp[left - 1];
    LabelStart(copy, next);
    hide Split;
    if next <= 0 {
      rest, start := copy, -1;
    } else {
      rest := copy[..next - 1];
      assert Split(rest) == sp[..left - 1];
      WellFormedFront(Lowered(host), rest, left - 1);
      WellFormedEnds(rest);
      start := BackUp(rest);
    }
  }

  lemma WellFormedFront(s: string, front: string, n: nat)
    requires WellFormed(s) && n <= |Split(s)| && Split(front) == Split(s)[..n]
    ensures WellFormed(front)
  {
    hide Split;
  }

  /** `MatchArray`: the next leaf after `k` that matches; past the end if there is none. */
  method MatchArray(leafArray: seq<Leaf>, leaves: seq<nat>, k: int, host: string, hostDone: bool) returns (found: bool, j: int)
    requires k >= -1 && forall i: nat | i < |leaves| :: leaves[i] < |leafArray|
    ensures j > k && found == (j < |leaves|)
    ensures found ==> LeafMatches(leafArray[leaves[j]], host, hostDone)
    ensures forall i: nat | k < i < j && i < |leaves| :: !LeafMatches(leafArray[leaves[i]], host, hostDone)
  {
    j := k + 1;
    while j < |leaves|
      invariant j > k
      invariant forall i: nat | k < i < j && i < |leaves| :: !LeafMatches(leafArray[leaves[i]], host, hostDone)
    {
      var leaf := leafArray[leaves[j]];
      match leaf.kind {
        case HostPartial =>
          var c := HostCmp(host, leaf.name);
          if c == 0 {
            return true, j;
          }
        case HostComplete =>
          if hostDone {
            return true, j;
          }
        case DomainPartial =>
          var b := DomainCmp(host, leaf.name);
          if b {
            return true, j;
          }
        case DomainComplete =>
          return true, j;
      }
      j := j + 1;
    }
    found := false;
  }

  /** `i` is among the first `k + 1`. */
  ghost predicate UpTo(leaves: seq<nat>, k: int, i: nat) {
    exists j: nat :: j <= k && j < |leaves| && leaves[j] == i
  }

  /** The matcher, at leaf `k` of the branch at `level`, has come past the rule. */
  ghost predicate Passed(leafArray: seq<Leaf>, level: nat, leaves: seq<nat>, k: int, i: nat)
    requires i < |leafArray|
  {
    var depth := |PathOf(leafArray[i].name)|;
    depth < level || (depth == level && UpTo(leaves, k, i))
  }

  /** A scan along the leaves comes past no rule that accepts the host but the one it stops at. */
  lemma ScanPasses(leafArray: seq<Leaf>, host: string, level: nat, leaves: seq<nat>, k: int, j: int, i: nat)
    requires WellFormed(Lowered(host)) && level <= |Labels(host)| && i < |leafArray| && Proper(leafArray[i])
    requires FiledAt(leafArray, Labels(host)[..level], leaves) && -1 <= k < j
    requires forall n: nat | k < n < j && n < |leaves| && leaves[n] < |leafArray| ::
               !LeafMatches(leafArray[leaves[n]], host, level == |Labels(host)|)
    requires Accepts(leafArray[i], host) && Passed(leafArray, level, leaves, j, i)
    ensures Passed(leafArray, level, leaves, k, i) || (j < |leaves| && i == leaves[j])
  {
    hide Labels, WellFormed, Accepts, LeafMatches, Proper, PathOf;
    var depth := |PathOf(leafArray[i].name)|;
    if depth == level {
      var n: nat :| n <= j && n < |leaves| && leaves[n] == i;
      assert leaves[n] in leaves;
      if n <= k {
        assert UpTo(leaves, k, i);
      } else if n < j {
        LeafIff(leafArray[i], host, level);
        assert false;
      }
    }
  }

  lemma {:induction false} PrefixIn(at: Tree, p: Path, n: nat)
    requires Closed(at) && p in at && n <= |p|
    ensures p[..n] in at
    decreases |p| - n
  {
    if n < |p| {
      PrefixIn(at, p, n + 1);
      assert p[..n + 1][..n] == p[..n];
    } else {
      assert p[..n] == p;
    }
  }

  /** As long as a rule that accepts the host lies deeper, the way down goes on. */
  lemma WayDown(at: Tree, leaf: Leaf, host: string, level: nat)
    requires Closed(at) && PathOf(leaf.name) in at && Accepts(leaf, host) && |PathOf(leaf.name)| > level
    ensures level < |Labels(host)| && Labels(host)[..level + 1] in at
  {
    hide Closed, Accepts, PathOf;
    AcceptedOnPath(leaf, host);
    PrefixIn(at, PathOf(leaf.name), level + 1);
    assert PathOf(leaf.name)[..level + 1] == Labels(host)[..level + 1];
  }

  /** The state stands at a branch on the host's way down, the cursor at the label to follow. */
  ghost predicate On(t: Table, s: State)
    reads t`at, s
  {
    && WellFormed(Lowered(s.hostname))
    && var hl := Labels(s.hostname);
    && s.level <= HOST_TABLE_DEPTH && s.level <= |hl| && s.arrayIndex >= -1
    && hl[..s.level] in t.at && s.cur == t.at[hl[..s.level]]
    && Cursor(s.hostname, s.copy, s.next, |hl| - s.level)
  }

  /** The state has come past the rule. */
  ghost predicate Seen(t: Table, s: State, i: nat)
    reads t`leafArray, s, {s.cur}`leaves
    requires i < |t.leafArray|
  {
    Passed(t.leafArray, s.level, s.cur.leaves, s.arrayIndex, i)
  }

  lemma LabelAt(host: string, copy: string, next: int, level: nat)
    requires WellFormed(Lowered(host)) && level <= |Labels(host)| && Cursor(host, copy, next, |Labels(host)| - level)
    ensures next == -1 <==> level == |Labels(host)|
    ensures next != -1 ==> 0 <= next <= |copy| && copy[next..] == Labels(host)[level] && Clean(copy[next..])
    ensures next != -1 ==> Labels(host)[..level + 1] == Labels(host)[..level] + [copy[next..]]
  {
    CleanLabels(host);
  }

  /** The branch for the label at the cursor, if there is one. */
  method Look(t: Table, s: State) returns (r: Option<Branch>)
    requires t.Valid() && On(t, s)
    ensures t.Valid()
    ensures var hl := Labels(s.hostname);
            r == if s.level < |hl| then NodeAt(t.at, hl[..s.level + 1]) else None
  {
    hide Labels, WellFormed, Cursor, Closed, Apart, Edges, FlatSound, FlatBound, FiledAt, Placed;
    LabelAt(s.hostname, s.copy, s.next, s.level);
    if s.next == -1 {
      return None;
    }
    t.Below(Labels(s.hostname)[..s.level], s.copy[s.next..]);
    if s.cur.next.Terminal? {
      return None;
    }
    r := t.Seek(s.cur, Labels(s.hostname)[..s.level], s.copy[s.next..], true);
  }

  method Previous(t: Table, copy: string, next: nat, ghost host: string, ghost left: nat) returns (rest: string, start: int)
    requires t.Valid() && WellFormed(Lowered(host)) && left > 0 && Cursor(host, copy, next, left)
    ensures t.Valid() && Cursor(host, rest, start, left - 1)
  {
    hide FlatSound, FlatBound, Closed, Apart, Edges, Placed, FiledAt, WellFormed, Cursor;
    rest, start := PreviousLabel(copy, next, host, left);
  }

  /** Down to that branch, the cursor to the label before. */
  method Move(t: Table, s: State, next: Branch)
    requires t.Valid() && On(t, s) && s.level < HOST_TABLE_DEPTH && s.level < |Labels(s.hostname)|
    requires NodeAt(t.at, Labels(s.hostname)[..s.level + 1]) == Some(next)
    modifies s`cur, s`level, s`arrayIndex, s`copy, s`next
    ensures t.Valid() && On(t, s) && s.level == old(s.level) + 1 && s.arrayIndex == -1 && s.cur == next
  {
    hide Table.Grown, Table.Filed, Labels, WellFormed, Cursor;
    LabelAt(s.hostname, s.copy, s.next, s.level);
    var copy, start := Previous(t, s.copy, s.next, s.hostname, |Labels(s.hostname)| - s.level);
    s.cur, s.arrayIndex, s.level, s.copy, s.next := next, -1, s.level + 1, copy, start;
  }

  /** Nothing deeper accepts the host once the way down has ended. */
  lemma WayEnds(t: Table, host: string, level: nat, i: nat)
    requires t.Valid() && i < |t.leafArray| && Accepts(t.leafArray[i], host)
    requires level < |Labels(host)| ==> Labels(host)[..level + 1] !in t.at
    ensures |PathOf(t.leafArray[i].name)| <= level
  {
    hide Labels, PathOf, Accepts;
    if |PathOf(t.leafArray[i].name)| > level {
      WayDown(t.at, t.leafArray[i], host, level);
    }
  }

  /** What the table has at a place: its rules, in order. */
  lemma LeavesAt(t: Table, p: Path)
    requires t.Valid() && p in t.at
    ensures FiledAt(t.leafArray, p, t.at[p].leaves) && |p| <= HOST_TABLE_DEPTH
    ensures forall i: nat | i < |t.at[p].leaves| :: t.at[p].leaves[i] < |t.leafArray|
    ensures forall i: nat | i < |t.leafArray| :: Proper(t.leafArray[i])
  {
    hide Proper, PathOf;
    forall i: nat | i < |t.at[p].leaves|
      ensures t.at[p].leaves[i] < |t.leafArray|
    {
      assert FiledAt(t.leafArray, p, t.at[p].leaves);
      assert t.at[p].leaves[i] in t.at[p].leaves;
    }
  }

  /** Every rule filed at the level lies before the end of its leaves. */
  lemma LevelSeen(leafArray: seq<Leaf>, host: string, level: nat, leaves: seq<nat>, k: int, i: nat)
    requires i < |leafArray| && Accepts(leafArray[i], host) && level <= |Labels(host)|
    requires FiledAt(leafArray, Labels(host)[..level], leaves) && k >= |leaves|
    ensures Passed(leafArray, level, leaves, k, i) <==> |PathOf(leafArray[i].name)| <= level
  {
    hide Labels, Accepts, PathOf;
    if |PathOf(leafArray[i].name)| == level {
      AcceptedOnPath(leafArray[i], host);
      assert i in leaves;
      var j: nat :| j < |leaves| && leaves[j] == i;
      assert UpTo(leaves, k, i);
    }
  }

  /** The rule the scan stops at accepts the host and is met for the first time. */
  lemma StopsAt(leafArray: seq<Leaf>, host: string, level: nat, leaves: seq<nat>, k: int, j: int)
    requires WellFormed(Lowered(host)) && level <= |Labels(host)| && -1 <= k < j < |leaves|
    requires FiledAt(leafArray, Labels(host)[..level], leaves) && leaves[j] < |leafArray| && Proper(leafArray[leaves[j]])
    requires LeafMatches(leafArray[leaves[j]], host, level == |Labels(host)|)
    ensures Accepts(leafArray[leaves[j]], host)
    ensures Passed(leafArray, level, leaves, j, leaves[j]) && !Passed(leafArray, level, leaves, k, leaves[j])
  {
    hide Labels, Accepts, PathOf, LeafMatches, WellFormed, Proper;
    var i := leaves[j];
    assert i in leaves;
    LeafIff(leafArray[i], host, level);
    assert UpTo(leaves, j, i);
  }

  /** `MatchArray` at the branch of the state. */
  method ScanLeaves(t: Table, s: State) returns (found: bool, index: nat)
    requires t.Valid() && On(t, s)
    modifies s`arrayIndex
    ensures t.Valid() && On(t, s)
    ensures !found ==> s.arrayIndex >= |s.cur.leaves|
    ensures found ==> index < |t.leafArray| && Accepts(t.leafArray[index], s.hostname)
    ensures found ==> Seen(t, s, index) && !old(Seen(t, s, index))
    ensures forall i: nat | i < |t.leafArray| && Accepts(t.leafArray[i], s.hostname) && Seen(t, s, i) ::
              old(Seen(t, s, i)) || (found && i == index)
    ensures forall i: nat | i < |t.leafArray| && old(Seen(t, s, i)) :: Seen(t, s, i)
  {
    hide Labels, WellFormed, Cursor, Table.Grown, Table.Filed, Accepts, LeafMatches, FiledAt, Proper, PathOf;
    LeavesAt(t, Labels(s.hostname)[..s.level]);
    LabelAt(s.hostname, s.copy, s.next, s.level);
    var j;
    found, j := Scan(t, s);
    index := if found then s.cur.leaves[j] else 0;
    forall i: nat | i < |t.leafArray| && Accepts(t.leafArray[i], s.hostname)
                    && Passed(t.leafArray, s.level, s.cur.leaves, j, i)
      ensures Seen(t, s, i) || (found && i == index)
    {
      ScanPasses(t.leafArray, s.hostname, s.level, s.cur.leaves, s.arrayIndex, j, i);
    }
    if found {
      StopsAt(t.leafArray, s.hostname, s.level, s.cur.leaves, s.arrayIndex, j);
    }
    s.arrayIndex := j;
  }

  method Scan(t: Table, s: State) returns (found: bool, j: int)
    requires t.Valid() && On(t, s)
    ensures t.Valid() && On(t, s) && j > s.arrayIndex && found == (j < |s.cur.leaves|)
    ensures forall i: nat | i < |s.cur.leaves| :: s.cur.leaves[i] < |t.leafArray|
    ensures found ==> LeafMatches(t.leafArray[s.cur.leaves[j]], s.hostname, s.level == |Labels(s.hostname)|)
    ensures forall i: nat | s.arrayIndex < i < j && i < |s.cur.leaves| ::
              !LeafMatches(t.leafArray[s.cur.leaves[i]], s.hostname, s.level == |Labels(s.hostname)|)
  {
    hide Labels, WellFormed, Cursor, FlatSound, FlatBound, Closed, Apart, Edges, Placed, FiledAt, LeafMatches;
    LeavesAt(t, Labels(s.hostname)[..s.level]);
    LabelAt(s.hostname, s.copy, s.next, s.level);
    found, j := MatchArray(t.leafArray, s.cur.leaves, s.arrayIndex, s.hostname, s.next == -1);
  }

  lemma NoneYet(leaves: seq<nat>)
    ensures forall i: nat :: !UpTo(leaves, -1, i)
  {
  }

  /** `MatchNext`: the next rule that accepts the host; none if all have been met. */
  method MatchNext(t: Table, s: State) returns (found: bool, index: nat)
    requires t.Valid() && On(t, s)
    modifies s`cur, s`level, s`arrayIndex, s`copy, s`next
    ensures t.Valid() && On(t, s)
    ensures found ==> index < |t.leafArray| && Accepts(t.leafArray[index], s.hostname)
    ensures found ==> Seen(t, s, index) && !old(Seen(t, s, index))
    ensures forall i: nat | i < |t.leafArray| && Accepts(t.leafArray[i], s.hostname) && Seen(t, s, i) ::
              old(Seen(t, s, i)) || (found && i == index)
    ensures forall i: nat | i < |t.leafArray| && old(Seen(t, s, i)) :: Seen(t, s, i)
    ensures !found ==> forall i: nat | i < |t.leafArray| && Accepts(t.leafArray[i], s.hostname) :: old(Seen(t, s, i))
  {
    hide Labels, WellFormed, Cursor, Table.Grown, Table.Filed, Accepts, Proper, PathOf, UpTo;
    found, index := false, 0;
    if |t.leafArray| <= 0 {
      return;
    }
    while s.level <= HOST_TABLE_DEPTH
      invariant t.Valid() && On(t, s) && !found
      invariant forall i: nat | i < |t.leafArray| && Accepts(t.leafArray[i], s.hostname) && Seen(t, s, i) :: old(Seen(t, s, i))
      invariant forall i: nat | i < |t.leafArray| && old(Seen(t, s, i)) :: Seen(t, s, i)
      decreases HOST_TABLE_DEPTH - s.level
    {
      found, index := ScanLeaves(t, s);
      if found {
        return;
      }
      LeavesAt(t, Labels(s.hostname)[..s.level]);
      forall i: nat | i < |t.leafArray| && Accepts(t.leafArray[i], s.hostname)
        ensures Seen(t, s, i) <==> |PathOf(t.leafArray[i].name)| <= s.level
      {
        LevelSeen(t.leafArray, s.hostname, s.level, s.cur.leaves, s.arrayIndex, i);
      }
      var r := Look(t, s);
      if r.None? {
        forall i: nat | i < |t.leafArray| && Accepts(t.leafArray[i], s.hostname)
          ensures old(Seen(t, s, i))
        {
          WayEnds(t, s.hostname, s.level, i);
        }
        return;
      }
      LeavesAt(t, Labels(s.hostname)[..s.level + 1]);
      Move(t, s, r.value);
      NoneYet(s.cur.leaves);
    }
  }

  /** The labels of a host that has just come in. */
  lemma FirstCursor(host: string, next: nat)
    requires WellFormed(Lowered(host)) && next <= |host|
    requires Split(Lowered(host))[|Split(Lowered(host))| - 1] == Lowered(host)[next..]
    ensures Cursor(host, Lowered(host), next, |Labels(host)|)
  {
    var sp := Split(Lowered(host));
    assert sp[..|sp|] == sp;
  }

  /** Where the top-level domain starts: after the last dot, or at the beginning. */
  method LastDot(copy: string) returns (next: nat)
    ensures next <= |copy| && Split(copy)[|Split(copy)| - 1] == copy[next..]
  {
    next := 0;
    for i := 0 to |copy|
      invariant next <= i && (next == 0 || copy[next - 1] == '.') && DotFree(copy[next..i])
    {
      if copy[i] == '.' {
        next := i + 1;
      } else {
        assert copy[next..i + 1] == copy[next..i] + [copy[i]];
      }
    }
    assert copy[next..|copy|] == copy[next..];
    LastLabel(copy, next);
  }

  method FirstLabel(t: Table, host: string) returns (next: nat)
    requires t.Valid() && WellFormed(Lowered(host))
    ensures t.Valid() && Cursor(host, Lowered(host), next, |Labels(host)|)
  {
    hide Labels, WellFormed, Cursor, FlatSound, FlatBound, Closed, Apart, Edges, Placed, FiledAt;
    next := LastDot(Lowered(host));
    FirstCursor(host, next);
  }

  /** `MatchFirst`, up to its call of `MatchNext`: the state before any rule. */
  method Begin(t: Table, s: State, host: string)
    requires t.Valid() && WellFormed(Lowered(host))
    modifies s`cur, s`level, s`arrayIndex, s`hostname, s`copy, s`next
    ensures t.Valid() && On(t, s) && s.hostname == host
    ensures forall i: nat | i < |t.leafArray| :: !Seen(t, s, i)
  {
    hide Labels, WellFormed, Cursor, Table.Grown, Table.Filed, PathOf, UpTo;
    var next := FirstLabel(t, host);
    t.RootPlace();
    s.cur, s.level, s.arrayIndex, s.hostname, s.copy, s.next := t.root, 0, -1, host, Lowered(host), next;
    assert Labels(host)[..0] == [];
    NoneYet(s.cur.leaves);
  }

  /** `MatchFirst`, then `MatchNext` until it says no: each rule that accepts the host, once. */
  method MatchAll(t: Table, s: State, host: string) returns (matches: seq<nat>)
    requires t.Valid() && WellFormed(Lowered(host))
    modifies s`cur, s`level, s`arrayIndex, s`hostname, s`copy, s`next
    ensures Distinct(matches)
    ensures forall i: nat :: i in matches <==> i < |t.leafArray| && Accepts(t.leafArray[i], host)
  {
    hide Labels, WellFormed, Cursor, Table.Grown, Table.Filed, Accepts, On, Seen;
    Begin(t, s, host);
    matches := [];
    var found: bool, index: nat := MatchNext(t, s);
    while found
      invariant t.Valid() && On(t, s) && s.hostname == host
      invariant found ==> index < |t.leafArray| && index !in matches && Accepts(t.leafArray[index], host) && Seen(t, s, index)
      invariant Distinct(matches)
      invariant forall i: nat | i in matches :: i < |t.leafArray| && Accepts(t.leafArray[i], host) && Seen(t, s, i)
      invariant forall i: nat | i < |t.leafArray| && Accepts(t.leafArray[i], host) && Seen(t, s, i) ::
                  i in matches || (found && i == index)
      invariant !found ==> forall i: nat | i < |t.leafArray| && Accepts(t.leafArray[i], host) :: i in matches
      decreases found, Unseen(t, s)
    {
      matches := matches + [index];
      ghost var before := Unseen(t, s);
      found, index := MatchNext(t, s);
      assert found ==> index in before && index !in Unseen(t, s) && Unseen(t, s) <= before;
    }
  }

  /** The rules not yet met. */
  ghost function Unseen(t: Table, s: State): set<nat>
    reads t`leafArray, s, {s.cur}`leaves
  {
    set i: nat | i < |t.leafArray| && !Seen(t, s, i)
  }
}
