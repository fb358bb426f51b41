/** What a rule of the host table accepts, and what the matcher asks of a leaf it comes to. */
module HostMatch {
  import opened HostNames
  import opened HostTable
  import opened HostLookup

  /** What a scan of the rules accepts: a host rule the same labels, a domain rule any labels before its own. */
  ghost predicate Accepts(leaf: Leaf, host: string) {
    if IsDomain(leaf.kind) then Labels(leaf.name) <= Labels(host) else Labels(leaf.name) == Labels(host)
  }

  /** What the matcher asks of a leaf on its way, `hostDone` when no label of the host is left. */
  ghost predicate LeafMatches(leaf: Leaf, host: string, hostDone: bool) {
    match leaf.kind
    case HostPartial =>
      var h, r := Lowered(host), Lowered(leaf.name);
      h == r || h == r + "." || h + "." == r
    case HostComplete => hostDone
    case DomainPartial => InDomain(host, leaf.name)
    case DomainComplete => true
  }

  lemma ReversedEquals<T>(a: seq<T>, b: seq<T>)
    ensures Reversed(a) == Reversed(b) <==> a == b
  {
    if Reversed(a) == Reversed(b) {
      assert |a| == |b|;
      forall i: nat | i < |a|
        ensures a[i] == b[i]
      {
        assert a[i] == Reversed(a)[|a| - 1 - i] == Reversed(b)[|b| - 1 - i] == b[i];
      }
    }
  }

  lemma ReversedEnds<T>(a: seq<T>, b: seq<T>)
    ensures Reversed(b) <= Reversed(a) <==> EndsWith(a, b)
  {
    if |b| <= |a| {
      var tail, n := a[|a| - |b|..], |b|;
      ReversedEquals(tail, b);
      assert Reversed(a)[..n] == Reversed(tail);
    }
  }

  /** A rule that accepts a host is filed on the host's way down the tree. */
  lemma AcceptedOnPath(leaf: Leaf, host: string)
    requires Accepts(leaf, host)
    ensures PathOf(leaf.name) <= Labels(host) && PathOf(leaf.name) == Labels(host)[..|PathOf(leaf.name)|]
  {
    hide Labels;
  }

  /** On that way the question asked of the leaf is the scan's. */
  lemma LeafIff(leaf: Leaf, host: string, level: nat)
    requires Proper(leaf) && WellFormed(Lowered(host))
    requires level <= |Labels(host)| && PathOf(leaf.name) == Labels(host)[..level]
    ensures LeafMatches(leaf, host, level == |Labels(host)|) <==> Accepts(leaf, host)
  {
    var h, r := Lowered(host), Lowered(leaf.name);
    match leaf.kind
    case HostPartial =>
      HostLabels(host, leaf.name);
      ReversedEquals(Split(h), Split(r));
    case DomainPartial =>
      DomainLabels(host, leaf.name);
      ReversedEnds(Split(h), Split(r));
    case _ =>
      assert PathOf(leaf.name) == Labels(leaf.name);
      assert Labels(host)[..level] <= Labels(host);
      assert level == |Labels(host)| ==> Labels(host)[..level] == Labels(host);
  }
}
