/** Host names: labels between dots, compared without regard to case. */
module HostNames {
  function LowerChar(c: char): char {
    if 'A' <= c <= 'Z' then c - 'A' + 'a' else c
  }

  function Lowered(s: string): (r: string)
    ensures |r| == |s| && forall i: nat | i < |s| :: r[i] == LowerChar(s[i])
  {
    seq(|s|, i requires 0 <= i < |s| => LowerChar(s[i]))
  }

  /** The pieces of a name between its dots. */
  function Split(s: string): (r: seq<string>)
    ensures r != []
  {
    if s == "" then [""]
    else if s[0] == '.' then [""] + Split(s[1..])
    else
      var rest := Split(s[1..]);
      [[s[0]] + rest[0]] + rest[1..]
  }

  function Join(ls: seq<string>): string {
    if ls == [] then ""
    else if |ls| == 1 then ls[0]
    else ls[0] + "." + Join(ls[1..])
  }

  predicate DotFree(s: string) {
    '.' !in s
  }

  lemma {:induction false} JoinSplit(s: string)
    ensures Join(Split(s)) == s
  {
    if s != "" {
      var rest := Split(s[1..]);
      JoinSplit(s[1..]);
      if s[0] == '.' {
        assert ([""] + rest)[1..] == rest;
      } else {
        assert ([[s[0]] + rest[0]] + rest[1..])[1..] == rest[1..];
      }
      assert s == [s[0]] + s[1..];
    }
  }

  lemma {:induction false} SplitDotFree(s: string)
    ensures forall i: nat | i < |Split(s)| :: DotFree(Split(s)[i])
  {
    if s != "" {
      SplitDotFree(s[1..]);
      var rest := Split(s[1..]);
      assert forall i: nat | i < |rest| :: DotFree(rest[i]);
    }
  }

  lemma {:induction false} SplitAlone(s: string)
    requires DotFree(s)
    ensures Split(s) == [s]
  {
    if s != "" {
      SplitAlone(s[1..]);
      assert s == [s[0]] + s[1..];
    }
  }

  lemma SplitStep(c: char, s: string)
    ensures Split([c] + s) == if c == '.' then [""] + Split(s) else [[c] + Split(s)[0]] + Split(s)[1..]
  {
    assert ([c] + s)[1..] == s;
  }

  lemma SplitNothing()
    ensures Split("") == [""]
  {
  }

  /** Splitting at any dot splits the labels. */
  lemma {:induction false} SplitAt(a: string, b: string)
    ensures Split(a + "." + b) == Split(a) + Split(b)
  {
    hide Split;
    if a == "" {
      assert a + "." + b == ['.'] + b;
      SplitStep('.', b);
      SplitNothing();
    } else {
      var c, tail := a[0], a[1..];
      assert a == [c] + tail;
      assert a + "." + b == [c] + (tail + "." + b);
      SplitStep(c, tail);
      SplitStep(c, tail + "." + b);
      SplitAt(tail, b);
      Glue(c, Split(tail), Split(b));
    }
  }

  lemma Glue(c: char, ts: seq<string>, bs: seq<string>)
    requires ts != []
    ensures [""] + (ts + bs) == ([""] + ts) + bs
    ensures [[c] + (ts + bs)[0]] + (ts + bs)[1..] == ([[c] + ts[0]] + ts[1..]) + bs
  {
    assert (ts + bs)[1..] == ts[1..] + bs;
  }

  lemma {:induction false} JoinAppend(a: seq<string>, b: seq<string>)
    requires a != [] && b != []
    ensures Join(a + b) == Join(a) + "." + Join(b)
  {
    if |a| == 1 {
      assert (a + b)[1..] == b;
    } else {
      assert (a + b)[1..] == a[1..] + b;
      JoinAppend(a[1..], b);
      assert a[0] + "." + (Join(a[1..]) + "." + Join(b)) == (a[0] + "." + Join(a[1..])) + "." + Join(b);
    }
  }

  /** Names with the same labels are the same. */
  lemma SplitInjective(a: string, b: string)
    requires Split(a) == Split(b)
    ensures a == b
  {
    JoinSplit(a);
    JoinSplit(b);
  }

  ghost predicate EndsWith<T>(s: seq<T>, t: seq<T>) {
    |t| <= |s| && s[|s| - |t|..] == t
  }

  /** `d` is all of `h`, or ends it after a dot. */
  ghost predicate Within(h: string, d: string) {
    h == d || (|d| < |h| && EndsWith(h, d) && h[|h| - |d| - 1] == '.')
  }

  lemma WithinSplits(h: string, d: string)
    requires Within(h, d)
    ensures EndsWith(Split(h), Split(d))
  {
    hide Split;
    if h != d {
      var x := h[..|h| - |d| - 1];
      assert h == x + "." + d;
      SplitAt(x, d);
    }
  }

  lemma SplitsWithin(h: string, d: string)
    requires EndsWith(Split(h), Split(d))
    ensures Within(h, d)
  {
    hide Split, Join;
    var n := |Split(h)| - |Split(d)|;
    var front := Split(h)[..n];
    JoinSplit(h);
    JoinSplit(d);
    if n == 0 {
      assert Split(h)[0..] == Split(h);
    } else {
      assert Split(h) == front + Split(d);
      JoinAppend(front, Split(d));
      assert h == Join(front) + "." + d;
      assert EndsWith(h, d);
    }
  }

  /** The labels of `d` end those of `h` if and only if `d` lies within `h`. */
  lemma SuffixIff(h: string, d: string)
    ensures EndsWith(Split(h), Split(d)) <==> Within(h, d)
  {
    if Within(h, d) {
      WithinSplits(h, d);
    }
    if EndsWith(Split(h), Split(d)) {
      SplitsWithin(h, d);
    }
  }

  /** A name: at least one label, none empty and none a negation. So no dot is at either end. */
  ghost predicate WellFormed(s: string) {
    forall i: nat | i < |Split(s)| :: Split(s)[i] != "" && Split(s)[i][0] != '!'
  }

  lemma WellFormedEnds(s: string)
    requires WellFormed(s)
    ensures s != "" && s[0] != '.' && s[|s| - 1] != '.'
  {
    assert Split(s)[0] != "";
    var a, last := s[..|s| - 1], Split(s)[|Split(s)| - 1];
    assert last != "";
    if s[|s| - 1] == '.' {
      assert s == a + "." + "";
      SplitAt(a, "");
    }
  }

  /** Before in the order of character codes, a name before its extensions. */
  ghost predicate Before(a: string, b: string) {
    exists i: nat :: i <= |a| && i < |b| && a[..i] == b[..i] && (i == |a| || a[i] < b[i])
  }

  /** `hostcmp`: zero for names equal but for case and one dot at the end, otherwise the sign of their order. */
  method HostCmp(c1: string, c2: string) returns (r: int)
    ensures r == 0 <==> Lowered(c1) == Lowered(c2) || Lowered(c1) == Lowered(c2) + "." || Lowered(c1) + "." == Lowered(c2)
    ensures r < 0 ==> Before(Lowered(c1), Lowered(c2))
    ensures r > 0 ==> Before(Lowered(c2), Lowered(c1))
  {
    hide LowerChar, Before;
    DotsStay(c1);
    DotsStay(c2);
    ghost var a, b := Lowered(c1), Lowered(c2);
    var i := 0;
    while i < |c1| && i < |c2|
      invariant i <= |c1| && i <= |c2| && a[..i] == b[..i]
    {
      if LowerChar(c1[i]) < LowerChar(c2[i]) {
        IsBefore(a, b, i);
        return -1;
      } else if LowerChar(c1[i]) > LowerChar(c2[i]) {
        IsBefore(b, a, i);
        return 1;
      }
      i := i + 1;
    }
    if i < |c2| {
      IsBefore(a, b, i);
      r := if c2[i] == '.' && i + 1 == |c2| then 0 else -1;
    } else if i < |c1| {
      IsBefore(b, a, i);
      r := if c1[i] == '.' && i + 1 == |c1| then 0 else 1;
    } else {
      r := 0;
    }
  }

  lemma IsBefore(a: string, b: string, i: nat)
    requires i <= |a| && i < |b| && a[..i] == b[..i] && (i == |a| || a[i] < b[i])
    ensures Before(a, b)
  {
  }

  /** A name without one dot at its end. */
  function Undotted(s: string): string {
    if s != "" && s[|s| - 1] == '.' then s[..|s| - 1] else s
  }

  /** `d` ends `h` at a dot, be it the first character of `d`; or `d` is `h` with a dot before it. */
  ghost predicate AtDot(h: string, d: string) {
    (EndsWith(h, d) && (|h| == |d| || d == "" || d[0] == '.' || h[|h| - |d| - 1] == '.')) || d == "." + h
  }

  /** What `domaincmp` answers on any two names. */
  ghost predicate InDomain(host: string, domain: string) {
    host != "" && domain != "" && AtDot(Lowered(Undotted(host)), Lowered(Undotted(domain)))
  }

  /** The walk of `domaincmp` back through both names, to where one ends or they differ. */
  method WalkBack(hs: string, ds: string) returns (h: int, d: int, same: bool)
    ensures -1 <= h < |hs| && -1 <= d < |ds| && |hs| - h == |ds| - d
    ensures Lowered(hs)[h + 1..] == Lowered(ds)[d + 1..]
    ensures if same then h == -1 || d == -1 else h >= 0 && d >= 0 && LowerChar(hs[h]) != LowerChar(ds[d])
  {
    hide LowerChar, Lowered;
    h, d := |hs| - 1, |ds| - 1;
    while d >= 0 && h >= 0
      invariant -1 <= h < |hs| && -1 <= d < |ds| && |hs| - h == |ds| - d
      invariant Lowered(hs)[h + 1..] == Lowered(ds)[d + 1..]
    {
      if LowerChar(ds[d]) != LowerChar(hs[h]) {
        return h, d, false;
      }
      Tail(Lowered(hs), h);
      Tail(Lowered(ds), d);
      d, h := d - 1, h - 1;
    }
    same := true;
  }

  lemma Tail<T>(s: seq<T>, i: nat)
    requires i < |s|
    ensures s[i..] == [s[i]] + s[i + 1..]
  {
  }

  /** `domaincmp`. */
  method DomainCmp(hostname: string, domain: string) returns (b: bool)
    ensures b == InDomain(hostname, domain)
  {
    hide AtDot;
    if domain == "" || hostname == "" {
      return false;
    }
    var d, h := |domain| - 1, |hostname| - 1;
    if domain[d] == '.' {
      d := d - 1;
    }
    if hostname[h] == '.' {
      h := h - 1;
    }
    assert hostname[..h + 1] == Undotted(hostname) && domain[..d + 1] == Undotted(domain);
    b := Ends(hostname[..h + 1], domain[..d + 1]);
  }

  /** The rest of `domaincmp`, the dots at the end being gone. */
  method Ends(hs: string, ds: string) returns (b: bool)
    ensures b == AtDot(Lowered(hs), Lowered(ds))
  {
    hide LowerChar, Lowered, EndsWith;
    var h, d, same := WalkBack(hs, ds);
    Verdict(hs, ds, h, d, same);
    DotsStay(hs);
    DotsStay(ds);
    if !same {
      return false;
    }
    if d < 0 {
      // A domain that was only a dot has nothing left, and its dot is where the walk stopped.
      return h < 0 || ds == "" || ds[0] == '.' || hs[h] == '.';
    }
    return ds[d] == '.' && d == 0;
  }

  lemma DotsStay(s: string)
    ensures forall i: nat | i < |s| :: Lowered(s)[i] == '.' <==> s[i] == '.'
  {
  }

  /** What the end of the walk says about the names walked through. */
  lemma Verdict(hs: string, ds: string, h: int, d: int, same: bool)
    requires -1 <= h < |hs| && -1 <= d < |ds| && |hs| - h == |ds| - d
    requires Lowered(hs)[h + 1..] == Lowered(ds)[d + 1..]
    requires if same then h == -1 || d == -1 else h >= 0 && d >= 0 && LowerChar(hs[h]) != LowerChar(ds[d])
    ensures EndsWith(Lowered(hs), Lowered(ds)) <==> same && d < 0
    ensures Lowered(ds) == "." + Lowered(hs) <==> same && h < 0 && d == 0 && ds[0] == '.'
  {
    var lh, ld := Lowered(hs), Lowered(ds);
    DotsStay(ds);
    hide LowerChar, Lowered;
    if !same {
      assert lh[h] != ld[d];
      assert |ld| <= |lh| ==> d < |lh[|lh| - |ld|..]| && lh[|lh| - |ld|..][d] == lh[h];
      assert d == h + 1 ==> ("." + lh)[d] == lh[h];
    }
    if same && d < 0 {
      assert ld[d + 1..] == ld;
    }
    if same && h < 0 {
      assert lh[h + 1..] == lh;
    }
  }

  lemma AtDotIff(h: string, d: string)
    requires d != "" && d[0] != '.'
    ensures AtDot(h, d) <==> Within(h, d)
  {
    if |h| == |d| {
      assert h[0..] == h;
    }
  }

  /** On well-formed names `domaincmp` compares labels. */
  lemma DomainLabels(host: string, rule: string)
    requires WellFormed(Lowered(host)) && WellFormed(Lowered(rule))
    ensures InDomain(host, rule) <==> EndsWith(Split(Lowered(host)), Split(Lowered(rule)))
  {
    hide Split, WellFormed, LowerChar, AtDot, Within, EndsWith;
    WellFormedEnds(Lowered(host));
    WellFormedEnds(Lowered(rule));
    DotsStay(host);
    DotsStay(rule);
    assert Undotted(host) == host && Undotted(rule) == rule;
    AtDotIff(Lowered(host), Lowered(rule));
    SuffixIff(Lowered(host), Lowered(rule));
  }

  /** On well-formed names `hostcmp` compares labels. */
  lemma HostLabels(host: string, rule: string)
    requires WellFormed(Lowered(host)) && WellFormed(Lowered(rule))
    ensures var h, r := Lowered(host), Lowered(rule); h == r || h == r + "." || h + "." == r <==> Split(h) == Split(r)
  {
    hide Split, WellFormed, LowerChar;
    var h, r := Lowered(host), Lowered(rule);
    WellFormedEnds(h);
    WellFormedEnds(r);
    assert (r + ".")[|r|] == '.' && (h + ".")[|h|] == '.';
    if Split(h) == Split(r) {
      SplitInjective(h, r);
    }
  }

  /** The pieces that are not empty. */
  function Nonempty(ls: seq<string>): seq<string> {
    if ls == [] then []
    else if ls[0] == "" then Nonempty(ls[1..])
    else [ls[0]] + Nonempty(ls[1..])
  }

  lemma {:induction false} NonemptyAppend(a: seq<string>, b: seq<string>)
    ensures Nonempty(a + b) == Nonempty(a) + Nonempty(b)
  {
    if a == [] {
      assert a + b == b;
    } else {
      assert (a + b)[1..] == a[1..] + b;
      NonemptyAppend(a[1..], b);
    }
  }

  lemma {:induction false} NonemptyAll(ls: seq<string>)
    requires forall i: nat | i < |ls| :: ls[i] != ""
    ensures Nonempty(ls) == ls
  {
    if ls != [] {
      assert ls == [ls[0]] + ls[1..];
      NonemptyAll(ls[1..]);
    }
  }

  /** What the tokenizer makes of a string: its pieces, empty ones left out. */
  function Tokens(s: string): seq<string> {
    Nonempty(Split(s))
  }

  /** A word and a dot at `from`: the word, if there is one, is a token. */
  lemma TokenAt(s: string, from: nat, i: nat)
    requires from <= i < |s| && s[i] == '.' && DotFree(s[from..i])
    ensures Tokens(s[from..]) == (if from == i then [] else [s[from..i]]) + Tokens(s[i + 1..])
  {
    var w, rest := s[from..i], s[i + 1..];
    assert s[from..] == w + "." + rest;
    SplitAt(w, rest);
    SplitAlone(w);
    hide Split;
    NonemptyAppend([w], Split(rest));
  }

  /** A word at the end, if there is one, is a token. */
  lemma TokenLast(w: string)
    requires DotFree(w)
    ensures Tokens(w) == if w == "" then [] else [w]
  {
    SplitAlone(w);
    assert Nonempty([w][1..]) == [];
  }

  lemma LongerWord(s: string, from: nat, i: nat)
    requires from <= i < |s| && s[i] != '.' && DotFree(s[from..i])
    ensures DotFree(s[from..i + 1])
  {
    assert s[from..i + 1] == s[from..i] + [s[i]];
  }

  /** `Tokenizer::Initialize` on a dot, without a limit. */
  method Tokenize(s: string) returns (tokens: seq<string>)
    ensures tokens == Tokens(s)
  {
    hide Tokens, DotFree;
    tokens := [];
    var i, tokStart := 0, 0;
    var priorDelimit := true;
    assert s[0..] == s;
    ghost var from := 0;
    NoWord(s, 0);
    while i < |s|
      invariant from == (if priorDelimit then i else tokStart) && from <= i <= |s| && (!priorDelimit ==> from < i)
      invariant DotFree(s[from..i])
      invariant Tokens(s) == tokens + Tokens(s[from..])
    {
      if s[i] == '.' {
        TokenAt(s, from, i);
        if !priorDelimit {
          tokens := tokens + [s[tokStart..i]];
        }
        priorDelimit := true;
        from := i + 1;
        NoWord(s, from);
      } else {
        LongerWord(s, from, i);
        if priorDelimit {
          tokStart := i;
        }
        priorDelimit := false;
      }
      i := i + 1;
    }
    assert s[from..] == s[from..i];
    TokenLast(s[from..]);
    if !priorDelimit {
      tokens := tokens + [s[tokStart..i]];
    }
  }

  lemma NoWord(s: string, i: nat)
    requires i <= |s|
    ensures DotFree(s[i..i])
  {
  }
}
