/** The label tree of the host table: a character trie first, then arrays that become hash tables. */
module HostTable {
  import opened HostNames
  import opened CharIndex
  import opened Options
  import opened Sequences

  const HOST_TABLE_DEPTH := 3
  const HOST_ARRAY_MAX := 8

  /** A path of labels from the root: top-level domain first. */
  type Path = seq<string>

  /** A label as the tree holds it. */
  ghost predicate Clean(l: string) {
    l != "" && l[0] != '!' && Lower(l)
  }

  /** What is below a branch. */
  datatype Level =
    | Terminal
    | Hash(table: map<string, Branch>)
    | Indexed(index: Index<Branch>)
    | Array(keys: seq<string>, branches: seq<Branch>)

  class Branch {
    const level: nat
    var next: Level
    var leaves: seq<nat>

    constructor (level: nat)
      ensures this.level == level && next == Terminal && leaves == []
    {
      this.level, next, leaves := level, Terminal, [];
    }
  }

  /** `hostArray::Lookup` without negated keys: the first entry with the key. */
  function ArrayFind(keys: seq<string>, branches: seq<Branch>, key: string): Option<Branch>
    requires |keys| == |branches|
  {
    if keys == [] then None
    else if keys[0] == key then Some(branches[0])
    else ArrayFind(keys[1..], branches[1..], key)
  }

  /** With `notProcess` a key after a `!` stands for every other name; `!` alone stands for none. */
  predicate Names(k: string, key: string, notProcess: bool) {
    !(notProcess && k != "" && k[0] == '!') && k == key
  }

  predicate Denies(k: string, key: string, notProcess: bool) {
    notProcess && k != "" && k[0] == '!' && k != "!" && k[1..] != key
  }

  /** `hostArray::Lookup`: the first entry with the key, otherwise the last whose negated key is another. */
  method ArrayLookup(keys: seq<string>, branches: seq<Branch>, key: string, notProcess: bool) returns (r: Option<Branch>)
    requires |keys| == |branches|
    ensures r.None? <==> forall i: nat | i < |keys| :: !Names(keys[i], key, notProcess) && !Denies(keys[i], key, notProcess)
    ensures forall i: nat | i < |keys| && Names(keys[i], key, notProcess)
              && (forall j: nat | j < i :: !Names(keys[j], key, notProcess)) :: r == Some(branches[i])
    ensures (forall i: nat | i < |keys| :: !Names(keys[i], key, notProcess)) ==>
              forall i: nat | i < |keys| && Denies(keys[i], key, notProcess)
                && (forall j: nat | i < j < |keys| :: !Denies(keys[j], key, notProcess)) :: r == Some(branches[i])
    ensures !notProcess || (forall i: nat | i < |keys| :: keys[i] == "" || keys[i][0] != '!') ==> r == ArrayFind(keys, branches, key)
  {
    r := None;
    assert keys[0..] == keys && branches[0..] == branches;
    var i := 0;
    while i < |keys|
      invariant i <= |keys| && forall j: nat | j < i :: !Names(keys[j], key, notProcess)
      invariant r.None? <==> forall j: nat | j < i :: !Denies(keys[j], key, notProcess)
      invariant forall k: nat | k < i && Denies(keys[k], key, notProcess)
                  && (forall j: nat | k < j < i :: !Denies(keys[j], key, notProcess)) :: r == Some(branches[k])
      invariant !notProcess || (forall j: nat | j < |keys| :: keys[j] == "" || keys[j][0] != '!') ==>
          r == None && ArrayFind(keys, branches, key) == ArrayFind(keys[i..], branches[i..], key)
    {
      if notProcess && keys[i] != "" && keys[i][0] == '!' {
        if keys[i] != "!" && keys[i][1..] != key {
          r := Some(branches[i]);
        }
      } else if keys[i] == key {
        r := Some(branches[i]);
        assert Names(keys[i], key, notProcess);
        return;
      }
      i := i + 1;
    }
  }

  /** The entries of an array as a hash table, later ones over earlier ones. */
  function Hashed(keys: seq<string>, branches: seq<Branch>, table: map<string, Branch>): map<string, Branch>
    requires |keys| == |branches|
  {
    if keys == [] then table else Hashed(keys[1..], branches[1..], table[keys[0] := branches[0]])
  }

  /** Moving an array into a hash table moves its bindings. */
  lemma {:induction false} HashedFinds(keys: seq<string>, branches: seq<Branch>, table: map<string, Branch>, key: string)
    requires |keys| == |branches| && Distinct(keys)
    ensures var h := Hashed(keys, branches, table);
            (if key in h then Some(h[key]) else None) ==
            (match ArrayFind(keys, branches, key)
             case Some(b) => Some(b)
             case None => if key in table then Some(table[key]) else None)
  {
    if keys != [] {
      var ks, bs := keys[1..], branches[1..];
      assert forall i: nat | i < |ks| :: ks[i] == keys[i + 1] && keys[0] != keys[i + 1];
      HashedFinds(ks, bs, table[keys[0] := branches[0]], key);
      FoundIn(ks, bs, keys[0]);
    }
  }

  lemma {:induction false} FoundIn(keys: seq<string>, branches: seq<Branch>, key: string)
    requires |keys| == |branches|
    ensures ArrayFind(keys, branches, key).Some? <==> key in keys
  {
    if keys != [] {
      FoundIn(keys[1..], branches[1..], key);
      assert keys == [keys[0]] + keys[1..];
    }
  }

  /** Appending a new key changes no other binding. */
  lemma {:induction false} FoundAppend(keys: seq<string>, branches: seq<Branch>, l: string, b: Branch, key: string)
    requires |keys| == |branches|
    ensures ArrayFind(keys + [l], branches + [b], key) ==
            (if ArrayFind(keys, branches, key).Some? then ArrayFind(keys, branches, key) else if key == l then Some(b) else None)
  {
    if keys == [] {
      assert keys + [l] == [l] && branches + [b] == [b];
    } else {
      assert (keys + [l])[1..] == keys[1..] + [l] && (branches + [b])[1..] == branches[1..] + [b];
      FoundAppend(keys[1..], branches[1..], l, b, key);
    }
  }

  /** The loop that fills the new hash table from the array. */
  method MoveToHash(keys: seq<string>, branches: seq<Branch>, l: string, b: Branch) returns (table: map<string, Branch>)
    requires |keys| == |branches|
    ensures table == Hashed(keys, branches, map[l := b])
  {
    table := map[l := b];
    var i := 0;
    assert keys[0..] == keys && branches[0..] == branches;
    while i < |keys|
      invariant i <= |keys|
      invariant Hashed(keys[i..], branches[i..], table) == Hashed(keys, branches, map[l := b])
    {
      table := table[keys[i] := branches[i]];
      i := i + 1;
    }
  }

  ghost function Indexes(n: Level): set<Index<Branch>> {
    if n.Indexed? then {n.index} else {}
  }

  ghost function Elements(n: Level): set<Element<Branch>>
    reads Indexes(n)`nodes
  {
    if n.Indexed? then n.index.Nodes() else {}
  }

  ghost predicate FlatSound(n: Level) {
    n.Array? ==>
      && |n.keys| == |n.branches| <= HOST_ARRAY_MAX && Distinct(n.keys)
      && forall i: nat | i < |n.keys| :: n.keys[i] == "" || n.keys[i][0] != '!'
  }

  /** What an array or a hash table binds a label to. */
  ghost function FlatBound(n: Level, l: string): Option<Branch>
    requires FlatSound(n)
  {
    match n
    case Hash(table) => if l in table then Some(table[l]) else None
    case Array(keys, branches) => ArrayFind(keys, branches, l)
    case _ => None
  }

  /** The container below a branch is in order. */
  ghost predicate Sound(n: Level)
    reads Indexes(n)`nodes, Indexes(n)`illegal, Elements(n)`branches, Elements(n)`next
  {
    FlatSound(n) && (n.Indexed? ==> n.index.Valid())
  }

  /** What a container binds a label to. */
  ghost function Bound(n: Level, l: string): Option<Branch>
    requires Sound(n)
    reads Indexes(n)`nodes, Indexes(n)`illegal, Elements(n)`branches, Elements(n)`next
  {
    if n.Indexed? then n.index.Find(l) else FlatBound(n, l)
  }

  /** `FindNextLevel`. */
  method FindNextLevel(from: Branch, l: string, notProcess: bool) returns (r: Option<Branch>)
    requires Sound(from.next)
    ensures r == Bound(from.next, l)
  {
    match from.next {
      case Terminal => r := None;
      case Hash(table) => r := if l in table then Some(table[l]) else None;
      case Indexed(index) => r := index.Lookup(l);
      case Array(keys, branches) => r := ArrayLookup(keys, branches, l, notProcess);
    }
  }

  /** The array part of `InsertBranch`. */
  method InsertArray(keys: seq<string>, branches: seq<Branch>, l: string, b: Branch) returns (n: Level)
    requires Sound(Array(keys, branches)) && Clean(l) && Bound(Array(keys, branches), l) == None
    ensures !n.Indexed? && !n.Terminal? && Sound(n)
    ensures Bound(n, l) == Some(b)
    ensures forall m: string | m != l :: Bound(n, m) == Bound(Array(keys, branches), m)
  {
    hide ArrayFind, Hashed;
    if |keys| < HOST_ARRAY_MAX {
      n := Array(keys + [l], branches + [b]);
      FoundIn(keys, branches, l);
      forall m: string
        ensures ArrayFind(keys + [l], branches + [b], m) == if m == l then Some(b) else ArrayFind(keys, branches, m)
      {
        FoundAppend(keys, branches, l, b, m);
      }
    } else {
      var table := MoveToHash(keys, branches, l, b);
      n := Hash(table);
      forall m: string
        ensures Bound(n, m) == if m == l then Some(b) else ArrayFind(keys, branches, m)
      {
        HashedFinds(keys, branches, map[l := b], m);
      }
    }
  }

  /** `InsertBranch`: a new branch for a label that has none. */
  method InsertBranch(from: Branch, l: string) returns (b: Branch)
    requires Sound(from.next) && !from.next.Terminal? && Clean(l) && Bound(from.next, l) == None
    modifies from`next, Indexes(from.next)`illegal, Indexes(from.next)`nodes
    modifies Elements(from.next)`branches, Elements(from.next)`next
    ensures fresh(b) && b.level == from.level + 1 && b.next == Terminal && b.leaves == []
    ensures Sound(from.next) && !from.next.Terminal? && Indexes(from.next) == old(Indexes(from.next))
    ensures fresh(Elements(from.next) - old(Elements(from.next)))
    ensures Bound(from.next, l) == Some(b)
    ensures forall m: string | Lower(m) && m != l :: Bound(from.next, m) == old(Bound(from.next, m))
  {
    hide ArrayFind, Hashed, Index.Valid, Index.Find;
    b := new Branch(from.level + 1);
    match from.next {
      case Hash(table) =>
        from.next := Hash(table[l := b]);
      case Indexed(index) =>
        index.Insert(l, b);
      case Array(keys, branches) =>
        var n := InsertArray(keys, branches, l, b);
        from.next := n;
    }
  }

  /** `TableNewLevel`: the first branch below this one. */
  method NewLevel(from: Branch, l: string) returns (b: Branch)
    requires from.next == Terminal && Clean(l)
    modifies from`next
    ensures fresh(b) && b.level == from.level + 1 && b.next == Terminal && b.leaves == []
    ensures Sound(from.next) && !from.next.Terminal? && (from.next.Indexed? <==> from.level == 0)
    ensures fresh(Indexes(from.next)) && fresh(Elements(from.next))
    ensures Bound(from.next, l) == Some(b)
    ensures forall m: string | Lower(m) && m != l :: Bound(from.next, m) == None
  {
    hide Index.Valid, Index.Find;
    if from.level == 0 {
      var index := new Index();
      from.next := Indexed(index);
    } else {
      from.next := Array([], []);
    }
    assert forall m: string :: Bound(from.next, m) == None;
    b := InsertBranch(from, l);
  }
}
