/** The arena trie that files credentials under name sequences. */
module Trie {
  import opened Common
  import opened Urls

  datatype Node<T> = Node(children: seq<(string, nat)>, value: Option<T>)

  ghost predicate Sorted(children: seq<(string, nat)>) {
    forall i, j :: 0 <= i < j < |children| ==> Less(children[i].0, children[j].0)
  }

  /** Sorted labels, children after their parent, and one parent per node. */
  ghost predicate WellFormedArena<T>(a: seq<Node<T>>) {
    && a != []
    && (forall n :: 0 <= n < |a| ==> Sorted(a[n].children))
    && (forall n, i :: 0 <= n < |a| && 0 <= i < |a[n].children| ==> n < a[n].children[i].1 < |a|)
    && (forall n, i, m, j |
          && 0 <= n < |a| && 0 <= i < |a[n].children|
          && 0 <= m < |a| && 0 <= j < |a[m].children|
          && a[n].children[i].1 == a[m].children[j].1 :: n == m && i == j)
  }

  ghost predicate HasLabel(children: seq<(string, nat)>, name: string, i: int) {
    0 <= i < |children| && children[i].0 == name
  }

  ghost function Child(children: seq<(string, nat)>, name: string): Option<nat> {
    if exists i :: HasLabel(children, name, i) then
      var i :| HasLabel(children, name, i);
      Some(children[i].1)
    else None
  }

  lemma ChildAt(children: seq<(string, nat)>, i: nat)
    requires Sorted(children) && i < |children|
    ensures Child(children, children[i].0) == Some(children[i].1)
  {
    var name := children[i].0;
    assert HasLabel(children, name, i);
    forall j | HasLabel(children, name, j) ensures j == i {
      LessIrreflexive(name);
    }
  }

  /** The node reached from `from` along `key`. */
  ghost function Walk<T>(a: seq<Node<T>>, from: nat, key: seq<string>): (r: Option<nat>)
    requires WellFormedArena(a) && from < |a|
    ensures r.Some? ==> from <= r.value < |a| && (r.value == from ==> key == [])
    decreases |key|
  {
    if key == [] then Some(from)
    else
      match Child(a[from].children, key[0])
      case None => None
      case Some(c) => Walk(a, c, key[1..])
  }

  ghost function ValueAt<T>(a: seq<Node<T>>, key: seq<string>): Option<T>
    requires WellFormedArena(a)
  {
    match Walk(a, 0, key)
    case None => None
    case Some(n) => a[n].value
  }

  ghost predicate Represents<T>(a: seq<Node<T>>, entries: map<seq<string>, T>)
    requires WellFormedArena(a)
  {
    forall key :: ValueAt(a, key) == if key in entries then Some(entries[key]) else None
  }

  /** `n` is the length of the shortest stored prefix of `key` of length at least `from`. */
  ghost predicate IsShortest<T>(entries: map<seq<string>, T>, key: seq<string>, from: nat, n: nat) {
    from <= n <= |key| && key[..n] in entries && forall m :: from <= m < n ==> key[..m] !in entries
  }

  /** The value of the shortest stored non-empty prefix of `key`. */
  ghost function ShortestPrefix<T>(entries: map<seq<string>, T>, key: seq<string>): (r: Option<T>)
    ensures r.None? <==> forall n :: 1 <= n <= |key| ==> key[..n] !in entries
    ensures r.Some? ==> exists n: nat :: IsShortest(entries, key, 1, n) && r.value == entries[key[..n]]
  {
    ShortestFrom(entries, key, 1)
  }

  ghost function ShortestFrom<T>(entries: map<seq<string>, T>, key: seq<string>, from: nat): (r: Option<T>)
    ensures r.None? <==> forall n :: from <= n <= |key| ==> key[..n] !in entries
    ensures r.Some? ==> exists n: nat :: IsShortest(entries, key, from, n) && r.value == entries[key[..n]]
    decreases |key| - from
  {
    if from > |key| then None
    else if key[..from] in entries then
      assert IsShortest(entries, key, from, from);
      Some(entries[key[..from]])
    else
      var r := ShortestFrom(entries, key, from + 1);
      assert r.Some? ==> exists n: nat ::
        && IsShortest(entries, key, from + 1, n) && IsShortest(entries, key, from, n)
        && r.value == entries[key[..n]];
      r
  }

  // ---------------------------------------------------------------------------
  // Walks

  lemma {:induction false} WalkAppend<T>(a: seq<Node<T>>, from: nat, key: seq<string>, name: string)
    requires WellFormedArena(a) && from < |a|
    ensures Walk(a, from, key + [name]) ==
      match Walk(a, from, key)
      case None => None
      case Some(n) => Child(a[n].children, name)
    decreases |key|
  {
    if key == [] {
      assert [name][1..] == [] && key + [name] == [name];
    } else {
      assert (key + [name])[1..] == key[1..] + [name];
      match Child(a[from].children, key[0])
      case None =>
      case Some(c) => WalkAppend(a, c, key[1..], name);
    }
  }

  /** The last edge of a walk. */
  lemma LastEdge<T>(a: seq<Node<T>>, key: seq<string>) returns (n: nat, i: nat)
    requires WellFormedArena(a) && key != [] && Walk(a, 0, key).Some?
    ensures Walk(a, 0, Init(key)) == Some(n) && n < |a| && HasLabel(a[n].children, Last(key), i)
    ensures Walk(a, 0, key) == Some(a[n].children[i].1)
  {
    WalkAppend(a, 0, Init(key), Last(key));
    assert key == Init(key) + [Last(key)];
    n := Walk(a, 0, Init(key)).value;
    i :| HasLabel(a[n].children, Last(key), i) && Child(a[n].children, Last(key)) == Some(a[n].children[i].1);
  }

  /** Two keys never share a node. */
  lemma {:induction false} WalkInjective<T>(a: seq<Node<T>>, key: seq<string>, other: seq<string>)
    requires WellFormedArena(a)
    requires Walk(a, 0, key).Some? && Walk(a, 0, key) == Walk(a, 0, other)
    ensures key == other
    decreases |key|
  {
    if key != [] && other != [] {
      var n, i := LastEdge(a, key);
      var m, j := LastEdge(a, other);
      WalkInjective(a, Init(key), Init(other));
      InitAndLast(key);
      InitAndLast(other);
    }
  }

  // ---------------------------------------------------------------------------
  // Growing the arena

  function WithChild(children: seq<(string, nat)>, i: nat, name: string, id: nat): seq<(string, nat)>
    requires i <= |children|
  {
    children[..i] + [(name, id)] + children[i..]
  }

  function AddChild<T>(a: seq<Node<T>>, n: nat, i: nat, name: string): seq<Node<T>>
    requires n < |a| && i <= |a[n].children|
  {
    a[n := Node(WithChild(a[n].children, i, name, |a|), a[n].value)] + [Node([], None)]
  }

  /** `i` is where `name` belongs among `children`. */
  ghost predicate IsInsertionPoint(children: seq<(string, nat)>, name: string, i: nat) {
    && i <= |children|
    && (forall j :: 0 <= j < i ==> Less(children[j].0, name))
    && (forall j :: i <= j < |children| ==> Less(name, children[j].0))
  }

  lemma WithChildSorted(children: seq<(string, nat)>, i: nat, name: string, id: nat)
    requires Sorted(children) && IsInsertionPoint(children, name, i)
    ensures Sorted(WithChild(children, i, name, id))
  {
  }

  lemma WithChildLookup(children: seq<(string, nat)>, i: nat, name: string, id: nat, l: string)
    requires Sorted(children) && IsInsertionPoint(children, name, i)
    ensures Child(children, name) == None
    ensures Child(WithChild(children, i, name, id), l) == if l == name then Some(id) else Child(children, l)
  {
    var grown := WithChild(children, i, name, id);
    WithChildSorted(children, i, name, id);
    LessIrreflexive(name);
    assert forall j :: !HasLabel(children, name, j);
    if l == name {
      ChildAt(grown, i);
    } else if exists j :: HasLabel(children, l, j) {
      var j :| HasLabel(children, l, j);
      ChildAt(children, j);
      ChildAt(grown, if j < i then j else j + 1);
    } else {
      assert forall j :: HasLabel(grown, l, j) ==> HasLabel(children, l, if j < i then j else j - 1);
    }
  }

  lemma AddChildWellFormed<T>(a: seq<Node<T>>, n: nat, i: nat, name: string)
    requires WellFormedArena(a) && n < |a| && IsInsertionPoint(a[n].children, name, i)
    ensures WellFormedArena(AddChild(a, n, i, name))
  {
    var b := AddChild(a, n, i, name);
    WithChildSorted(a[n].children, i, name, |a|);
    forall m, j | 0 <= m < |b| && 0 <= j < |b[m].children| ensures m < b[m].children[j].1 < |b| {
      AddChildEdge(a, n, i, name, m, j);
    }
    forall m, j, m', j' |
      && 0 <= m < |b| && 0 <= j < |b[m].children|
      && 0 <= m' < |b| && 0 <= j' < |b[m'].children|
      && b[m].children[j].1 == b[m'].children[j'].1 ensures m == m' && j == j'
    {
      AddChildEdge(a, n, i, name, m, j);
      AddChildEdge(a, n, i, name, m', j');
    }
    forall m | 0 <= m < |b| ensures Sorted(b[m].children) {
      if m < |a| && m != n { assert b[m] == a[m]; }
    }
  }

  /** Where edge `j` of node `m` was before a child was inserted at `i` into node `n`. */
  function OldIndex(n: nat, i: nat, m: nat, j: nat): nat {
    if m == n && j > i then j - 1 else j
  }

  /** Every edge is the added one or an old one. */
  lemma AddChildEdge<T>(a: seq<Node<T>>, n: nat, i: nat, name: string, m: nat, j: nat)
    requires WellFormedArena(a) && n < |a| && i <= |a[n].children|
    requires m < |AddChild(a, n, i, name)| && j < |AddChild(a, n, i, name)[m].children|
    ensures m < |a|
    ensures var edge := AddChild(a, n, i, name)[m].children[j];
      if m == n && j == i then edge == (name, |a|)
      else OldIndex(n, i, m, j) < |a[m].children| && edge == a[m].children[OldIndex(n, i, m, j)]
  {
  }

  lemma {:induction false} WalkAfterAdd<T>(a: seq<Node<T>>, n: nat, i: nat, name: string, from: nat, key: seq<string>)
    requires WellFormedArena(a) && n < |a| && from < |a| && IsInsertionPoint(a[n].children, name, i)
    requires WellFormedArena(AddChild(a, n, i, name))
    ensures var (before, after) := (Walk(a, from, key), Walk(AddChild(a, n, i, name), from, key));
      if before.Some? then after == before else after.None? || after == Some(|a|)
    decreases |key|
  {
    var b := AddChild(a, n, i, name);
    if key != [] {
      if from == n { WithChildLookup(a[n].children, i, name, |a|, key[0]); }
      if from == n && key[0] == name {
        assert b[|a|].children == [];
      } else {
        assert Child(b[from].children, key[0]) == Child(a[from].children, key[0]);
        match Child(a[from].children, key[0])
        case None =>
        case Some(c) => WalkAfterAdd(a, n, i, name, c, key[1..]);
      }
    }
  }

  /** A fresh node is empty, so growing the arena changes no entry. */
  lemma AddChildKeepsEntries<T>(a: seq<Node<T>>, n: nat, i: nat, name: string, entries: map<seq<string>, T>)
    requires WellFormedArena(a) && n < |a| && IsInsertionPoint(a[n].children, name, i)
    requires WellFormedArena(AddChild(a, n, i, name))
    requires Represents(a, entries)
    ensures Represents(AddChild(a, n, i, name), entries)
  {
    forall key ensures ValueAt(AddChild(a, n, i, name), key) == ValueAt(a, key) {
      WalkAfterAdd(a, n, i, name, 0, key);
    }
  }

  lemma AddChildExtendsPath<T>(a: seq<Node<T>>, n: nat, i: nat, name: string, path: seq<string>)
    requires WellFormedArena(a) && n < |a| && IsInsertionPoint(a[n].children, name, i)
    requires WellFormedArena(AddChild(a, n, i, name))
    requires Walk(a, 0, path) == Some(n)
    ensures Walk(AddChild(a, n, i, name), 0, path + [name]) == Some(|a|)
  {
    WalkAfterAdd(a, n, i, name, 0, path);
    WalkAppend(AddChild(a, n, i, name), 0, path, name);
    WithChildLookup(a[n].children, i, name, |a|, name);
  }

  function SetValue<T>(a: seq<Node<T>>, n: nat, v: T): seq<Node<T>>
    requires n < |a|
  {
    a[n := Node(a[n].children, Some(v))]
  }

  lemma {:induction false} WalkAfterSet<T>(a: seq<Node<T>>, n: nat, v: T, from: nat, key: seq<string>)
    requires WellFormedArena(a) && n < |a| && from < |a|
    ensures WellFormedArena(SetValue(a, n, v))
    ensures Walk(SetValue(a, n, v), from, key) == Walk(a, from, key)
    decreases |key|
  {
    var b := SetValue(a, n, v);
    assert forall m :: 0 <= m < |a| ==> b[m].children == a[m].children;
    assert WellFormedArena(b);
    if key != [] {
      match Child(a[from].children, key[0])
      case None =>
      case Some(c) => WalkAfterSet(a, n, v, c, key[1..]);
    }
  }

  /** Storing a value changes the entry of exactly one key. */
  lemma SetValueUpdatesOne<T>(a: seq<Node<T>>, n: nat, v: T, path: seq<string>, entries: map<seq<string>, T>)
    requires WellFormedArena(a) && Walk(a, 0, path) == Some(n) && Represents(a, entries)
    ensures WellFormedArena(SetValue(a, n, v)) && Represents(SetValue(a, n, v), entries[path := v])
  {
    WalkAfterSet(a, n, v, 0, path);
    var b := SetValue(a, n, v);
    forall key ensures ValueAt(b, key) == if key == path then Some(v) else ValueAt(a, key) {
      WalkAfterSet(a, n, v, 0, key);
      if Walk(a, 0, key) == Some(n) { WalkInjective(a, key, path); }
    }
  }

  // ---------------------------------------------------------------------------
  // The trie

  /** `binary_search_by` over sorted labels. */
  method Search(children: seq<(string, nat)>, name: string) returns (r: Result<nat, nat>)
    requires Sorted(children)
    ensures r.Ok? ==> HasLabel(children, name, r.value)
    ensures r.Err? ==> IsInsertionPoint(children, name, r.error)
  {
    var lo, hi := 0, |children|;
    while lo < hi
      invariant 0 <= lo <= hi <= |children|
      invariant forall j :: 0 <= j < lo ==> Less(children[j].0, name)
      invariant forall j :: hi <= j < |children| ==> Less(name, children[j].0)
    {
      var mid := (lo + hi) / 2;
      if children[mid].0 == name {
        return Ok(mid);
      } else if Less(children[mid].0, name) {
        forall j | 0 <= j < mid ensures Less(children[j].0, name) {
          LessTransitive(children[j].0, children[mid].0, name);
        }
        lo := mid + 1;
      } else {
        LessTotal(children[mid].0, name);
        forall j | mid < j < |children| ensures Less(name, children[j].0) {
          LessTransitive(name, children[mid].0, children[j].0);
        }
        hi := mid;
      }
    }
    return Err(lo);
  }

  class UrlTrie<T> {
    var states: seq<Node<T>>
    /** The map this trie stands for. */
    ghost var entries: map<seq<string>, T>

    ghost predicate Valid()
      reads this
    {
      WellFormedArena(states) && Represents(states, entries)
    }

    constructor ()
      ensures Valid() && entries == map[]
    {
      states := [Node([], None)];
      entries := map[];
    }

    method Get(url: Url) returns (r: Option<T>)
      requires Valid()
      ensures r == if TrieKey(url).None? then None else ShortestPrefix(entries, TrieKey(url).value)
    {
      var segments := PathSegments(url);
      if segments.None? { return None; }
      var components := [PrintRealm(RealmOf(url))] + NonEmpty(segments.value);
      var state: nat := 0;
      assert components[..0] == [];
      for i := 0 to |components|
        invariant state < |states| && Walk(states, 0, components[..i]) == Some(state)
        invariant ShortestPrefix(entries, components) == ShortestFrom(entries, components, i + 1)
        invariant i > 0 ==> states[state].value.None?
      {
        var name := components[i];
        var found := Search(states[state].children, name);
        assert components[..i + 1] == components[..i] + [name];
        WalkAppend(states, 0, components[..i], name);
        if found.Err? {
          WithChildLookup(states[state].children, found.error, name, 0, name);
          NoLaterPrefix(states, entries, components, i);
          return None;
        }
        ChildAt(states[state].children, found.value);
        state := states[state].children[found.value].1;
        assert ValueAt(states, components[..i + 1]) == states[state].value;
        if states[state].value.Some? { return states[state].value; }
      }
      return states[state].value;
    }

    /** The child of `state` named `name`, allocated if it is missing. */
    method Descend(state: nat, name: string, ghost path: seq<string>) returns (next: nat)
      requires Valid() && state < |states| && Walk(states, 0, path) == Some(state)
      modifies this
      ensures Valid() && entries == old(entries)
      ensures next < |states| && Walk(states, 0, path + [name]) == Some(next)
    {
      var found := Search(states[state].children, name);
      match found
      case Ok(j) =>
        WalkAppend(states, 0, path, name);
        ChildAt(states[state].children, j);
        next := states[state].children[j].1;
      case Err(j) =>
        AddChildWellFormed(states, state, j, name);
        AddChildKeepsEntries(states, state, j, name, entries);
        AddChildExtendsPath(states, state, j, name, path);
        next := |states|;
        states := AddChild(states, state, j, name);
    }

    /** The node for `components`, with missing nodes allocated on the way. */
    method Reach(components: seq<string>) returns (state: nat)
      requires Valid()
      modifies this
      ensures Valid() && entries == old(entries)
      ensures state < |states| && Walk(states, 0, components) == Some(state)
    {
      state := 0;
      for i := 0 to |components|
        invariant Valid() && entries == old(entries)
        invariant state < |states| && Walk(states, 0, components[..i]) == Some(state)
      {
        state := Descend(state, components[i], components[..i]);
        assert components[..i + 1] == components[..i] + [components[i]];
      }
      assert components[..|components|] == components;
    }

    method Insert(url: Url, value: T)
      requires Valid()
      modifies this
      ensures Valid()
      ensures entries == if TrieKey(url).None? then old(entries) else old(entries)[TrieKey(url).value := value]
    {
      var segments := PathSegments(url);
      if segments.None? { return; }
      var components := [PrintRealm(RealmOf(url))] + NonEmpty(segments.value);
      var state := Reach(components);
      SetValueUpdatesOne(states, state, value, components, entries);
      states := SetValue(states, state, value);
      entries := entries[components := value];
    }
  }

  /** Once a name is missing, no longer prefix is stored either. */
  lemma NoLaterPrefix<T>(a: seq<Node<T>>, entries: map<seq<string>, T>, key: seq<string>, i: nat)
    requires WellFormedArena(a) && Represents(a, entries) && i < |key|
    requires Walk(a, 0, key[..i + 1]).None?
    ensures ShortestFrom(entries, key, i + 1) == None
  {
    forall n | i + 1 <= n <= |key| ensures key[..n] !in entries {
      WalkPrefix(a, key, i + 1, n);
      assert ValueAt(a, key[..n]) == None;
    }
  }

  lemma {:induction false} WalkPrefix<T>(a: seq<Node<T>>, key: seq<string>, m: nat, n: nat)
    requires WellFormedArena(a) && m <= n <= |key| && Walk(a, 0, key[..m]).None?
    ensures Walk(a, 0, key[..n]).None?
    decreases n
  {
    if m < n {
      WalkPrefix(a, key, m, n - 1);
      WalkAppend(a, 0, key[..n - 1], key[n - 1]);
      assert key[..n] == key[..n - 1] + [key[n - 1]];
    }
  }
}
