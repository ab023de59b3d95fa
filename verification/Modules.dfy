/** Dropping module names that are already included through a parent module. */
module Modules {
  import opened Common

  predicate IsAncestor(a: string, d: string) {
    a < d && d[|a|] == '.'
  }

  ghost predicate StrictlySorted(s: seq<string>) {
    forall i, j :: 0 <= i < j < |s| ==> Less(s[i], s[j])
  }

  ghost predicate SortedNames(s: seq<string>) {
    forall i, j :: 0 <= i < j < |s| ==> s[i] == s[j] || Less(s[i], s[j])
  }

  function Names(s: seq<string>): set<string> {
    set n | n in s
  }

  // ---------------------------------------------------------------------------
  // What pruning computes

  /** `kept[k]` is the last kept name not above `n`, and it includes `n`. */
  ghost predicate CoveredAt(kept: seq<string>, n: string, k: int) {
    0 <= k < |kept| && (kept[k] == n || IsAncestor(kept[k], n)) && (k + 1 < |kept| ==> Less(n, kept[k + 1]))
  }

  ghost predicate Covered(kept: seq<string>, n: string) {
    exists k :: CoveredAt(kept, n, k)
  }

  ghost predicate IsPruning(names: set<string>, kept: seq<string>) {
    && StrictlySorted(kept)
    && (forall i :: 0 <= i < |kept| ==> kept[i] in names)
    && (forall n :: n in names ==> Covered(kept, n))
    && (forall i :: 0 < i < |kept| ==> !IsAncestor(kept[i - 1], kept[i]))
  }

  /** Names that no other name includes. */
  ghost predicate Minimal(names: set<string>, n: string) {
    n in names && forall a :: a in names ==> !IsAncestor(a, n)
  }

  /**
   A minimal name with a descendant, and an extension of it by a character below '.', which sorts
   between the two.
   */
  ghost predicate Interposed(names: set<string>, a: string, m: string, d: string) {
    Minimal(names, a) && m in names && d in names && IsAncestor(a, d) && a < m && m[|a|] < '.'
  }

  lemma AncestorIsLess(a: string, d: string)
    requires a < d
    ensures Less(a, d)
  {
  }

  lemma LessAsymmetric(a: string, b: string)
    requires Less(a, b)
    ensures a != b && !Less(b, a)
  {
  }

  // ---------------------------------------------------------------------------
  // Pruning is determined by the set of names

  /** A name that sorts between two kept names is included by the lower one. */
  lemma KeptIndex(names: set<string>, kept: seq<string>, i: nat, n: string)
    requires IsPruning(names, kept) && n in names
    requires i <= |kept| && (i < |kept| ==> Less(n, kept[i]))
    requires i > 0 ==> Less(kept[i - 1], n)
    ensures 0 < i && IsAncestor(kept[i - 1], n)
  {
    assert Covered(kept, n);
    var k :| CoveredAt(kept, n, k);
    NotAfter(kept[k], n);
    if i < k {
      LessTransitive(n, kept[i], kept[k]);
    } else if k < i - 1 {
      if k + 1 < i - 1 { LessTransitive(n, kept[k + 1], kept[i - 1]); }
      LessAsymmetric(n, kept[i - 1]);
    } else {
      LessIrreflexive(n);
    }
  }

  lemma NotAfter(a: string, n: string)
    requires a == n || IsAncestor(a, n)
    ensures !Less(n, a)
  {
  }

  lemma SameNext(names: set<string>, a: seq<string>, b: seq<string>, j: nat)
    requires IsPruning(names, a) && IsPruning(names, b)
    requires j < |a| && j <= |b| && (j > 0 ==> a[j - 1] == b[j - 1])
    ensures j < |b| && a[j] == b[j]
  {
    if j < |b| { LessTotal(a[j], b[j]); }
    if j < |b| && Less(b[j], a[j]) {
      KeptIndex(names, a, j, b[j]);
    } else if j == |b| || a[j] != b[j] {
      KeptIndex(names, b, j, a[j]);
    }
  }

  lemma {:induction false} PruningPrefix(names: set<string>, a: seq<string>, b: seq<string>, i: nat)
    requires IsPruning(names, a) && IsPruning(names, b) && i <= |a|
    ensures i <= |b| && forall k :: 0 <= k < i ==> a[k] == b[k]
  {
    if i > 0 {
      PruningPrefix(names, a, b, i - 1);
      SameNext(names, a, b, i - 1);
    }
  }

  /** Two prunings of the same set of names are equal, whatever list they came from. */
  lemma PruningIsUnique(names: set<string>, a: seq<string>, b: seq<string>)
    requires IsPruning(names, a) && IsPruning(names, b)
    ensures a == b
  {
    PruningPrefix(names, a, b, |a|);
    PruningPrefix(names, b, a, |b|);
  }

  // ---------------------------------------------------------------------------
  // When the kept names are exactly the minimal ones

  /** Minimal names are never dropped. */
  lemma {:induction false} MinimalIsKept(names: set<string>, kept: seq<string>, n: string)
    requires IsPruning(names, kept) && Minimal(names, n)
    ensures n in kept
  {
    assert Covered(kept, n);
    var k :| CoveredAt(kept, n, k);
  }

  lemma {:induction false} MinimalAncestor(names: set<string>, d: string) returns (a: string)
    requires d in names
    ensures Minimal(names, a) && (a == d || IsAncestor(a, d))
    decreases |d|
  {
    a := d;
    if !Minimal(names, d) {
      var p :| p in names && IsAncestor(p, d);
      a := MinimalAncestor(names, p);
    }
  }

  /** The kept name before a non-minimal one extends its ancestor too. */
  lemma BeforeNonMinimal(names: set<string>, kept: seq<string>, i: nat) returns (a: string)
    requires IsPruning(names, kept) && i < |kept| && !Minimal(names, kept[i])
    ensures i > 0 && Minimal(names, a) && IsAncestor(a, kept[i]) && a < kept[i - 1] && kept[i - 1][|a|] <= '.'
  {
    a := MinimalAncestor(names, kept[i]);
    MinimalIsKept(names, kept, a);
    var k :| 0 <= k < |kept| && kept[k] == a;
    AncestorComesFirst(kept, k, i);
    BetweenExtends(a, kept[i - 1], kept[i]);
  }

  /** If a kept name is not minimal, the first such name was separated from its ancestor. */
  lemma {:induction false} KeptWrongly(names: set<string>, kept: seq<string>, i: nat)
    returns (a: string, m: string, d: string)
    requires IsPruning(names, kept) && i < |kept| && !Minimal(names, kept[i])
    ensures Interposed(names, a, m, d)
    decreases i
  {
    a := BeforeNonMinimal(names, kept, i);
    m, d := kept[i - 1], kept[i];
    if m[|a|] == '.' {
      assert IsAncestor(a, m) && !Minimal(names, m);
      a, m, d := KeptWrongly(names, kept, i - 1);
    }
  }

  lemma AncestorComesFirst(kept: seq<string>, k: nat, i: nat)
    requires StrictlySorted(kept) && k < |kept| && i < |kept| && IsAncestor(kept[k], kept[i])
    requires i > 0 ==> !IsAncestor(kept[i - 1], kept[i])
    ensures k < i - 1 && Less(kept[k], kept[i - 1]) && Less(kept[i - 1], kept[i])
  {
    AncestorIsLess(kept[k], kept[i]);
    LessAsymmetric(kept[k], kept[i]);
  }

  /** An interposed name shows up among the kept names, between the ancestor and the descendant. */
  lemma InterposedIsKept(names: set<string>, kept: seq<string>, a: string, m: string, d: string) returns (q: string)
    requires IsPruning(names, kept) && Interposed(names, a, m, d)
    ensures q in kept && a < q && q[|a|] < '.'
  {
    assert Covered(kept, m);
    var k :| CoveredAt(kept, m, k);
    q := kept[k];
    assert |q| <= |a| ==> q == a || IsAncestor(q, a);
  }

  /** ... and then some descendant of `a` is kept. */
  lemma InterposedKeepsDescendant(names: set<string>, kept: seq<string>, a: string, m: string, d: string)
    returns (r: string)
    requires IsPruning(names, kept) && Interposed(names, a, m, d)
    ensures r in kept && IsAncestor(a, r)
  {
    var q := InterposedIsKept(names, kept, a, m, d);
    var i :| 0 <= i < |kept| && kept[i] == q;
    assert Covered(kept, d);
    var k :| CoveredAt(kept, d, k);
    r := kept[k];
    if r != d {
      ExtensionBelow(a, q, d);
      KeptBefore(kept, q, i, d, k);
      AncestorIsLess(a, q);
      if q != r { LessTransitive(a, q, r); }
      AncestorIsLess(r, d);
      BetweenExtends(a, r, d);
    }
  }

  /** Kept names below `d` are not above the name that covers it. */
  lemma KeptBefore(kept: seq<string>, q: string, i: nat, d: string, k: nat)
    requires StrictlySorted(kept) && i < |kept| && kept[i] == q && CoveredAt(kept, d, k) && Less(q, d)
    ensures q == kept[k] || Less(q, kept[k])
  {
    if k < i {
      if k + 1 < i { LessTransitive(d, kept[k + 1], q); }
      LessAsymmetric(q, d);
    }
  }

  lemma ExtensionBelow(a: string, q: string, d: string)
    requires a < q && q[|a|] < '.' && IsAncestor(a, d)
    ensures Less(q, d)
  {
    assert q == a + q[|a|..] && d == a + d[|a|..];
    LessAfterPrefix(a, q[|a|..], d[|a|..]);
  }

  ghost predicate SomethingInterposed(names: set<string>) {
    exists a, m, d :: Interposed(names, a, m, d)
  }

  /** Pruning keeps exactly the minimal names, unless a name sorts between a minimal name and its descendant. */
  lemma PruningIsMinimalExactly(names: set<string>, kept: seq<string>)
    requires IsPruning(names, kept)
    ensures (forall n :: n in kept <==> Minimal(names, n)) <==> !SomethingInterposed(names)
  {
    forall n | Minimal(names, n) ensures n in kept {
      MinimalIsKept(names, kept, n);
    }
    if n :| n in kept && !Minimal(names, n) {
      var i :| 0 <= i < |kept| && kept[i] == n;
      var a, m, d := KeptWrongly(names, kept, i);
    }
    if SomethingInterposed(names) {
      var a, m, d :| Interposed(names, a, m, d);
      var r := InterposedKeepsDescendant(names, kept, a, m, d);
      assert !Minimal(names, r);
    }
  }

  predicate IsDottedName(n: string) {
    forall i :: 0 <= i < |n| ==> n[i] >= '.'
  }

  /** Names made of characters from '.' on, such as identifiers and dots, are always pruned to the minimal ones. */
  lemma IdentifiersAreFine(names: set<string>, kept: seq<string>)
    requires IsPruning(names, kept) && forall n :: n in names ==> IsDottedName(n)
    ensures forall n :: n in kept <==> Minimal(names, n)
  {
    PruningIsMinimalExactly(names, kept);
  }

  const WITH_STUBS := {"foo", "foo-stubs", "foo.bar"}

  lemma StubsInterpose()
    ensures Interposed(WITH_STUBS, "foo", "foo-stubs", "foo.bar") && Minimal(WITH_STUBS, "foo")
    ensures forall r :: r in WITH_STUBS && IsAncestor("foo", r) ==> r == "foo.bar"
  {
    assert IsAncestor("foo", "foo.bar") && "foo" < "foo-stubs" && "foo-stubs"[3] == '-' < '.';
    assert forall a :: a in WITH_STUBS ==> |a| >= 3;
  }

  /** The condition is needed: a stubs package hides `foo` from `foo.bar`. */
  lemma StubsSeparate(kept: seq<string>)
    requires IsPruning(WITH_STUBS, kept)
    ensures "foo.bar" in kept && "foo" in kept
  {
    StubsInterpose();
    MinimalIsKept(WITH_STUBS, kept, "foo");
    var r := InterposedKeepsDescendant(WITH_STUBS, kept, "foo", "foo-stubs", "foo.bar");
  }

  /** In the documented example, as in any list of dotted names, `bbb` survives and `bbb.foo` does not. */
  lemma DocumentedExample(names: set<string>, kept: seq<string>)
    requires IsPruning(names, kept) && "bbb" in names && "bbb.foo" in names
    requires forall n :: n in names ==> IsDottedName(n)
    ensures "bbb" in kept && "bbb.foo" !in kept
  {
    IdentifiersAreFine(names, kept);
    assert IsAncestor("bbb", "bbb.foo");
    assert Minimal(names, "bbb");
  }

  // ---------------------------------------------------------------------------
  // The algorithm

  /** `sort`, as insertion into a sorted list. */
  function Sort(s: seq<string>): (r: seq<string>)
    ensures SortedNames(r) && multiset(r) == multiset(s)
  {
    if s == [] then []
    else
      assert s == [s[0]] + s[1..];
      InsertSorted(Sort(s[1..]), s[0])
  }

  function InsertSorted(s: seq<string>, n: string): (r: seq<string>)
    requires SortedNames(s)
    ensures SortedNames(r) && multiset(r) == multiset(s) + multiset{n}
  {
    if s == [] then [n]
    else if Less(n, s[0]) then
      BelowAll(s, n);
      [n] + s
    else
      var r := InsertSorted(s[1..], n);
      LessTotal(s[0], n);
      HeadBelow(s, n, r);
      [s[0]] + r
  }

  lemma BelowAll(s: seq<string>, n: string)
    requires SortedNames(s) && s != [] && Less(n, s[0])
    ensures SortedNames([n] + s)
  {
    forall i | 0 < i < |s| ensures Less(n, s[i]) {
      if s[0] != s[i] { LessTransitive(n, s[0], s[i]); }
    }
  }

  lemma HeadBelow(s: seq<string>, n: string, r: seq<string>)
    requires SortedNames(s) && s != [] && (s[0] == n || Less(s[0], n))
    requires SortedNames(r) && multiset(r) == multiset(s[1..]) + multiset{n}
    ensures SortedNames([s[0]] + r) && multiset([s[0]] + r) == multiset(s) + multiset{n}
  {
    assert s == [s[0]] + s[1..];
    forall i | 0 <= i < |r| ensures s[0] == r[i] || Less(s[0], r[i]) {
      assert r[i] in multiset(r);
      if r[i] != n {
        assert r[i] in s[1..];
      }
    }
  }

  /** Passing over a name that the last kept one includes. */
  lemma SkipName(names: set<string>, kept: seq<string>, n: string)
    requires IsPruning(names, kept) && kept != [] && (n == Last(kept) || IsAncestor(Last(kept), n))
    ensures IsPruning(names + {n}, kept)
  {
    assert CoveredAt(kept, n, |kept| - 1);
  }

  /** Keeping a name that sorts after all others. */
  lemma KeepName(names: set<string>, kept: seq<string>, n: string)
    requires IsPruning(names, kept) && forall x :: x in names ==> Less(x, n) || x == n
    requires kept != [] ==> n != Last(kept) && !IsAncestor(Last(kept), n)
    ensures IsPruning(names + {n}, kept + [n])
  {
    if kept != [] { BelowNext(names, kept, n); }
    var grown := kept + [n];
    forall i | 0 < i < |grown| ensures !IsAncestor(grown[i - 1], grown[i]) {
      if i < |kept| { assert grown[i - 1] == kept[i - 1] && grown[i] == kept[i]; }
    }
    forall x | x in names + {n} ensures Covered(grown, x) {
      KeepCovered(kept, n, x);
    }
  }

  lemma KeepCovered(kept: seq<string>, n: string, x: string)
    requires x == n || (Covered(kept, x) && Less(x, n))
    ensures Covered(kept + [n], x)
  {
    if x == n {
      assert CoveredAt(kept + [n], n, |kept|);
    } else {
      var k :| CoveredAt(kept, x, k);
      assert CoveredAt(kept + [n], x, k);
    }
  }

  lemma BelowNext(names: set<string>, kept: seq<string>, n: string)
    requires IsPruning(names, kept) && kept != [] && forall x :: x in names ==> Less(x, n) || x == n
    requires n != Last(kept)
    ensures forall i :: 0 <= i < |kept| ==> Less(kept[i], n)
  {
    assert Less(Last(kept), n);
    forall i | 0 <= i < |kept| - 1 ensures Less(kept[i], n) {
      LessTransitive(kept[i], Last(kept), n);
    }
  }

  method PruneRedundantModules(names: seq<string>) returns (pruned: seq<string>)
    ensures IsPruning(Names(names), pruned)
  {
    var sorted := Sort(names);
    pruned := [];
    for i := 0 to |sorted|
      invariant IsPruning(Names(sorted[..i]), pruned)
    {
      var name := sorted[i];
      NamesStep(sorted, i);
      if pruned != [] && (name == Last(pruned) || IsAncestor(Last(pruned), name)) {
        SkipName(Names(sorted[..i]), pruned, name);
      } else {
        KeepName(Names(sorted[..i]), pruned, name);
        pruned := pruned + [name];
      }
    }
    assert sorted[..|sorted|] == sorted;
    SameNames(sorted, names);
  }

  lemma NamesStep(sorted: seq<string>, i: nat)
    requires SortedNames(sorted) && i < |sorted|
    ensures Names(sorted[..i + 1]) == Names(sorted[..i]) + {sorted[i]}
    ensures forall x :: x in Names(sorted[..i]) ==> Less(x, sorted[i]) || x == sorted[i]
  {
  }

  lemma SameNames(a: seq<string>, b: seq<string>)
    requires multiset(a) == multiset(b)
    ensures Names(a) == Names(b)
  {
    forall n ensures n in a <==> n in b {
      assert n in multiset(a) <==> n in multiset(b);
    }
  }

  /** The warning lists exactly the surplus names: what is kept and what is ignored add up to the input. */
  method PruneRedundantModulesWarn(names: seq<string>, showWarnings: bool)
    returns (pruned: seq<string>, ignored: Option<seq<string>>)
    ensures IsPruning(Names(names), pruned)
    ensures ignored.Some? <==> showWarnings && |names| != |pruned|
    ensures ignored.Some? ==> multiset(pruned) + multiset(ignored.value) == multiset(names)
    ensures |names| == |pruned| ==> multiset(pruned) == multiset(names)
  {
    pruned := PruneRedundantModules(names);
    var remaining := Names(pruned);
    var surplus: seq<string> := [];
    PrunedIsSubMultiset(names, pruned);
    if !showWarnings || |names| == |pruned| { return pruned, None; }
    for i := 0 to |names|
      invariant remaining <= Names(pruned)
      invariant forall n :: n in remaining ==> n !in names[..i]
      invariant forall n :: n in Names(pruned) && n !in remaining ==> n in names[..i]
      invariant multiset(names[..i]) + multiset(remaining) == multiset(Names(pruned)) + multiset(surplus)
    {
      assert names[..i + 1] == names[..i] + [names[i]];
      assert multiset(names[..i + 1]) == multiset(names[..i]) + multiset{names[i]};
      ghost var before := remaining;
      if names[i] in remaining {
        remaining := remaining - {names[i]};
        assert multiset(before) == multiset(remaining) + multiset{names[i]};
        assert multiset(names[..i + 1]) + multiset(remaining) == multiset(names[..i]) + multiset(before);
      } else {
        assert multiset(surplus + [names[i]]) == multiset(surplus) + multiset{names[i]};
        surplus := surplus + [names[i]];
        assert multiset(names[..i + 1]) + multiset(remaining) ==
          multiset(names[..i]) + multiset(remaining) + multiset{names[i]};
      }
    }
    assert names[..|names|] == names;
    assert remaining == {};
    DistinctMultiset(pruned);
    return pruned, Some(surplus);
  }

  lemma {:induction false} DistinctMultiset(s: seq<string>)
    requires StrictlySorted(s)
    ensures multiset(s) == multiset(Names(s)) && |Names(s)| == |s|
  {
    if s != [] {
      DistinctMultiset(Init(s));
      assert s == Init(s) + [Last(s)];
      assert Last(s) !in Init(s) by { LessIrreflexive(Last(s)); }
      assert Names(s) == Names(Init(s)) + {Last(s)};
    }
  }

  lemma PrunedIsSubMultiset(names: seq<string>, pruned: seq<string>)
    requires IsPruning(Names(names), pruned)
    ensures multiset(pruned) <= multiset(names)
    ensures |names| == |pruned| ==> multiset(pruned) == multiset(names)
  {
    DistinctMultiset(pruned);
    forall n ensures multiset(pruned)[n] <= multiset(names)[n] {
      if n in multiset(pruned) { assert n in pruned && n in names; }
    }
    assert |multiset(names)| == |names| && |multiset(pruned)| == |pruned|;
    var extra := multiset(names) - multiset(pruned);
    assert multiset(names) == multiset(pruned) + extra;
  }
}
