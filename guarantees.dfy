/**
 * What the resolution algorithm guarantees: memoisation, at most one run of each
 * rule, no marker left behind by a successful read, cycle detection, type
 * safety of a well-typed store, and independence of unrelated slots.
 */
module Guarantees {
  import opened Dependencies
  import opened Resolution

  /** Every entry the read added holds a value (no marker was left behind). */
  ghost predicate NewKeysResolved(s: Store, t: Store) {
    forall j :: j in t && j !in s ==> t[j].Resolved?
  }

  /** No key is in the middle of being built. */
  ghost predicate NoMarkers(s: Store) {
    forall j :: j in s ==> s[j].Resolved?
  }

  /** Every cached value carries the type its slot is declared with. */
  ghost predicate WellTyped(f: Factory, s: Store) {
    forall j :: j in s && s[j].Resolved? ==> f.IsKey(j) && s[j].value.ty == f.TypeOf(j)
  }

  /** Every dependency of a slot in C is in C. */
  ghost predicate Closed(f: Factory, c: set<Key>) {
    forall j, i :: j in c && f.IsKey(j) && 0 <= i < |f.rules[j].deps| ==> f.rules[j].deps[i] in c
  }

  /** rank decreases along every dependency edge, so the rules have no cycle. */
  ghost predicate RankedBy(f: Factory, rank: seq<nat>) {
    && |rank| == |f.rules|
    && forall j, i :: 0 <= j < |f.rules| && 0 <= i < |f.rules[j].deps| ==>
         f.rules[j].deps[i] < |rank| && rank[f.rules[j].deps[i]] < rank[j]
  }

  /** Every key holding the marker has a rank above r. */
  ghost predicate MarkersAbove(s: Store, rank: seq<nat>, r: nat) {
    forall j :: j in s && s[j] == InProgress ==> j < |rank| && rank[j] > r
  }

  /** Every key in ds holds a value in t. */
  ghost predicate AllResolved(t: Store, ds: seq<Key>) {
    forall i :: 0 <= i < |ds| ==> ds[i] in t && t[ds[i]].Resolved?
  }

  /** The cached values of the keys ds, in order. */
  ghost function Values(t: Store, ds: seq<Key>): (vs: seq<Value>)
    requires AllResolved(t, ds)
    ensures |vs| == |ds| && forall i :: 0 <= i < |ds| ==> t[ds[i]] == Resolved(vs[i])
  {
    if ds == [] then [] else [t[ds[0]].value] + Values(t, ds[1..])
  }

  // ---------------------------------------------------------------------------
  // Which rules run

  /**
   * The rules a read runs are exactly those of the keys it adds to the store,
   * and none runs twice.
   */
  lemma {:induction false} ResolveBuilt(f: Factory, s: Store, k: Key)
    requires f.WellFormed() && f.IsKey(k) && InScope(f, s)
    ensures var o := Resolve(f, s, k);
      && (forall j :: j in o.built <==> j in o.store && j !in s)
      && NoDup(o.built)
    decreases Pending(f, s), 0, 0
  {
    if k !in s {
      var marked := s[k := InProgress];
      PendingShrinks(f, s, k);
      ResolveArgsBuilt(f, marked, f.rules[k].deps, []);
      var args := ResolveArgs(f, marked, f.rules[k].deps, []);
      NoDupConcat([k], args.built);
      MissShape(f, s, k);
    }
  }

  lemma {:induction false} ResolveArgsBuilt(f: Factory, s: Store, ds: seq<Key>, acc: seq<Value>)
    requires f.WellFormed() && InScope(f, s)
    requires forall i :: 0 <= i < |ds| ==> f.IsKey(ds[i])
    ensures var o := ResolveArgs(f, s, ds, acc);
      && (forall j :: j in o.built <==> j in o.store && j !in s)
      && NoDup(o.built)
    decreases Pending(f, s), 1, |ds|
  {
    if ds != [] {
      ResolveBuilt(f, s, ds[0]);
      var first := Resolve(f, s, ds[0]);
      if first.result.Ok? {
        PendingMonotone(f, s, first.store);
        ResolveArgsBuilt(f, first.store, ds[1..], acc + [first.result.value]);
        var rest := ResolveArgs(f, first.store, ds[1..], acc + [first.result.value]);
        NoDupConcat(first.built, rest.built);
      }
    }
  }

  // ---------------------------------------------------------------------------
  // What a successful read leaves behind

  /** A successful read returns a value of the slot's type and caches exactly that value under the key. */
  lemma ResolveStores(f: Factory, s: Store, k: Key)
    requires f.WellFormed() && f.IsKey(k) && InScope(f, s)
    ensures var o := Resolve(f, s, k);
      o.result.Ok? ==>
        && k in o.store && o.store[k] == Resolved(o.result.value)
        && o.result.value.ty == f.TypeOf(k)
  {
    if k !in s {
      MissShape(f, s, k);
    }
  }

  /** Every key a successful read adds to the store holds a value, not the marker. */
  lemma {:induction false} ResolveFresh(f: Factory, s: Store, k: Key)
    requires f.WellFormed() && f.IsKey(k) && InScope(f, s)
    ensures var o := Resolve(f, s, k); o.result.Ok? ==> NewKeysResolved(s, o.store)
    decreases Pending(f, s), 0, 0
  {
    if k !in s {
      PendingShrinks(f, s, k);
      ResolveArgsFresh(f, s[k := InProgress], f.rules[k].deps, []);
      MissShape(f, s, k);
    }
  }

  lemma {:induction false} ResolveArgsFresh(f: Factory, s: Store, ds: seq<Key>, acc: seq<Value>)
    requires f.WellFormed() && InScope(f, s)
    requires forall i :: 0 <= i < |ds| ==> f.IsKey(ds[i])
    ensures var o := ResolveArgs(f, s, ds, acc); o.result.Ok? ==> NewKeysResolved(s, o.store)
    decreases Pending(f, s), 1, |ds|
  {
    if ds != [] {
      ResolveFresh(f, s, ds[0]);
      var first := Resolve(f, s, ds[0]);
      if first.result.Ok? {
        PendingMonotone(f, s, first.store);
        ResolveArgsFresh(f, first.store, ds[1..], acc + [first.result.value]);
      }
    }
  }

  /**
   * When a rule's dependencies are all read successfully, each of them holds a
   * value afterwards and the rule receives exactly those values, in order.
   */
  lemma {:induction false} ResolveArgsValues(f: Factory, s: Store, ds: seq<Key>, acc: seq<Value>)
    requires f.WellFormed() && InScope(f, s)
    requires forall i :: 0 <= i < |ds| ==> f.IsKey(ds[i])
    ensures var o := ResolveArgs(f, s, ds, acc);
      o.result.Ok? ==> AllResolved(o.store, ds) && o.result.value == acc + Values(o.store, ds)
    decreases |ds|
  {
    if ds != [] {
      ResolveStores(f, s, ds[0]);
      var first := Resolve(f, s, ds[0]);
      if first.result.Ok? {
        var v := first.result.value;
        ResolveArgsValues(f, first.store, ds[1..], acc + [v]);
        var rest := ResolveArgs(f, first.store, ds[1..], acc + [v]);
        if rest.result.Ok? {
          var later := Values(rest.store, ds[1..]);
          assert rest.store[ds[0]] == Resolved(v);
          assert AllResolved(rest.store, ds) by {
            forall i | 0 < i < |ds| ensures ds[i] in rest.store && rest.store[ds[i]].Resolved? {
              assert ds[i] == ds[1..][i - 1];
            }
          }
          assert Values(rest.store, ds) == [v] + later;
          ConcatAssoc(acc, [v], later);
        }
      }
    }
  }

  /** The values of ds are the same in two stores that agree on ds. */
  lemma ValuesAgree(t: Store, u: Store, ds: seq<Key>)
    requires AllResolved(t, ds)
    requires forall i :: 0 <= i < |ds| ==> ds[i] in u && u[ds[i]] == t[ds[i]]
    ensures AllResolved(u, ds) && Values(u, ds) == Values(t, ds)
  {
    assert AllResolved(u, ds);
    var a, b := Values(u, ds), Values(t, ds);
    assert forall i :: 0 <= i < |ds| ==> a[i] == b[i];
  }

  /**
   * On a miss the key's own rule runs first and only once, and the value it
   * caches is that rule applied to the cached values of its dependencies.
   */
  lemma ResolveMiss(f: Factory, s: Store, k: Key)
    requires f.WellFormed() && f.IsKey(k) && InScope(f, s)
    requires k !in s
    ensures var o := Resolve(f, s, k);
      && |o.built| > 0 && o.built[0] == k
      && (forall i :: 0 < i < |o.built| ==> o.built[i] != k)
      && (o.result.Ok? ==>
            && AllResolved(o.store, f.rules[k].deps)
            && o.result.value == Value(f.TypeOf(k), f.rules[k].build(Values(o.store, f.rules[k].deps))))
  {
    var o := Resolve(f, s, k);
    ResolveBuilt(f, s, k);
    var marked := s[k := InProgress];
    var deps := f.rules[k].deps;
    PendingShrinks(f, s, k);
    ResolveArgsValues(f, marked, deps, []);
    var args := ResolveArgs(f, marked, deps, []);
    if args.result.Ok? {
      var vs := args.result.value;
      var v := Value(f.TypeOf(k), f.rules[k].build(vs));
      assert o == Outcome(Ok(v), args.store[k := Resolved(v)], [k] + args.built);
      assert args.store[k] == InProgress;
      forall i | 0 <= i < |deps| ensures deps[i] in o.store && o.store[deps[i]] == args.store[deps[i]] {
        assert deps[i] != k;
      }
      ValuesAgree(args.store, o.store, deps);
      assert vs == Values(args.store, deps);
    }
  }

  /** A read that finds a cached value of the right type returns it and changes nothing. */
  lemma ResolveHit(f: Factory, s: Store, k: Key)
    requires f.WellFormed() && f.IsKey(k) && InScope(f, s)
    requires k in s && s[k].Resolved? && s[k].value.ty == f.TypeOf(k)
    ensures Resolve(f, s, k) == Outcome(Ok(s[k].value), s, [])
  {
  }

  /** A read that finds the marker fails with a cycle error and changes nothing. */
  lemma ResolveCycle(f: Factory, s: Store, k: Key)
    requires f.WellFormed() && f.IsKey(k) && InScope(f, s)
    requires k in s && s[k] == InProgress
    ensures Resolve(f, s, k) == Outcome(Err(Cycle(k)), s, [])
  {
  }

  /** A read that finds a value of another type fails with a type mismatch and changes nothing. */
  lemma ResolveMismatch(f: Factory, s: Store, k: Key)
    requires f.WellFormed() && f.IsKey(k) && InScope(f, s)
    requires k in s && s[k].Resolved? && s[k].value.ty != f.TypeOf(k)
    ensures Resolve(f, s, k) == Outcome(Err(TypeMismatch(k, f.TypeOf(k), s[k].value.ty)), s, [])
  {
  }

  /** Reading the same key again after a successful read returns the same value and runs no rule. */
  lemma ResolveMemoises(f: Factory, s: Store, k: Key)
    requires f.WellFormed() && f.IsKey(k) && InScope(f, s)
    ensures var o := Resolve(f, s, k);
      o.result.Ok? ==> Resolve(f, o.store, k) == Outcome(o.result, o.store, [])
  {
    ResolveStores(f, s, k);
  }

  /** A successful top-level read from a store without markers leaves no marker behind. */
  lemma ResolveLeavesNoMarker(f: Factory, s: Store, k: Key)
    requires f.WellFormed() && f.IsKey(k) && InScope(f, s)
    requires NoMarkers(s)
    ensures var o := Resolve(f, s, k); o.result.Ok? ==> NoMarkers(o.store)
  {
    ResolveFresh(f, s, k);
  }

  // ---------------------------------------------------------------------------
  // Types

  /**
   * From a well-typed store a read leaves a well-typed store, and the only way
   * it can fail is a cycle: the type-mismatch branch is unreachable.
   */
  lemma {:induction false} ResolveTyped(f: Factory, s: Store, k: Key)
    requires f.WellFormed() && f.IsKey(k) && InScope(f, s)
    requires WellTyped(f, s)
    ensures var o := Resolve(f, s, k);
      WellTyped(f, o.store) && (o.result.Err? ==> o.result.error.Cycle?)
    decreases Pending(f, s), 0, 0
  {
    if k !in s {
      var marked := s[k := InProgress];
      var deps := f.rules[k].deps;
      PendingShrinks(f, s, k);
      ResolveArgsTyped(f, marked, deps, []);
      var args := ResolveArgs(f, marked, deps, []);
      if args.result.Ok? {
        var v := Value(f.TypeOf(k), f.rules[k].build(args.result.value));
        assert Resolve(f, s, k).store == args.store[k := Resolved(v)];
        WellTypedStore(f, args.store, k, v);
      } else {
        assert Resolve(f, s, k) == Outcome(Err(args.result.error), args.store, [k] + args.built);
      }
    } else {
      assert Resolve(f, s, k).store == s;
    }
  }

  /** Caching a value of the slot's own type keeps the store well-typed. */
  lemma WellTypedStore(f: Factory, t: Store, k: Key, v: Value)
    requires WellTyped(f, t) && f.IsKey(k) && v.ty == f.TypeOf(k)
    ensures WellTyped(f, t[k := Resolved(v)])
  {
  }

  lemma {:induction false} ResolveArgsTyped(f: Factory, s: Store, ds: seq<Key>, acc: seq<Value>)
    requires f.WellFormed() && InScope(f, s)
    requires forall i :: 0 <= i < |ds| ==> f.IsKey(ds[i])
    requires WellTyped(f, s)
    ensures var o := ResolveArgs(f, s, ds, acc);
      WellTyped(f, o.store) && (o.result.Err? ==> o.result.error.Cycle?)
    decreases Pending(f, s), 1, |ds|
  {
    if ds != [] {
      ResolveTyped(f, s, ds[0]);
      var first := Resolve(f, s, ds[0]);
      if first.result.Ok? {
        PendingMonotone(f, s, first.store);
        ResolveArgsTyped(f, first.store, ds[1..], acc + [first.result.value]);
      }
    }
  }

  // ---------------------------------------------------------------------------
  // Independence

  /**
   * A read only adds keys inside any dependency-closed set of slots that holds
   * the key read, so it never builds a slot nothing transitively requires.
   */
  lemma {:induction false} ResolveWithin(f: Factory, s: Store, k: Key, c: set<Key>)
    requires f.WellFormed() && f.IsKey(k) && InScope(f, s)
    requires Closed(f, c) && k in c
    ensures var o := Resolve(f, s, k); forall j :: j in o.store && j !in s ==> j in c
    decreases Pending(f, s), 0, 0
  {
    if k !in s {
      var marked := s[k := InProgress];
      PendingShrinks(f, s, k);
      ResolveArgsWithin(f, marked, f.rules[k].deps, [], c);
      MissShape(f, s, k);
    }
  }

  lemma {:induction false} ResolveArgsWithin(f: Factory, s: Store, ds: seq<Key>, acc: seq<Value>, c: set<Key>)
    requires f.WellFormed() && InScope(f, s)
    requires forall i :: 0 <= i < |ds| ==> f.IsKey(ds[i]) && ds[i] in c
    requires Closed(f, c)
    ensures var o := ResolveArgs(f, s, ds, acc); forall j :: j in o.store && j !in s ==> j in c
    decreases Pending(f, s), 1, |ds|
  {
    if ds != [] {
      ResolveWithin(f, s, ds[0], c);
      var first := Resolve(f, s, ds[0]);
      if first.result.Ok? {
        PendingMonotone(f, s, first.store);
        ResolveArgsWithin(f, first.store, ds[1..], acc + [first.result.value], c);
      }
    }
  }

  /** Hence the rules a read runs all belong to such a closed set. */
  lemma ResolveBuildsWithin(f: Factory, s: Store, k: Key, c: set<Key>)
    requires f.WellFormed() && f.IsKey(k) && InScope(f, s)
    requires Closed(f, c) && k in c
    ensures forall j :: j in Resolve(f, s, k).built ==> j in c
  {
    ResolveBuilt(f, s, k);
    ResolveWithin(f, s, k, c);
  }

  // ---------------------------------------------------------------------------
  // Cycles

  /**
   * When the rules are acyclic (ranked) and every marker in the store belongs to
   * a key ranked above k, reading k never reports a cycle.
   */
  lemma {:induction false} ResolveNoCycle(f: Factory, s: Store, k: Key, rank: seq<nat>)
    requires f.WellFormed() && f.IsKey(k) && InScope(f, s)
    requires RankedBy(f, rank) && MarkersAbove(s, rank, rank[k])
    ensures var o := Resolve(f, s, k); !(o.result.Err? && o.result.error.Cycle?)
    decreases Pending(f, s), 0, 0
  {
    if k !in s {
      var marked := s[k := InProgress];
      var deps := f.rules[k].deps;
      PendingShrinks(f, s, k);
      forall i | 0 <= i < |deps| ensures MarkersAbove(marked, rank, rank[deps[i]]) {
        MarkKeepsAbove(s, k, rank, rank[deps[i]]);
      }
      ResolveArgsNoCycle(f, marked, deps, [], rank);
      MissShape(f, s, k);
    }
  }

  lemma {:induction false} ResolveArgsNoCycle(f: Factory, s: Store, ds: seq<Key>, acc: seq<Value>, rank: seq<nat>)
    requires f.WellFormed() && InScope(f, s)
    requires forall i :: 0 <= i < |ds| ==> f.IsKey(ds[i])
    requires RankedBy(f, rank)
    requires forall i :: 0 <= i < |ds| ==> ds[i] < |rank| && MarkersAbove(s, rank, rank[ds[i]])
    ensures var o := ResolveArgs(f, s, ds, acc); !(o.result.Err? && o.result.error.Cycle?)
    decreases Pending(f, s), 1, |ds|
  {
    if ds != [] {
      ResolveNoCycle(f, s, ds[0], rank);
      var first := Resolve(f, s, ds[0]);
      if first.result.Ok? {
        ResolveFresh(f, s, ds[0]);
        PendingMonotone(f, s, first.store);
        forall i | 0 <= i < |ds[1..]| ensures MarkersAbove(first.store, rank, rank[ds[1..][i]]) {
          FreshKeepsAbove(s, first.store, rank, rank[ds[i + 1]]);
        }
        ResolveArgsNoCycle(f, first.store, ds[1..], acc + [first.result.value], rank);
      }
    }
  }

  /** Marking a key ranked above r keeps every marker above r. */
  lemma MarkKeepsAbove(s: Store, k: Key, rank: seq<nat>, r: nat)
    requires k < |rank| && rank[k] > r && MarkersAbove(s, rank, rank[k])
    ensures MarkersAbove(s[k := InProgress], rank, r)
  {
  }

  /** A successful read adds no marker, so the markers stay above r. */
  lemma FreshKeepsAbove(s: Store, t: Store, rank: seq<nat>, r: nat)
    requires Extends(s, t) && NewKeysResolved(s, t) && MarkersAbove(s, rank, r)
    ensures MarkersAbove(t, rank, r)
  {
  }

  /** With acyclic rules, a well-typed store and no marker, every read succeeds. */
  lemma ResolveSucceeds(f: Factory, s: Store, k: Key, rank: seq<nat>)
    requires f.WellFormed() && f.IsKey(k) && InScope(f, s)
    requires RankedBy(f, rank) && WellTyped(f, s) && NoMarkers(s)
    ensures Resolve(f, s, k).result.Ok?
  {
    ResolveTyped(f, s, k);
    ResolveNoCycle(f, s, k, rank);
  }
}
