/**
 * The container and its Builder as objects whose stores are updated in place.
 * Each method is proved against the functions of Resolution and Overrides.
 */
module Containers {
  import opened Dependencies
  import opened Resolution
  import opened Guarantees
  import opened Overrides

  /** Collects overrides before the container is created. */
  class Builder {
    var store: Staging

    constructor()
      ensures store == map[]
    {
      store := map[];
    }

    /** The staged value for k if it has type d, otherwise nothing. */
    method Get(k: Key, d: TypeTag) returns (r: Option<Value>)
      ensures r == Staged(store, k, d)
    {
      if k in store && store[k].ty == d {
        r := Some(store[k]);
      } else {
        r := None;
      }
    }

    /** Stages v for k; staging nothing clears k. */
    method Set(k: Key, v: Option<Value>)
      modifies this
      ensures store == Stage(old(store), k, v)
    {
      match v
      case Some(x) => store := store[k := x];
      case None => store := store - {k};
    }
  }

  class DependencyContainer {
    const factory: Factory
    var store: Store
    /** The keys whose rule has run, in the order the rules started. */
    ghost var invocations: seq<Key>

    /** Rules only read declared slots, and every rule that ran left an entry and ran once. */
    ghost predicate Valid()
      reads this
    {
      && factory.WellFormed()
      && InScope(factory, store)
      && NoDup(invocations)
      && (forall j :: j in invocations ==> j in store)
    }

    /** The staged values become the initial store; no rule runs. */
    constructor(f: Factory, b: Builder)
      requires f.WellFormed() && forall k :: k in b.store ==> f.IsKey(k)
      ensures Valid() && factory == f
      ensures store == Seeded(b.store) && invocations == []
    {
      factory := f;
      store := map k | k in b.store :: Resolved(b.store[k]);
      invocations := [];
    }

    /**
     * Reads slot k: a cached value of the slot's type is returned, the marker is
     * a cycle, a value of another type a mismatch, and an empty slot is built.
     */
    method Get(k: Key) returns (r: Result<Value>)
      requires Valid() && factory.IsKey(k)
      modifies this
      ensures Valid() && Extends(old(store), store)
      ensures var o := Resolve(factory, old(store), k);
        r == o.result && store == o.store && invocations == old(invocations) + o.built
      decreases Pending(factory, store), 1
    {
      if k !in store {
        r := Build(k);
      } else if store[k].InProgress? {
        r := Err(Cycle(k));
      } else if store[k].value.ty == factory.TypeOf(k) {
        r := Ok(store[k].value);
      } else {
        r := Err(TypeMismatch(k, factory.TypeOf(k), store[k].value.ty));
      }
    }

    /**
     * The miss: the marker is written before the rule runs, the rule's
     * dependencies are read, and the built value overwrites the marker.
     */
    method Build(k: Key) returns (r: Result<Value>)
      requires Valid() && factory.IsKey(k) && k !in store
      modifies this
      ensures Valid() && Extends(old(store), store)
      ensures var o := Resolve(factory, old(store), k);
        r == o.result && store == o.store && invocations == old(invocations) + o.built
      decreases Pending(factory, store), 0
    {
      PendingShrinks(factory, store, k);
      MissShape(factory, store, k);
      NoDupConcat(invocations, [k]);
      store := store[k := InProgress];
      invocations := invocations + [k];
      var args := ReadDependencies(factory.rules[k].deps);
      ConcatAssoc(old(invocations), [k], ResolveArgs(factory, old(store)[k := InProgress], factory.rules[k].deps, []).built);
      if args.Err? {
        r := Err(args.error);
      } else {
        var v := Value(factory.TypeOf(k), factory.rules[k].build(args.value));
        store := store[k := Resolved(v)];
        r := Ok(v);
      }
    }

    /** Reads the slots deps one after the other through this container, stopping at the first failure. */
    method ReadDependencies(deps: seq<Key>) returns (r: Result<seq<Value>>)
      requires Valid() && forall i :: 0 <= i < |deps| ==> factory.IsKey(deps[i])
      modifies this
      ensures Valid() && Extends(old(store), store)
      ensures var o := ResolveArgs(factory, old(store), deps, []);
        r == o.result && store == o.store && invocations == old(invocations) + o.built
      decreases Pending(factory, store), 2
    {
      ghost var whole := ResolveArgs(factory, store, deps, []);
      ghost var done: seq<Key> := [];
      var args: seq<Value> := [];
      var i := 0;
      while i < |deps|
        invariant 0 <= i <= |deps|
        invariant Valid() && Extends(old(store), store)
        invariant invocations == old(invocations) + done
        invariant var rest := ResolveArgs(factory, store, deps[i..], args);
          whole.result == rest.result && whole.store == rest.store && whole.built == done + rest.built
        decreases |deps| - i
      {
        PendingMonotone(factory, old(store), store);
        ArgsAdvance(factory, store, deps, i, args, done, whole);
        ghost var first := Resolve(factory, store, deps[i]);
        var x := Get(deps[i]);
        ConcatAssoc(old(invocations), done, first.built);
        if x.Err? {
          return Err(x.error);
        }
        done := done + first.built;
        args := args + [x.value];
        i := i + 1;
      }
      r := Ok(args);
    }

    /** Sets slot k; a slot that already has an entry is reported and keeps it. */
    method Set(k: Key, v: Value) returns (status: Status)
      requires Valid() && factory.IsKey(k)
      modifies this
      ensures Valid() && Extends(old(store), store) && invocations == old(invocations)
      ensures var o := Seed(old(store), k, v); status == o.status && store == o.store
    {
      if k in store {
        status := Rejected(AlreadyInitialized(k));
      } else {
        store := store[k := Resolved(v)];
        status := Stored;
      }
    }
  }
}
