/**
 * The resolution algorithm of the container's getter, as pure functions over
 * the store. Resolve is the specification the container's Get method is proved
 * against; the lemmas below state what the algorithm guarantees.
 */
module Resolution {
  import opened Dependencies

  type Store = map<Key, Cell>

  /** What one read produces: its result, the store afterwards, and the keys whose rule ran, in order. */
  datatype Outcome = Outcome(result: Result<Value>, store: Store, built: seq<Key>)

  /** What reading a rule's dependencies produces: their values, the store afterwards, the keys built. */
  datatype ArgsOutcome = ArgsOutcome(result: Result<seq<Value>>, store: Store, built: seq<Key>)

  /** Every entry of s is still in t, unchanged: entries are only ever added. */
  ghost predicate Extends(s: Store, t: Store) {
    forall j :: j in s ==> j in t && t[j] == s[j]
  }

  /** No key occurs twice. */
  ghost predicate NoDup(xs: seq<Key>) {
    forall i, j :: 0 <= i < j < |xs| ==> xs[i] != xs[j]
  }

  /** Every key the store mentions is a declared slot. */
  ghost predicate InScope(f: Factory, s: Store) {
    forall j :: j in s ==> f.IsKey(j)
  }

  /** The number of slots that are still Empty: every miss marks one of them. */
  ghost function Pending(f: Factory, s: Store): nat {
    |f.Keys() - s.Keys|
  }

  lemma PendingShrinks(f: Factory, s: Store, k: Key)
    requires f.IsKey(k) && k !in s
    ensures Pending(f, s[k := InProgress]) < Pending(f, s)
  {
    var before := f.Keys() - s.Keys;
    assert f.Keys() - s[k := InProgress].Keys == before - {k};
    assert k in before;
  }

  lemma PendingMonotone(f: Factory, s: Store, t: Store)
    requires s.Keys <= t.Keys
    ensures Pending(f, t) <= Pending(f, s)
  {
    var small, large := f.Keys() - t.Keys, f.Keys() - s.Keys;
    assert large == small + (large - small);
    assert small * (large - small) == {};
  }

  lemma NoDupConcat(a: seq<Key>, b: seq<Key>)
    requires NoDup(a) && NoDup(b)
    requires forall x :: x in a ==> x !in b
    ensures NoDup(a + b)
  {
    forall i, j | 0 <= i < j < |a + b|
      ensures (a + b)[i] != (a + b)[j]
    {
      if j < |a| {
        assert (a + b)[i] == a[i] && (a + b)[j] == a[j];
      } else if i >= |a| {
        assert (a + b)[i] == b[i - |a|] && (a + b)[j] == b[j - |a|];
      } else {
        assert (a + b)[i] == a[i] && (a + b)[j] == b[j - |a|];
        assert a[i] in a;
      }
    }
  }

  /**
   * Reading key k from store s. A Resolved cell of the requested type is returned
   * as it is; a Resolved cell of another type is a type mismatch; the marker is a
   * cycle. On a miss the marker is written, the rule's dependencies are read
   * through the container, and the marker is replaced by the built value.
   */
  function Resolve(f: Factory, s: Store, k: Key): (o: Outcome)
    requires f.WellFormed() && f.IsKey(k) && InScope(f, s)
    ensures Extends(s, o.store) && InScope(f, o.store)
    decreases Pending(f, s), 0, 0
  {
    if k in s then
      match s[k]
      case InProgress => Outcome(Err(Cycle(k)), s, [])
      case Resolved(v) =>
        if v.ty == f.TypeOf(k) then Outcome(Ok(v), s, [])
        else Outcome(Err(TypeMismatch(k, f.TypeOf(k), v.ty)), s, [])
    else
      var marked := s[k := InProgress];
      PendingShrinks(f, s, k);
      var args := ResolveArgs(f, marked, f.rules[k].deps, []);
      match args.result
      case Err(e) => Outcome(Err(e), args.store, [k] + args.built)
      case Ok(vs) =>
        var v := Value(f.TypeOf(k), f.rules[k].build(vs));
        Outcome(Ok(v), args.store[k := Resolved(v)], [k] + args.built)
  }

  /**
   * Reading the dependencies ds one after the other, appending their values to acc;
   * the first failure ends the rule.
   */
  function ResolveArgs(f: Factory, s: Store, ds: seq<Key>, acc: seq<Value>): (o: ArgsOutcome)
    requires f.WellFormed() && InScope(f, s)
    requires forall i :: 0 <= i < |ds| ==> f.IsKey(ds[i])
    ensures Extends(s, o.store) && InScope(f, o.store)
    decreases Pending(f, s), 1, |ds|
  {
    if ds == [] then ArgsOutcome(Ok(acc), s, [])
    else
      var first := Resolve(f, s, ds[0]);
      match first.result
      case Err(e) => ArgsOutcome(Err(e), first.store, first.built)
      case Ok(v) =>
        PendingMonotone(f, s, first.store);
        var rest := ResolveArgs(f, first.store, ds[1..], acc + [v]);
        ArgsOutcome(rest.result, rest.store, first.built + rest.built)
  }

  /**
   * The shape of a miss: the rule's dependencies are read from the store with k
   * marked; a failure is passed on, a success caches the built value under k.
   */
  lemma MissShape(f: Factory, s: Store, k: Key)
    requires f.WellFormed() && f.IsKey(k) && InScope(f, s) && k !in s
    ensures var args := ResolveArgs(f, s[k := InProgress], f.rules[k].deps, []);
      var o := Resolve(f, s, k);
      && o.built == [k] + args.built
      && (args.result.Err? ==> o.result == Err(args.result.error) && o.store == args.store)
      && (args.result.Ok? ==>
            var v := Value(f.TypeOf(k), f.rules[k].build(args.result.value));
            o.result == Ok(v) && o.store == args.store[k := Resolved(v)])
  {
  }

  /** One step of reading dependencies: the first is read, then the rest from the store it left. */
  lemma ArgsStep(f: Factory, s: Store, ds: seq<Key>, acc: seq<Value>)
    requires f.WellFormed() && InScope(f, s) && ds != []
    requires forall i :: 0 <= i < |ds| ==> f.IsKey(ds[i])
    ensures var first := Resolve(f, s, ds[0]); var o := ResolveArgs(f, s, ds, acc);
      && (first.result.Err? ==> o == ArgsOutcome(Err(first.result.error), first.store, first.built))
      && (first.result.Ok? ==>
            var rest := ResolveArgs(f, first.store, ds[1..], acc + [first.result.value]);
            o == ArgsOutcome(rest.result, rest.store, first.built + rest.built))
  {
  }

  /**
   * Advancing over one dependency: if reading ds[i..] from s yields whole (after
   * done was built), then so does reading ds[i] and continuing from its store.
   */
  lemma ArgsAdvance(f: Factory, s: Store, ds: seq<Key>, i: nat, acc: seq<Value>, done: seq<Key>, whole: ArgsOutcome)
    requires f.WellFormed() && InScope(f, s) && i < |ds|
    requires forall j :: 0 <= j < |ds| ==> f.IsKey(ds[j])
    requires var rest := ResolveArgs(f, s, ds[i..], acc);
      whole.result == rest.result && whole.store == rest.store && whole.built == done + rest.built
    ensures var first := Resolve(f, s, ds[i]);
      && (first.result.Err? ==>
            whole.result == Err(first.result.error) && whole.store == first.store && whole.built == done + first.built)
      && (first.result.Ok? ==>
            var rest := ResolveArgs(f, first.store, ds[i + 1..], acc + [first.result.value]);
            whole.result == rest.result && whole.store == rest.store && whole.built == (done + first.built) + rest.built)
  {
    ArgsStep(f, s, ds[i..], acc);
    assert ds[i..][0] == ds[i] && ds[i..][1..] == ds[i + 1..];
    var first := Resolve(f, s, ds[i]);
    if first.result.Ok? {
      var rest := ResolveArgs(f, first.store, ds[i + 1..], acc + [first.result.value]);
      ConcatAssoc(done, first.built, rest.built);
    }
  }

  lemma ConcatAssoc<T>(a: seq<T>, b: seq<T>, c: seq<T>)
    ensures (a + b) + c == a + (b + c)
  {
  }
}
