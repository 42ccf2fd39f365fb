/**
 * The override side of the container: what the Builder stages before the
 * container exists, how the container's initial store is made from it, and the
 * container's setter, which only ever fills an empty slot.
 */
module Overrides {
  import opened Dependencies
  import opened Resolution
  import opened Guarantees

  /** The Builder's staging area: values keyed by slot, of whatever type was given. */
  type Staging = map<Key, Value>

  /**
   * Reading a staged slot as type d: the staged value when there is one and it
   * has type d, otherwise nothing.
   */
  function Staged(b: Staging, k: Key, d: TypeTag): (r: Option<Value>)
    ensures r.Some? <==> k in b && b[k].ty == d
    ensures r.Some? ==> r.value == b[k] && r.value.ty == d
  {
    if k in b && b[k].ty == d then Some(b[k]) else None
  }

  /** Staging a value for k, or clearing k when given none. */
  function Stage(b: Staging, k: Key, v: Option<Value>): (r: Staging)
    ensures v.Some? ==> k in r && r[k] == v.value
    ensures v.None? ==> k !in r
    ensures forall j :: j != k ==> (j in r <==> j in b) && (j in r ==> r[j] == b[j])
  {
    match v
    case Some(x) => b[k := x]
    case None => b - {k}
  }

  /** A staged value reads back as itself; clearing a slot makes it read as nothing; other slots read as before. */
  lemma StageThenStaged(b: Staging, k: Key, v: Option<Value>, d: TypeTag)
    ensures v.Some? ==> Staged(Stage(b, k, v), k, v.value.ty) == v
    ensures v.None? ==> Staged(Stage(b, k, v), k, d) == None
    ensures forall j :: j != k ==> Staged(Stage(b, k, v), j, d) == Staged(b, j, d)
  {
  }

  /** The container's initial store: every staged value as an already resolved cell. */
  function Seeded(b: Staging): (s: Store)
    ensures forall k :: k in s <==> k in b
    ensures forall k :: k in b ==> s[k] == Resolved(b[k])
  {
    map k | k in b :: Resolved(b[k])
  }

  /** Staged values carry the types of their slots. */
  ghost predicate StagingTyped(f: Factory, b: Staging) {
    forall k :: k in b ==> f.IsKey(k) && b[k].ty == f.TypeOf(k)
  }

  /**
   * A staged value of the slot's type is what the container returns for that
   * slot, and its rule never runs.
   */
  lemma SeededResolves(f: Factory, b: Staging, k: Key)
    requires f.WellFormed() && f.IsKey(k) && forall j :: j in b ==> f.IsKey(j)
    requires k in b && b[k].ty == f.TypeOf(k)
    ensures InScope(f, Seeded(b))
    ensures Resolve(f, Seeded(b), k) == Outcome(Ok(b[k]), Seeded(b), [])
  {
    ResolveHit(f, Seeded(b), k);
  }

  /** A well-typed staging area gives a well-typed initial store without markers. */
  lemma SeededTyped(f: Factory, b: Staging)
    requires StagingTyped(f, b)
    ensures InScope(f, Seeded(b)) && WellTyped(f, Seeded(b)) && NoMarkers(Seeded(b))
  {
  }

  /** The outcome of the container's setter. */
  datatype Status = Stored | Rejected(error: Error)

  datatype SetOutcome = SetOutcome(status: Status, store: Store)

  /**
   * The container's setter: a slot that already has an entry, a value or the
   * marker, is reported as already initialized and keeps its entry; an empty slot
   * takes the value.
   */
  function Seed(s: Store, k: Key, v: Value): (o: SetOutcome)
    ensures o.status.Stored? <==> k !in s
    ensures o.status.Rejected? ==> o.status.error == AlreadyInitialized(k)
    ensures k in o.store && o.store[k] == if k in s then s[k] else Resolved(v)
    ensures forall j :: j != k ==> (j in o.store <==> j in s) && (j in o.store ==> o.store[j] == s[j])
  {
    if k in s then SetOutcome(Rejected(AlreadyInitialized(k)), s)
    else SetOutcome(Stored, s[k := Resolved(v)])
  }

  /** A value set into an empty slot is what the next read of that slot returns, with no rule run. */
  lemma SeedThenResolve(f: Factory, s: Store, k: Key, v: Value)
    requires f.WellFormed() && f.IsKey(k) && InScope(f, s)
    requires k !in s && v.ty == f.TypeOf(k)
    ensures var o := Seed(s, k, v);
      o.status == Stored && InScope(f, o.store) && Resolve(f, o.store, k) == Outcome(Ok(v), o.store, [])
  {
    var o := Seed(s, k, v);
    ResolveHit(f, o.store, k);
  }

  /** Setting a slot twice is rejected the second time, and the first value stays. */
  lemma SeedTwice(s: Store, k: Key, v1: Value, v2: Value)
    requires k !in s
    ensures var first := Seed(s, k, v1); var second := Seed(first.store, k, v2);
      && first.status == Stored
      && second.status == Rejected(AlreadyInitialized(k))
      && second.store == first.store && second.store[k] == Resolved(v1)
  {
  }

  /** Setting a slot whose rule is running is rejected as well. */
  lemma SeedDuringResolution(s: Store, k: Key, v: Value)
    requires k in s && s[k] == InProgress
    ensures Seed(s, k, v) == SetOutcome(Rejected(AlreadyInitialized(k)), s)
  {
  }

  /** Setting a value of the slot's type keeps the store well-typed and adds no marker. */
  lemma SeedTyped(f: Factory, s: Store, k: Key, v: Value)
    requires f.IsKey(k) && v.ty == f.TypeOf(k) && WellTyped(f, s)
    ensures WellTyped(f, Seed(s, k, v).store)
    ensures NoMarkers(s) ==> NoMarkers(Seed(s, k, v).store)
  {
  }
}
