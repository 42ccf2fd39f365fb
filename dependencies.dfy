/**
 * The data model of the dependency container: keys, type-tagged values,
 * the tri-state cells of the store, the factory rules and the fatal errors.
 */
module Dependencies {

  /** A dependency slot. Slots are numbered by their position in the factory. */
  type Key = nat

  /** The static type a slot is declared with, as a runtime tag on values. */
  type TypeTag = string

  /** A dependency instance: the type it was created with and its contents. */
  datatype Value = Value(ty: TypeTag, payload: string)

  /**
   * A cell of the store. A key absent from the store is Empty; InProgress is the
   * marker written while the key's rule runs; Resolved holds the cached value.
   */
  datatype Cell = InProgress | Resolved(value: Value)

  /** The fatal outcomes of the container. */
  datatype Error =
    | Cycle(key: Key)
    | TypeMismatch(key: Key, expected: TypeTag, actual: TypeTag)
    | AlreadyInitialized(key: Key)

  datatype Result<T> = Ok(value: T) | Err(error: Error)

  datatype Option<T> = None | Some(value: T)

  /**
   * The construction rule of one slot: the type it produces, the slots it reads
   * through the container (in order) and how it combines their values.
   */
  datatype Rule = Rule(ty: TypeTag, deps: seq<Key>, build: seq<Value> -> string)

  /** The keys 0, ..., n - 1. */
  function Below(n: nat): (ks: set<Key>)
    ensures forall k: Key :: k in ks <==> k < n
  {
    if n == 0 then {} else Below(n - 1) + {n - 1}
  }

  /** The factory: one rule per slot, slot k being rules[k]. */
  datatype Factory = Factory(rules: seq<Rule>) {

    predicate IsKey(k: Key) {
      k < |rules|
    }

    function Keys(): (ks: set<Key>)
      ensures forall k: Key :: k in ks <==> IsKey(k)
    {
      Below(|rules|)
    }

    /** Every slot a rule reads is a declared slot. */
    ghost predicate WellFormed() {
      forall j, i :: 0 <= j < |rules| && 0 <= i < |rules[j].deps| ==> IsKey(rules[j].deps[i])
    }

    function TypeOf(k: Key): TypeTag
      requires IsKey(k)
    {
      rules[k].ty
    }
  }
}
