/**
 * Two small wirings worked through the resolution algorithm: a chain where one
 * slot is built from another, and two slots whose rules read each other.
 */
module Scenarios {
  import opened Dependencies
  import opened Resolution
  import opened Overrides

  const Text: TypeTag := "String"

  /** Slot 0 builds "a"; slot 1 reads slot 0 and appends "b"; slot 2 builds "c" and nothing reads it. */
  function Chain(): (f: Factory)
    ensures f.WellFormed()
  {
    Factory([
      Rule(Text, [], vs => "a"),
      Rule(Text, [0], (vs: seq<Value>) => if |vs| == 1 then vs[0].payload + "b" else ""),
      Rule(Text, [], vs => "c")
    ])
  }

  /**
   * Reading slot 1 from an empty store returns "ab" after running the rules of
   * 1 and then 0 once each; slot 2 is left empty; reading slot 0 afterwards
   * returns "a" without running any rule.
   */
  lemma ChainScenario()
    ensures var o := Resolve(Chain(), map[], 1);
      && o.result == Ok(Value(Text, "ab"))
      && o.built == [1, 0]
      && 2 !in o.store
      && Resolve(Chain(), o.store, 0) == Outcome(Ok(Value(Text, "a")), o.store, [])
  {
    var f := Chain();
    var s1 := map[1 := InProgress];
    var s2 := s1[0 := InProgress];
    MissShape(f, map[], 1);
    ArgsStep(f, s1, [0], []);
    MissShape(f, s1, 0);
    var a := Value(Text, "a");
    assert ResolveArgs(f, s2, [], []) == ArgsOutcome(Ok([]), s2, []);
    assert Resolve(f, s1, 0) == Outcome(Ok(a), s2[0 := Resolved(a)], [0]);
    var s3 := s2[0 := Resolved(a)];
    assert [0][1..] == [] && [0][0] == 0 && [] + [a] == [a];
    assert ResolveArgs(f, s3, [], [a]) == ArgsOutcome(Ok([a]), s3, []);
    assert ResolveArgs(f, s1, [0], []) == ArgsOutcome(Ok([a]), s3, [0]);
    var ab := Value(Text, "ab");
    assert [a][0].payload + "b" == "ab";
    assert f.rules[1].build([a]) == "ab";
    assert Resolve(f, map[], 1) == Outcome(Ok(ab), s3[1 := Resolved(ab)], [1, 0]);
  }

  /** Slot 0 reads slot 1 and slot 1 reads slot 0. */
  function Loop(): (f: Factory)
    ensures f.WellFormed()
  {
    Factory([
      Rule(Text, [1], vs => "a"),
      Rule(Text, [0], vs => "b")
    ])
  }

  /**
   * Reading slot 0 runs the rules of 0 and 1, finds the marker on 0 and stops
   * with a cycle error: the recursion terminates.
   */
  lemma LoopScenario()
    ensures Resolve(Loop(), map[], 0) == Outcome(Err(Cycle(0)), map[0 := InProgress, 1 := InProgress], [0, 1])
  {
    var f := Loop();
    var s1 := map[0 := InProgress];
    var s2 := s1[1 := InProgress];
    MissShape(f, map[], 0);
    ArgsStep(f, s1, [1], []);
    MissShape(f, s1, 1);
    ArgsStep(f, s2, [0], []);
    assert Resolve(f, s2, 0) == Outcome(Err(Cycle(0)), s2, []);
    assert ResolveArgs(f, s2, [0], []) == ArgsOutcome(Err(Cycle(0)), s2, []);
    assert Resolve(f, s1, 1) == Outcome(Err(Cycle(0)), s2, [1]);
    assert ResolveArgs(f, s1, [1], []) == ArgsOutcome(Err(Cycle(0)), s2, [1]);
    assert s2 == map[0 := InProgress, 1 := InProgress];
  }

  /** Seeding slot 1 with "z" makes a read of slot 1 return "z" and run no rule, not even slot 0's. */
  lemma SeededChainScenario()
    ensures var b := Stage(map[], 1, Some(Value(Text, "z")));
      Resolve(Chain(), Seeded(b), 1) == Outcome(Ok(Value(Text, "z")), Seeded(b), [])
  {
    var b := Stage(map[], 1, Some(Value(Text, "z")));
    SeededResolves(Chain(), b, 1);
  }
}
