# Dependency container: a verified model

This project models the dependency container of SwiftDI (`Sources/SwiftDI/SwiftDI.swift`).
A `DependencyContainer` keeps a store keyed by dependency slot. Reading a slot returns the
cached value if there is one. If the slot holds the private in-progress marker, the read is
a dependency cycle (for slots of a concrete type; see "## Left out" for slots typed `Any`).
If the slot holds a value of another type, the read is a type mismatch.
Otherwise the marker is written, the slot's factory rule runs (reading other slots through
the same container), and the built value replaces the marker. The setter fills an empty
slot and flags one that already has an entry. A `Builder` stages values before the container
exists, and the container's initialiser copies them into the store as values that are
already built.

Modelling choices:

- A slot (`Dependencies.Key`) is an index into the factory. `Factory.IsKey` says which keys
  are declared. A key path in the source can only name a declared property, so the methods
  require a declared key. The source has no failure for an unregistered slot, so neither does
  the model.
- A cell is `InProgress` or `Resolved(v)`; a key absent from the store is empty. This
  replaces the private `RecursiveDependencyMarker` type.
- Values carry a type tag (`Value.ty`), and a slot's declared type is its rule's `ty`. The
  store holds any value under any key, as the source's `[PartialKeyPath: Any]` does. In the
  source every write is statically typed: line 44 stores a `D`, line 52 a `newValue: D`,
  and line 76 a `D?`. In the model, `Containers.DependencyContainer.Set` and
  `Containers.Builder.Set` accept a value of any tag, and only such a write can reach the
  type-mismatch branch (line 37). `Guarantees.ResolveTyped`, `Overrides.SeedTyped` and
  `Overrides.SeededTyped` prove that when every write is well-typed, as in the source, the
  store stays well-typed and a read never reports a mismatch.
- A factory rule (`Rule`) is the list of slots it reads plus a pure function `build` from
  their values to the new value's contents. The built value carries the slot's type, because
  the source's factory property is statically typed.
- The fatal errors (`fatalError` for a cycle or a mismatch, `assertionFailure` for a second
  set) are the `Error` values `Cycle`, `TypeMismatch` and `AlreadyInitialized`, returned in
  a `Result` or a `Status`. The store a failure leaves behind is the store at the point of
  failure.
- `Resolution.Resolve` and `Resolution.ResolveArgs` are the getter as pure functions. They
  are mutually recursive and terminate because every miss marks a slot that was empty
  (`Pending`). The class `Containers.DependencyContainer` updates its `store` field in place,
  and its `Get`, `Build` and `ReadDependencies` methods are proved equal to those functions.
  The ghost field `invocations` records every rule run. `Resolve` does the same in `built`.
- `Containers.Builder` is a class whose `store` map its `Set` method updates. The
  container's constructor takes a populated builder, as `init` receives the builder after
  the build block has run.

## Model

| member | source | states |
|---|---|---|
| Resolution.Resolve | Sources/SwiftDI/SwiftDI.swift:30-47 | a read only adds entries: every entry already in the store keeps its cell, and the store stays within the declared slots |
| Resolution.ResolveArgs | Sources/SwiftDI/SwiftDI.swift:43 | reading a rule's dependencies one by one through the container also only adds entries within the declared slots |
| Guarantees.ResolveHit | Sources/SwiftDI/SwiftDI.swift:32-40 | a cached value of the slot's type is returned as is, no rule runs, and the store is unchanged |
| Guarantees.ResolveCycle | Sources/SwiftDI/SwiftDI.swift:34-35 | reading a slot that holds the marker fails with a cycle error for that slot, runs no rule and changes nothing |
| Guarantees.ResolveMismatch | Sources/SwiftDI/SwiftDI.swift:33-38 | reading a slot that holds a value of another type fails with a type mismatch naming the expected and the actual type, and changes nothing |
| Guarantees.ResolveMiss | Sources/SwiftDI/SwiftDI.swift:41-46 | on a miss the slot's own rule runs first and exactly once; on success the returned value is that rule applied to the values its dependencies now hold |
| Guarantees.ResolveStores | Sources/SwiftDI/SwiftDI.swift:44-45 | a successful read returns a value of the slot's declared type, and the store then holds exactly that value for the slot |
| Guarantees.ResolveFresh | Sources/SwiftDI/SwiftDI.swift:42-44 | every slot a successful read adds to the store holds a value, not the marker |
| Guarantees.ResolveArgsFresh | Sources/SwiftDI/SwiftDI.swift:43 | the same for reading a rule's dependencies |
| Guarantees.ResolveArgsValues | Sources/SwiftDI/SwiftDI.swift:43 | when all dependencies are read successfully, each holds a value afterwards, and the rule receives exactly those values in order |
| Guarantees.ResolveBuilt | Sources/SwiftDI/SwiftDI.swift:41-46 | the rules a read runs are exactly those of the slots it adds to the store, and no rule runs twice |
| Guarantees.ResolveArgsBuilt | Sources/SwiftDI/SwiftDI.swift:43 | the same for reading a rule's dependencies |
| Guarantees.ResolveMemoises | Sources/SwiftDI/SwiftDI.swift:32-46 | after a successful read, reading the same slot again returns the same value, runs no rule and leaves the store as it is |
| Guarantees.ResolveLeavesNoMarker | Sources/SwiftDI/SwiftDI.swift:42-44 | a successful top-level read from a store without markers leaves no marker in the store |
| Guarantees.ResolveTyped | Sources/SwiftDI/SwiftDI.swift:33-38 | from a well-typed store a read leaves a well-typed store, and its only possible failure is a cycle, so the mismatch branch cannot be reached |
| Guarantees.ResolveArgsTyped | Sources/SwiftDI/SwiftDI.swift:43 | the same for reading a rule's dependencies |
| Guarantees.ResolveWithin | Sources/SwiftDI/SwiftDI.swift:41-46 | a read adds slots only inside any dependency-closed set that contains the slot read |
| Guarantees.ResolveArgsWithin | Sources/SwiftDI/SwiftDI.swift:43 | the same for reading a rule's dependencies |
| Guarantees.ResolveBuildsWithin | Sources/SwiftDI/SwiftDI.swift:41-46 | a read never runs the rule of a slot that nothing it reads requires, even transitively |
| Guarantees.ResolveNoCycle | Sources/SwiftDI/SwiftDI.swift:34-35 | with acyclic (ranked) rules, and every marker ranked above the slot read, the read never reports a cycle |
| Guarantees.ResolveArgsNoCycle | Sources/SwiftDI/SwiftDI.swift:42-43 | the same for reading a rule's dependencies |
| Guarantees.ResolveSucceeds | Sources/SwiftDI/SwiftDI.swift:32-46 | with acyclic rules, a well-typed store and no marker, every read succeeds |
| Overrides.Staged | Sources/SwiftDI/SwiftDI.swift:75 | the builder's getter gives the staged value exactly when one is staged with the requested type, and nothing otherwise |
| Overrides.Stage | Sources/SwiftDI/SwiftDI.swift:76 | the builder's setter stages the given value, or clears the slot when given none, and leaves every other slot alone |
| Overrides.StageThenStaged | Sources/SwiftDI/SwiftDI.swift:74-77 | a staged value reads back as itself, a cleared slot reads back as nothing, and other slots read as before |
| Overrides.Seeded | Sources/SwiftDI/SwiftDI.swift:22-26 | the initial store has exactly the staged slots, each holding its staged value as a built value |
| Overrides.SeededResolves | Sources/SwiftDI/SwiftDI.swift:22-40 | reading a seeded slot returns the seeded value and never runs its rule |
| Overrides.SeededTyped | Sources/SwiftDI/SwiftDI.swift:22-26 | a well-typed staging area gives a well-typed initial store with no marker |
| Overrides.Seed | Sources/SwiftDI/SwiftDI.swift:48-53 | the setter succeeds exactly when the slot is empty; otherwise it reports the slot as already initialized and the slot keeps its entry; no other slot changes |
| Overrides.SeedThenResolve | Sources/SwiftDI/SwiftDI.swift:48-53 | a value set into an empty slot is what the next read of that slot returns, with no rule run |
| Overrides.SeedTwice | Sources/SwiftDI/SwiftDI.swift:49-52 | setting a slot twice is rejected the second time, and the first value stays |
| Overrides.SeedDuringResolution | Sources/SwiftDI/SwiftDI.swift:49-50 | setting a slot whose rule is running (it holds the marker) is rejected and changes nothing |
| Overrides.SeedTyped | Sources/SwiftDI/SwiftDI.swift:52 | setting a value of the slot's type keeps the store well-typed and adds no marker |
| Containers.Builder.constructor | Sources/SwiftDI/SwiftDI.swift:73 | a new builder stages nothing |
| Containers.Builder.Get | Sources/SwiftDI/SwiftDI.swift:75 | returns the staged value when it has the requested type, otherwise nothing |
| Containers.Builder.Set | Sources/SwiftDI/SwiftDI.swift:76 | the staging map becomes the old one with the slot set or cleared |
| Containers.DependencyContainer.constructor | Sources/SwiftDI/SwiftDI.swift:22-26 | the store is the builder's staged values as built cells, and no rule has run |
| Containers.DependencyContainer.Get | Sources/SwiftDI/SwiftDI.swift:30-47 | result, new store and rules run are those of Resolve on the old store; entries are only added; every rule that ran has an entry and ran once |
| Containers.DependencyContainer.Build | Sources/SwiftDI/SwiftDI.swift:41-46 | writes the marker, reads the dependencies, replaces the marker with the built value, matching Resolve on a miss |
| Containers.DependencyContainer.ReadDependencies | Sources/SwiftDI/SwiftDI.swift:43 | reads the dependencies in a loop through Get, matching ResolveArgs, and stops at the first failure |
| Containers.DependencyContainer.Set | Sources/SwiftDI/SwiftDI.swift:48-53 | result and new store are those of Seed; no rule runs |
| Scenarios.ChainScenario | Sources/SwiftDI/SwiftDI.swift:41-46 | with A building "a" and B building A's value plus "b", reading B returns "ab" after running B's and A's rules once each, leaves an unrelated slot empty, and a later read of A returns "a" with no rule run |
| Scenarios.LoopScenario | Sources/SwiftDI/SwiftDI.swift:34-35 | with A reading B and B reading A, reading A runs both rules, finds A's marker and stops with a cycle error for A |
| Scenarios.SeededChainScenario | Sources/SwiftDI/SwiftDI.swift:22-40 | a slot seeded through the builder is returned without running its rule or the rules it depends on |

## Left out

- The SwiftUI glue (`DependencyEnvironmentKey`, `EnvironmentValues.di`, `View.initialize`, lines 84-99) and the `ObservableObject` conformance: framework plumbing with no logic.
- `Sources/SwiftMVVM/SwiftMVVM.swift` and `Sources/SwiftMVVM/Errors.swift`: view-model lifecycle hooks and the error-handler relay, which are UI glue. They are not part of this model.
- Swift key paths and `@dynamicMemberLookup`: slots are plain indices into the factory, and the declared type of a slot is its rule's type tag.
- `DependencyFactory` and the `factory` property: a rule is a fixed list of slots it reads plus a pure combination. Rules whose reads depend on values already read, rules with side effects, and rules that do not return are not modelled.
- Process termination: `fatalError` and `assertionFailure` become error values that propagate to the top-level read. Nothing after a failure is meaningful in the source.
- Containers.DependencyContainer.Set: in a release build the source overwrites an entry that is already present after the assertion. The model follows the debug build: the entry is kept and `AlreadyInitialized` is returned.
- Object identity: values are compared by value. "The same instance" is modelled as "the same value, with no rule run again".
- Dependency types that are themselves optional are not modelled. For those, Swift's optional casts differ.
- Resolution.Resolve: a slot's type is a tag compared by equality, which stands for Swift's `as? D` (line 33) only on concrete slot types. If a slot is typed `Any` (or `AnyObject` on Apple platforms), the private marker itself passes the cast. The source then returns the marker as the dependency and misses the cycle at line 35. The model checks for the marker first and reports `Cycle` for every slot type. Supertype casts (a value read through a protocol or superclass type) are not modelled either.
- Thread safety: the store is unsynchronised and single-threaded, as in the source.
- The build block passed to `init` is caller code. The model's constructor takes the builder after that code has run.
