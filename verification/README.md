# Surtr, verified pieces

A Dafny model of the parts of the Surtr language implementation whose correctness rests on an invariant
or on a meaning being preserved, with proofs for all inputs and all runs. `dafny verify dfyconfig.toml`
checks the whole project.

| module | what it models |
|---|---|
| `VarScopes` | the variable map of the type environment with its first-write undo frames, ordinary and isolated |
| `TypeRegistry`, `EnumIndex` | type names and runtime tags; the three indexes of enum variants |
| `Fingerprint` | the alpha-canonical form that compares typed programs up to generated identifiers |
| `Binary`, `BitBuiltins` | two's complement on unbounded integers and the bit builtins |
| `Mixing`, `Bytes`, `Sampling`, `SamplingTermination` | the 64-bit mixing function, the seeded generator, rejection sampling and when it ends |
| `JsonConversion`, `JsonPosition` | JSON to Surtr values and back; where a nested decoding error lies |
| `Facets` | list and slice accessors with negative indices, map accessors |
| `BuildKey` | the byte stream behind the compiler build key |
| `LexicalScope` | persistent scopes with elided empty layers |
| `SourceRegistry`, `SourceLines`, `LineCounting` | the sorted source registry; lines of a text computed in two ways |
| `ErrorKind` | the error kind that is stored as a marker among free-form details |
| `Wrappers`, `MachineWords`, `Selections` | optional values and results; the 32-bit and 64-bit words; order-preserving parts of a sequence |

The main results:

- **Scopes.** The undo log refines a stack of full snapshots. Closing a scope leaves the contents from before
  it with only the surviving normalisations replayed, where survival is read off the scope's body alone;
  an isolated scope leaves exactly the contents from before it, whatever it nests, binds or normalises.
- **Canonical form.** For all programs, a one-to-one renaming of generated identifiers turns one into the
  other if and only if they have the same canonical form and the walk rewrites the same objects of both. The
  canonical form alone does not decide it, because an input may already hold a name that the walk hands out: a
  program shares its canonical form with one that is no renaming of it if and only if it holds an identifier
  that the walk rewrites or one that carries the walk's first name. Among programs without such names, the
  canonical form decides. Position by position, the walk replaces exactly the numbers of compiler-generated
  unqualified identifiers, equal numbers by equal names, and nothing else.
- **Sampling.** The byte buffer and mask compute the draws modulo a power of two, for bounds of any size.
  The loop returns the first candidate below the bound. Its attempts start from exactly the states congruent to
  the first one modulo the power of two in the number of draws, so it ends if and only if one of those is
  accepted. It ends from every state when the number of draws is no multiple of eight, hence for every bound
  below 2^448. It does not end for every bound: from some states a power of two of 64 times 2^64 bits, more than
  any memory holds, is never sampled. Below 2^64 every value is tried from exactly the same number of states.
- **Build key.** Equal byte streams come from equal files, variables, configurations and toolchains.
- **JSON.** Parsing succeeds exactly on decodable documents nested at most 127 deep; parsing and printing
  gives the document back with the last repeated key winning, exactly when all integers fit 64 bits.
- **Slices.** Reading a slice back after replacing it gives the replacement in exactly two cases: equal
  lengths, or a start counted from the front, an end counted from the back and a non-empty replacement. It is
  not a law for all replacements.

Conventions: machine words are natural numbers with the wrap-around written out where it can be observed
(identifiers of scopes and tags wrap in release builds, the source registry stops instead). Panics and
`Result` errors are values. A loop whose end depends on the generator has as its precondition that it ends,
and separate lemmas say when that is so.

## Model

| member | source | states |
|---|---|---|
| VarScopes.TypeEnv.constructor | crates/scar/src/env.rs:148-169 | a new environment represents the empty run |
| VarScopes.TypeEnv.BindVar | crates/scar/src/env.rs:172-180 | binding writes the variable and keeps the undo log equal to the stack of snapshots of the calls made so far |
| VarScopes.TypeEnv.RecordVarChange | crates/scar/src/env.rs:182-189 | a frame logs the value before its first write of a variable and nothing afterwards |
| VarScopes.TypeEnv.RecordIsolatedVarChange | crates/scar/src/env.rs:191-195 | a write is logged in every open isolated frame and in no other |
| VarScopes.TypeEnv.NormalizeVar | crates/scar/src/env.rs:198-201 | normalising reaches exactly the snapshots of the scopes it leaks to |
| VarScopes.TypeEnv.PushIsolatedVarScope | crates/scar/src/env.rs:205-209 | opens an isolated scope whose snapshot is the current contents |
| VarScopes.TypeEnv.PushVarScope | crates/scar/src/env.rs:215-221 | opens an ordinary scope whose snapshot is the current contents |
| VarScopes.TypeEnv.PopVarScope | crates/scar/src/env.rs:224-239 | closing restores the snapshot of the innermost scope, and does nothing when none is open |
| VarScopes.TypeEnv.RollBack | crates/scar/src/env.rs:232-238 | undoing a log last entry first gives each variable its first logged value |
| VarScopes.TypeEnv.RecordConcreteErrors | crates/scar/src/checker/expr/mod.rs:431 | the concrete-error map may be assigned at any time without disturbing the representation |
| VarScopes.TypeEnv.LookupVar | crates/scar/src/env.rs:242-244 | a lookup sees what the specification holds after the same calls |
| VarScopes.RecordKeepsFrame | crates/scar/src/env.rs:182-189 | every frame holds at most one undo entry for a variable, and touches exactly the variables it logs |
| VarScopes.ShieldedWrite | crates/scar/src/env.rs:182-201 | a write logged at or above a frame does not change what closing down to that frame restores |
| VarScopes.ExposedWrite | crates/scar/src/env.rs:197-201 | a write that no frame has logged survives closing them |
| VarScopes.BindKeepsRepresentation | crates/scar/src/env.rs:172-195 | logging in the isolated frames and the innermost one leaves every snapshot as it was |
| VarScopes.NormalizeKeepsRepresentation | crates/scar/src/env.rs:191-201 | logging in the isolated frames alone changes exactly the snapshots without an isolated scope or an earlier binding above them |
| VarScopes.PopKeepsRepresentation | crates/scar/src/env.rs:224-239 | an inner close, which tells the outer frames nothing, keeps what they restore |
| VarScopes.ScopeReplaysSurvivors | crates/scar/src/env.rs:197-239 | for every run inside a scope, closing it leaves the push-time map with exactly the surviving normalisations replayed, and the push-time error map |
| VarScopes.IsolatedScopeRestoresExactly | crates/scar/src/env.rs:203-239 | for every run inside an isolated scope, closing it restores both maps exactly |
| VarScopes.ScopeWithoutNormalizeRestoresExactly | crates/scar/src/env.rs:211-239 | without normalisations every scope restores both maps exactly |
| VarScopes.EnvironmentAfterScope | crates/scar/src/env.rs:211-239 | the same, of the maps the environment itself holds |
| VarScopes.BalancedExactly | crates/scar/src/env.rs:203-239 | the scope bodies covered are all those whose pushes and pops pair up |
| TypeRegistry.SameKey | crates/scar/src/env.rs:11-17 | two spellings share a key exactly when one is the other under the implicit root |
| TypeRegistry.HasPathExactly | crates/scar/src/env.rs:12 | a name has a path if and only if it contains `::` |
| TypeRegistry.LookupFindsDeclaration | crates/scar/src/env.rs:19-25 | lookup by the declared spelling returns that declaration; what else a lookup can find |
| TypeRegistry.Registry.Predeclare | crates/scar/src/env.rs:250-297 | the first declaration takes the next tag, a repeated one returns it and changes nothing |
| TypeRegistry.Registry.ResolveSignature | crates/scar/src/env.rs:302-318 | resolving fills in the signature, keeps the tag and refuses undeclared names |
| TypeRegistry.Registry.ReserveTag | crates/scar/src/env.rs:321-325 | reserving takes the next tag |
| TypeRegistry.Registry.Lookup | crates/scar/src/env.rs:328-332 | over every run a declared name is found under its spelling |
| TypeRegistry.TagsDistinctUntilWrap | crates/scar/src/env.rs:112-113 | issued tags are distinct and avoid the reserved two if and only if the 32-bit counter has not wrapped |
| TypeRegistry.DefinitionTagsDistinct | crates/scar/src/env.rs:278-279 | until then definitions have distinct tags from 2 up to the last one issued, all below the next tag unless that has just wrapped |
| EnumIndex.Index.Register | crates/scar/src/env.rs:388-414 | a registration is refused exactly when its constructor or tag is taken, and then nothing changes; otherwise the log all three indexes describe grows by it |
| EnumIndex.Index.VariantByConstructor | crates/scar/src/env.rs:416-418 | every logged variant is found by its constructor, and nothing else |
| EnumIndex.Index.VariantByTag | crates/scar/src/env.rs:420-422 | every logged variant is found by its tag, and nothing else |
| EnumIndex.Index.VariantsOfEnum | crates/scar/src/env.rs:424-428 | the list of an enum under its own name, else under the name with `Global::` removed or added |
| EnumIndex.VariantsOfExactly | crates/scar/src/env.rs:406-412 | the list of an enum holds the variants of exactly its registrations, in order |
| Fingerprint.RenamingIffCanonicalFormAndBinders | crates/rune/examples/scar-session-profile.rs:161-197 | for all programs: one is a one-to-one renaming of the other's generated identifiers if and only if both normalise to the same tree and are rewritten at the same objects |
| Fingerprint.CanonicalFormsEqualIffRenaming | crates/rune/examples/scar-session-profile.rs:161-197 | for programs in which no generated identifier already carries a name the walk hands out, normalising to the same tree alone is equivalent |
| Fingerprint.RenamingKeepsCanonicalForm | crates/rune/examples/scar-session-profile.rs:165-181 | renaming keeps the normalised tree of every program, and the objects that are rewritten |
| Fingerprint.WalkChangesExactly | crates/rune/examples/scar-session-profile.rs:162-184 | in every object of a program the walk replaces a scalar if and only if it is the unsigned `unique_id` of an object whose `compiler_generated` is true and `qualified_name` null and that has `name` and `span`; every other scalar, length and key stays |
| Fingerprint.WalkKeepsLists | crates/rune/examples/scar-session-profile.rs:186-190 | scalars in lists stay, and lists keep their length |
| Fingerprint.NamedByOrder | crates/rune/examples/scar-session-profile.rs:173-180 | a replaced number receives the name of its place in the order of first occurrences |
| Fingerprint.SameNameIffSameNumber | crates/rune/examples/scar-session-profile.rs:165-180 | two replaced numbers anywhere in a program receive the same name if and only if they are equal |
| Fingerprint.DecimalReadsBack | crates/rune/examples/scar-session-profile.rs:176-179 | an ordinal is written in decimal digits without leading zeros that read back as the ordinal |
| Fingerprint.CollidesIffBinderOrFirstName | crates/rune/examples/scar-session-profile.rs:165-180 | a program shares its normal form with one that is no renaming of it if and only if it holds a generated number or a generated identifier with the walk's first name |
| Fingerprint.UniqueWithoutFirstName | crates/rune/examples/scar-session-profile.rs:165-180 | every other program is the only one with its normal form |
| Fingerprint.IdentifierCollides | crates/rune/examples/scar-session-profile.rs:168-180 | a concrete pair: a numbered identifier and the one already named `synthetic_binding:0` |
| Fingerprint.GeneratedIdentifier | crates/rune/examples/scar-session-profile.rs:168-172 | the pair consists of generated identifiers |
| Fingerprint.CanonicalIdempotent | crates/rune/examples/scar-session-profile.rs:162-194 | normalising a normalised tree changes nothing |
| Fingerprint.NameInjective | crates/rune/examples/scar-session-profile.rs:176-179 | different ordinals give different names |
| Fingerprint.Normalizer.Ordinal | crates/rune/examples/scar-session-profile.rs:174-175 | an identifier's ordinal is the position of its first occurrence |
| Fingerprint.Normalizer.Normalize | crates/rune/examples/scar-session-profile.rs:162-194 | the walk with its table produces the specified tree and order of occurrences |
| Fingerprint.SemanticForm | crates/rune/examples/scar-session-profile.rs:195 | a fresh walk produces the canonical form |
| Binary.BitwiseBit | crates/eldr/src/builtin.rs:2141-2160 | and, or and exclusive or act on each bit of the infinite expansion, negative numbers included |
| Binary.NotBit | crates/eldr/src/builtin.rs:2162-2167 | complement flips every bit |
| BitBuiltins.TestBitReadsBit | crates/eldr/src/builtin.rs:2169-2179 | testing reads the named bit; negative and oversized indices, and only they, are errors, each its own |
| BitBuiltins.ChangeBitAccepts | crates/eldr/src/builtin.rs:2181-2215 | set, clear and toggle succeed if and only if the index is a machine index; which error a negative or oversized one gets |
| BitBuiltins.ChangeBitSeenByTest | crates/eldr/src/builtin.rs:2181-2215 | at every index a later test sees what it saw before, except at the one named: true after set, false after clear, the opposite after toggle |
| BitBuiltins.ChangeBitTwice | crates/eldr/src/builtin.rs:2181-2215 | set and clear are idempotent, toggle is its own inverse |
| BitBuiltins.ChangesCommute | crates/eldr/src/builtin.rs:2181-2215 | changes at different indices commute |
| Mixing.Mix64Bijective | crates/eldr/src/builtin.rs:3988-3992 | mixing is a bijection of the 64-bit words, with its inverse |
| Mixing.Mix64Zero | crates/eldr/src/builtin.rs:3988-3992 | zero mixes to zero |
| Sampling.FillBuffer | crates/eldr/src/builtin.rs:3930-3936 | the buffer holds the low bytes of successive draws and the state has advanced once per chunk |
| Sampling.FilledValue | crates/eldr/src/builtin.rs:3930-3946 | the buffer read as a number is the concatenated draws, cut to the buffer's length |
| Sampling.MaskLastByte | crates/eldr/src/builtin.rs:3938-3946 | masking the last byte reduces the number to the bits of the bound |
| Sampling.Attempt | crates/eldr/src/builtin.rs:3926-3946 | an attempt yields its draws modulo 2 to the bit length of the bound, for bounds of any size |
| Sampling.SampleBelow | crates/eldr/src/builtin.rs:3921-3951 | the loop returns the first candidate below the bound and the state after it |
| Sampling.SampledOnce | crates/eldr/src/builtin.rs:3921-3951 | bound and state determine the sampled value and the next state |
| Sampling.SampleIntRange | crates/eldr/src/builtin.rs:3904-3919 | an empty range is an error; otherwise the result is the start plus the sampled offset and lies in the range |
| Sampling.TopBitClearAccepts | crates/eldr/src/builtin.rs:3926-3949 | an attempt whose last draw leaves the bound's top bit clear is accepted |
| Sampling.DivisibleStateTerminates | crates/eldr/src/builtin.rs:3929-3950 | sampling ends when the power of two in the number of draws divides the state |
| Sampling.OddDrawsTerminate | crates/eldr/src/builtin.rs:3929-3950 | sampling ends for every state when a bound needs an odd number of draws |
| Sampling.WordRangeTerminates | crates/eldr/src/builtin.rs:3929-3950 | sampling ends for every state and every bound below 2^64 |
| SamplingTermination.TerminatesIffClassAccepts | crates/eldr/src/builtin.rs:3926-3950 | for every bound and state, sampling ends if and only if some state congruent to it, modulo the power of two in the number of draws, is accepted |
| SamplingTermination.VisitedInClass | crates/eldr/src/builtin.rs:3929-3950 | every attempt starts in a state of that class |
| SamplingTermination.ClassVisited | crates/eldr/src/builtin.rs:3929-3950 | every state of that class is the start of some attempt |
| SamplingTermination.FewFactorsTerminate | crates/eldr/src/builtin.rs:3929-3950 | sampling ends for every state when the number of draws is no multiple of eight |
| SamplingTermination.SevenDrawsTerminate | crates/eldr/src/builtin.rs:3929-3950 | sampling ends for every state and every bound of at most 448 bits |
| SamplingTermination.ClearBitInClass | crates/eldr/src/builtin.rs:3988-3992 | in every class modulo four and for every bit, some word mixes to one with that bit clear |
| SamplingTermination.TopBitDecides | crates/eldr/src/builtin.rs:3926-3949 | a power of two accepts an attempt if and only if its last draw leaves the top bit clear |
| SamplingTermination.NeverEnds | crates/eldr/src/builtin.rs:3929-3950 | a power of two that takes a multiple of 2^64 draws is never sampled from a state whose draw sets the top bit |
| SamplingTermination.SomeStateNeverEnds | crates/eldr/src/builtin.rs:3929-3950 | a concrete such bound and state |
| Sampling.TerminatesWithinOnePeriod | crates/eldr/src/builtin.rs:3929-3950 | for every bound and state, sampling ends if and only if one of the first 2^64 attempts is accepted |
| Sampling.EveryValueEquallyLikely | crates/eldr/src/builtin.rs:3926-3950 | for a bound of b bits below 2^64, each value is tried from exactly 2^(64-b) states |
| JsonConversion.ParseValue | crates/eldr/src/builtin.rs:4434-4509 | the recursive conversion with its loops computes the specified result, errors included |
| JsonConversion.ParseEntries | crates/eldr/src/builtin.rs:4498-4503 | the rebuilt map is the collection of all entries, unless a value fails |
| JsonConversion.ConvertMeaning | crates/eldr/src/builtin.rs:4434-4509 | at every depth, conversion succeeds exactly on decodable values that stay within the limit, and then yields the encoding of their meaning |
| JsonConversion.ConvertedObject | crates/eldr/src/builtin.rs:4494-4504 | a converted object holds under each key the conversion of the value at the last place the key is named, and no other key |
| JsonConversion.ConvertedArray | crates/eldr/src/builtin.rs:4481-4493 | a converted array holds the conversion of each item at its place |
| JsonConversion.ConvertedVariant | crates/eldr/src/builtin.rs:4443-4504 | a converted value carries the tag of its variant and the number of that variant, a scalar its own payload |
| JsonConversion.FailureOrder | crates/eldr/src/builtin.rs:4472-4504 | a container at the limit is refused before anything in it, an undecodable key before every value, otherwise the first failing item or value decides |
| JsonConversion.ParsesIffDecodableAndShallow | crates/eldr/src/builtin.rs:4472-4480 | a document converts if and only if it decodes and is nested at most 127 deep |
| JsonConversion.LastEntryWins | crates/eldr/src/builtin.rs:4498-4502 | in a map built entry by entry the last entry for a key wins |
| JsonConversion.MeaningOfObject | crates/eldr/src/builtin.rs:4494-4504 | an object means each key it names once, in order, with the meaning of the value at its last place, and no other key |
| JsonConversion.MeaningOfArray | crates/eldr/src/builtin.rs:4481-4493 | a converted array means its items in order |
| JsonConversion.LessExactly | crates/eldr/src/builtin.rs:4640-4646 | keys are ordered lexicographically |
| JsonConversion.ToJsonNumberExactly | crates/eldr/src/builtin.rs:4568-4576 | an integer prints as itself if and only if it fits signed or unsigned 64 bits, else it is named |
| JsonConversion.StringifyExactly | crates/eldr/src/builtin.rs:4578-4669 | a runtime value prints as a tree if and only if it is laid out as that tree and its integers fit |
| JsonConversion.StringifyRefuses | crates/eldr/src/builtin.rs:4582-4669 | which error a value that is no JSON value, has the wrong arity or payload, or is not finite gets |
| JsonConversion.RefusalOrder | crates/eldr/src/builtin.rs:4628-4650 | of several unprintable items or values the first decides |
| JsonConversion.StringifyEncoded | crates/eldr/src/builtin.rs:4568-4669 | printing a JSON value gives its tree back if and only if all integers fit 64 bits, else names the first that does not |
| JsonConversion.ParseThenStringify | crates/eldr/src/builtin.rs:4434-4669 | parsing and printing a document gives its meaning, exactly when all integers fit |
| JsonConversion.ConvertErrorExplained | crates/eldr/src/builtin.rs:4434-4509 | a failed conversion says why: only an undecodable value is reported as invalid, and the depth error always carries 127 over 127 and only for a value nested too deep |
| JsonConversion.PrintedIntegersFit | crates/eldr/src/builtin.rs:4568-4669 | whatever value prints, encoded or not, the printed tree holds only integers that fit 64 bits |
| JsonConversion.StringifyStable | crates/eldr/src/builtin.rs:4568-4669 | the canonical value of any printed tree prints as that same tree |
| JsonPosition.PositionCounts | crates/eldr/src/builtin.rs:4415-4423 | the position is the number of newlines before and the bytes since the last one |
| JsonPosition.TokenOffsetInverse | crates/eldr/src/builtin.rs:4404-4412 | the line and column of a byte in a token lead back to that byte |
| JsonPosition.DecodeErrorPositionExact | crates/eldr/src/builtin.rs:4398-4423 | an error at byte k of a token at any offset is located at that offset plus k in the document |
| Facets.ResolveExact | crates/eldr/src/builtin.rs:2564-2579 | an index is accepted exactly from -len to len - 1 and counts from the front or the back |
| Facets.ListAccess | crates/eldr/src/builtin.rs:2605-2637 | reading and writing succeed exactly on the elements an index can name, at that element; otherwise the index is reported |
| Facets.MapAccess | crates/eldr/src/builtin.rs:2695-2716 | reading and replacing succeed exactly on present keys; a missing one is reported and not added |
| Facets.SliceAccess | crates/eldr/src/builtin.rs:2581-2693 | a range is accepted if and only if both ends name elements in order; the slice is all elements between them; the start's fault is reported first, then the end's, then the order |
| Facets.ListLens | crates/eldr/src/builtin.rs:2605-2637 | get-put, put-get and put-put at one index, other elements untouched, the same failures |
| Facets.MapLens | crates/eldr/src/builtin.rs:2695-2716 | get-put, put-get and put-put at one key, the same keys, other values untouched, the same failure on a missing key |
| Facets.SliceSetOwnSlice | crates/eldr/src/builtin.rs:2639-2693 | writing back the slice that was read changes nothing |
| Facets.SliceSetShape | crates/eldr/src/builtin.rs:2666-2693 | what lies outside the range keeps its order and value; the new length |
| Facets.SliceReadsBack | crates/eldr/src/builtin.rs:2639-2693 | exactly when a replacement is read back under the same indices |
| BuildKey.Hasher.HashField | crates/xldr/build.rs:46-49 | a field feeds its 64-bit length and its bytes |
| BuildKey.EntryLayout | crates/xldr/build.rs:46-65 | an entry is the 64-bit length of the name, the name and the tagged value |
| BuildKey.TaggedLayout | crates/xldr/build.rs:55-63 | a present value is a 1, its length and its bytes, an absent one a 0 |
| BuildKey.Hasher.HashEnvironment | crates/xldr/build.rs:51-65 | a variable feeds its name and tagged value; only a missing required one fails |
| BuildKey.Hasher.HashToolIdentity | crates/xldr/build.rs:67-81 | a tool feeds its name and output; a failing one stops |
| BuildKey.Hasher.HashFiles | crates/xldr/build.rs:115-127 | every file feeds its path and contents, in order |
| BuildKey.Hasher.HashVariables | crates/xldr/build.rs:128-145 | a list of variables feeds their entries, in order |
| BuildKey.FeedBuildKey | crates/xldr/build.rs:114-160 | the script feeds the stream of the described build, and fails exactly on a missing required variable or tool identity |
| BuildKey.FieldUnique | crates/xldr/build.rs:46-49 | a field can be split off a stream in one way only |
| BuildKey.FilesUnique | crates/xldr/build.rs:115-137 | the end of the file section is determined by the stream |
| BuildKey.ConfigurationUnique | crates/xldr/build.rs:147-159 | the end of the configuration section is determined by the stream |
| BuildKey.StreamUniquelyDecodable | crates/xldr/build.rs:114-160 | equal streams come from equal builds, absent variables distinct from empty ones |
| BuildKey.EqualStreamsSameInputs | crates/xldr/build.rs:114-160 | environments with equal streams agree on every file, every covered variable and both tools |
| BuildKey.CoveredExactly | crates/xldr/build.rs:128-155 | the variables covered are the ten listed by name and those with the two Cargo prefixes |
| BuildKey.CollectedPaths | crates/xldr/build.rs:92-112 | the paths the script collects are of the form that ends the file section |
| LexicalScope.Scope.WithNextId | crates/sigil/src/scope.rs:30-36 | a new scope is empty and its counter is ahead |
| LexicalScope.VisibleIsUsed | crates/sigil/src/scope.rs:82-85 | every identifier visible in a chain or its parent counts as used, so new ones differ from it |
| LexicalScope.Scope.Child | crates/sigil/src/scope.rs:39-48 | a child is a new object that sees what its parent sees, an empty layer is never kept as a parent |
| LexicalScope.Scope.Define | crates/sigil/src/scope.rs:52-57 | defining updates the flat map with an identifier unused anywhere in the chain; the counter stays ahead if and only if it does not wrap |
| LexicalScope.Scope.ReserveId | crates/sigil/src/scope.rs:60-64 | reserving issues an unused identifier and binds nothing |
| LexicalScope.Scope.DefineWithId | crates/sigil/src/scope.rs:67-72 | binding a given identifier updates the flat map; the counter stays ahead if and only if the identifier is not the last one |
| LexicalScope.Scope.AdvanceNextIdTo | crates/sigil/src/scope.rs:75-79 | advancing keeps the bindings and keeps the counter ahead |
| LexicalScope.LookupAgreesWithFlatMap | crates/sigil/src/scope.rs:82-85 | walking the layers finds what the flat map holds |
| LexicalScope.Scope.LookupName | crates/sigil/src/scope.rs:82-85 | the same, of a live scope |
| LexicalScope.Scope.Bindings | crates/sigil/src/scope.rs:87-93 | each visible name is listed exactly once with its innermost identifier |
| SourceRegistry.BinarySearch | crates/diagnostics/src/source.rs:141-146 | bisection finds the identifier or its insertion point |
| SourceRegistry.Registry.Register | crates/diagnostics/src/source.rs:126-139 | a new identifier is neither used nor reserved; the registry stops when the 32-bit supply is exhausted |
| SourceRegistry.Registry.Lookup | crates/diagnostics/src/source.rs:141-146 | bisection agrees with a scan of all entries |
| SourceRegistry.Registry.UpdateSource | crates/diagnostics/src/source.rs:156-167 | only the named entry's text changes, if it exists |
| SourceRegistry.Registry.ReserveIdsBefore | crates/diagnostics/src/source.rs:179-181 | later identifiers are at or above the reserved bound |
| SourceRegistry.Registry.Restore | crates/diagnostics/src/source.rs:184-202 | an existing entry is never altered; success exactly on a free or equal entry below the last identifier |
| SourceLines.LineSpans | crates/diagnostics/src/source.rs:25-37 | the spans are newline-free and cover the text with one newline between each two |
| SourceLines.LinesJoinToSource | crates/diagnostics/src/source.rs:25-45 | the lines joined by newlines give the text back |
| SourceLines.SliceCharsExactly | crates/diagnostics/src/source.rs:39-45 | a slice holds exactly the characters of the text in its range, for all bounds |
| SourceLines.LineIndex | crates/diagnostics/src/source.rs:19-23 | the index is that of the first span holding the position, absent only if none does |
| SourceLines.PositionInOneLine | crates/diagnostics/src/source.rs:19-37 | every position up to the end lies in exactly one span, no other in any |
| SourceLines.LineColumnForOffset | crates/diagnostics/src/source.rs:4-17 | the running line and column count newlines and characters since the last |
| SourceLines.LineColumnMatchesSpans | crates/diagnostics/src/source.rs:4-37 | they equal the span's number and the position within it |
| SourceLines.TrimmedLineSpan | crates/diagnostics/src/source.rs:53-68 | the trimmed span starts and ends on text, drops only whitespace, and is absent exactly for blank lines |
| SourceLines.WhitespaceExactly | crates/diagnostics/src/source.rs:58-61 | the characters trimmed are the five of ASCII whitespace |
| ErrorKind.RuntimeError.WithKind | crates/eldr/src/error.rs:71-75 | a new error reads as the kind it was given |
| ErrorKind.RuntimeError.WithContext | crates/eldr/src/error.rs:64-69 | a replaced context keeps the kind whatever markers it brings, and all other incoming details in order |
| ErrorKind.RuntimeError.RetainSecondaryFailure | crates/eldr/src/error.rs:109-121 | a secondary failure keeps the kind of the primary one and adds its label and exactly its new details |
| ErrorKind.RuntimeError.ReplaceKind | crates/eldr/src/error.rs:123-135 | all markers go, every other detail stays in order, and one marker is appended unless the kind is generic |
| ErrorKind.DetailValueRoundTrip | crates/eldr/src/error.rs:16-37 | the kind strings decode to their kinds |
| ErrorKind.LabelIsNoMarker | crates/eldr/src/error.rs:109-112 | a labelled failure never reads as a marker, whatever the label |
| ErrorKind.RetainKeepsKind | crates/eldr/src/error.rs:113-120 | retained details never change the kind |
| ErrorKind.RetainLosesNothing | crates/eldr/src/error.rs:113-120 | existing details stay in place and every other detail of the secondary failure is kept |
| ErrorKind.RetainExactly | crates/eldr/src/error.rs:113-120 | exactly the unmarked details not yet there are appended, each once and in order |
| ErrorKind.SecondaryAddsFailure | crates/eldr/src/error.rs:109-121 | a labelled message is added if and only if the message or the kind differs, then exactly the new details |
| ErrorKind.SetKindGivesKind | crates/eldr/src/error.rs:97-135 | setting a kind makes the details read as that kind |
| ErrorKind.SetKindReplacesMarkers | crates/eldr/src/error.rs:123-135 | every detail that is no marker is kept, in order and as often; no old marker remains; one marker follows unless the kind is generic |
| ErrorKind.KindOfFirstMarker | crates/eldr/src/error.rs:97-107 | the kind is that of the first marker |
| ErrorKind.KindOfUnmarked | crates/eldr/src/error.rs:97-107 | without a marker the kind is generic |
| ErrorKind.KindSurvivesEveryHistory | crates/eldr/src/error.rs:64-135 | through every history of contexts and secondary failures an error keeps its kind |

## Left out

- SampleBelow: when the number of draws is a multiple of eight, the loop's end is characterised exactly (TerminatesIffClassAccepts) but evaluated for no further classes of states.
- Mix64Bijective: the seeding from a clock, a counter and the process id is host input.
- LineColumnForOffset: lines and columns are unbounded, the original counts them in 32 bits.
- TypeEnv.PopVarScope: serialising an environment while an isolated scope is open, and sharing of metadata between clones, are not modelled.
- Registry.Predeclare: the debug-only assertions that a repeated declaration has the same kind and parameters are not modelled; spans of field types neither.
- FeedBuildKey: the hash itself, directory walking and sorting, non-Unicode values and unreadable files; file and configuration lists arrive already collected and sorted.
- ParseValue: lexing and printing of serde_json and the bytes of the tokens; a document is a tree whose leaves may fail to decode, positions are treated in JsonPosition.
- Normalizer.Normalize: the tree is rebuilt, not rewritten in place; hashing the result is left out.
- Child: layers are values, so reference counting and copy on write of the original are not visible.
- The remaining accessors of the type environment, and rewriting a line at a span: direct uses of a map or of the members above.
- The virtual machine, processes, tasks, the parser, the checker and code generation.
- Regular expressions, text encodings, files, terminals and diagnostics rendering.
