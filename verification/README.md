# rgpot: a Dafny model

rgpot evaluates interatomic potentials: given the positions of some atoms, their atomic numbers and a
periodic cell, a potential returns an energy and a force on every atom. A C++ layer holds the potentials, an optional
RocksDB cache in front of them and a registry of live instances; a Rust core exchanges the data as DLPack tensors
through a C interface and can move a calculation to a server. This project models those parts and proves what they
keep, over all inputs and over whole runs.

`dafny verify dfyconfig.toml` checks everything.

## Files

| file | what it holds |
|---|---|
| `PairSums.dfy`, `Permutations.dfy` | sums over tables of pairs, the half-pair traversal, renumbering |
| `MinimumImage.dfy`, `ForceBuffer.dfy`, `LennardJones.dfy` | the Lennard-Jones loop as imperative code over arrays, against its sums |
| `LennardJonesImages.dfy`, `LennardJonesSymmetry.dfy` | nearest images and the counted pairs; per-atom form, half-box ties, numbering, translations, energy bound |
| `Calculus.dfy`, `LennardJonesGradient.dfy`, `LennardJonesSlopes.dfy` | slopes by quadratic error bounds; exactly when a pair has one; the forces are the negative gradient |
| `Registry.dfy` | the intrusive doubly linked list of live instances |
| `Options.dfy`, `KeyHash.dfy`, `PotentialCache.dfy`, `CachedPotential.dfy`, `CacheRuns.dfy`, `CacheSessions.dfy` | keys, records, the fallible store, cached evaluation, runs, runs of the objects |
| `Tensor.dfy` | strides in 64-bit arithmetic, multi-indices and flat positions |
| `Allocation.dfy`, `Ownership.dfy`, `Provenance.dfy`, `Wrappers.dfy`, `WrapperSessions.dfy` | what the core allocates, who owns it, what wrappers hold through moves, the move-only classes, runs of the objects |
| `Rpc.dfy`, `RemoteLennardJones.dfy` | client, server and trampoline, and Lennard-Jones seen through them |
| `TaskSplit.dfy` | the split of calculations in the MPI script |

Numbers are exact: doubles are reals in the Lennard-Jones, gradient and RPC modules, and strings of eight bytes in the
cache. The square root is a function with `sqrt(s) >= 0` and `sqrt(s) * sqrt(s) == s`; sixth powers are products. Where the C++ code
updates objects or buffers in place the model does too, and each method is tied to a specification function about which the main
results are then proved. A slope m of f at x means a constant k and a neighbourhood of x in which
`f(x + u) - f(x) - m * u` is at most `k * u * u`; `Calculus.SlopeIsUnique` shows that this determines m.

Four results say where a promise fails and exactly when it holds:

- the numbering of the atoms can change forces: `LennardJonesSymmetry.NumberingTheorem` gives the condition, no interacting pair
  with a non-zero force exactly half a box apart, and `NumberingOfTiedPairMatters` a failing input;
- a pair need not have a slope: `LennardJonesSlopes.EntryHasSlopeIff` gives the condition, and with it the force
  is the slope; `TiedPairHasNoSlope` is a failing input;
- the cache can answer wrongly whatever the hash function is, because the four hashes are combined symmetrically:
  `CacheRuns.ExchangeAnswersWrongly` is a failing input, and `CacheRuns.SafeForAllPotentialsIffCollisionFree` the condition on type
  tags and configurations under which no potential can be answered wrongly;
- the implicit copy assignment of a registered instance breaks the list unless it is a self-assignment:
  `Registry.AssignBreaksTheList`.

## Model

| member | source | states |
|---|---|---|
| LennardJones.LJPot.ForceImpl | CppCore/rgpot/LennardJones/LJPot.cc:36-90 | The imperative loop nest: whatever the buffers held before, the energy is the sum over all unordered pairs within the cutoff and each atom ends with its half-pair total; the net force is zero; entries past the last atom are untouched. |
| LennardJones.LJPot.AddPair | CppCore/rgpot/LennardJones/LJPot.cc:57-86 | One pass of the inner loop moves the accumulated state of energy and forces on by exactly one pair, and the forces of all atoms sum to zero after it, ties included. |
| LennardJones.LJPot.AddRow | CppCore/rgpot/LennardJones/LJPot.cc:56-87 | One pass of the outer loop completes row i of the half-pair table. |
| LennardJones.LJPot.AddRows | CppCore/rgpot/LennardJones/LJPot.cc:55-88 | The nested loops complete the whole half-pair table. |
| LennardJones.LJPot.EvaluatePair | CppCore/rgpot/LennardJones/LJPot.cc:57-81 | The test on the distance is the test on the squared distance, and the terms written with sqrt and pow are the pair energy and the pair force in the squared distance. |
| LennardJones.LJPot.PairTerms | CppCore/rgpot/LennardJones/LJPot.cc:70-81 | a, b and dU computed from a positive distance give the 12-6 energy and three force components of the squared distance. |
| LennardJones.LJPot.SourceComponent | CppCore/rgpot/LennardJones/LJPot.cc:79-85 | One component of the force update, as written, is minus the pair force. |
| LennardJones.LJPot.MinimumImageOf | CppCore/rgpot/LennardJones/LJPot.cc:57-64 | Each component of the displacement from atom j to atom i is wrapped with its own diagonal entry of the cell: x with box[0], y with box[4], z with box[8]. |
| LennardJones.LJPot.NearestImage | CppCore/rgpot/LennardJones/LJPot.cc:62-64 | The floor expression is the wrap. |
| LennardJones.LJPot.constructor | CppCore/rgpot/LennardJones/LJPot.hpp:33 | u0, cutoff and psi get their constants; cuttOffU keeps whatever was there. |
| LennardJones.ClearForces | CppCore/rgpot/LennardJones/LJPot.cc:49-53 | All force entries of the atoms become zero, the rest of the buffer stays. |
| LennardJones.SourceTerms | CppCore/rgpot/LennardJones/LJPot.cc:70-73 | With d > 0 and d*d = s the code's a and energy term equal (psi/r)^6 and the shifted pair energy in terms of s alone. |
| LennardJones.SourceForce | CppCore/rgpot/LennardJones/LJPot.cc:75-85 | dU times a component over the distance equals minus the pair force in terms of s alone. |
| LennardJones.TwelveSixLaw | CppCore/rgpot/LennardJones/LJPot.cc:70-85 | The pair energy and force, multiplied out: with q = psi^6 and t = r^6 the energy plus cuttOffU is 4 u0 (q^2 - q t) / t^2, and the force component is 24 u0 (2 q^2 - q t) / t^2 times the component over r^2. |
| ForceBuffer.Exchange | CppCore/rgpot/LennardJones/LJPot.cc:79-85 | The six in-place updates add opposite vectors to atoms i and j and change no other entry. |
| ForceBuffer.NetForceIsZero | CppCore/rgpot/LennardJones/LJPot.cc:49-86 | Whatever the pair tables are, an accumulated buffer sums to zero in each component at every point of the traversal. |
| PairSums.NetIsZero | CppCore/rgpot/LennardJones/LJPot.cc:55-88 | The amounts that a half-pair traversal hands to all atoms cancel after every inner step, for any table. |
| PairSums.PairedAtEnd | CppCore/rgpot/LennardJones/LJPot.cc:55-88 | The step-by-step state of the traversal ends, for each atom, at its row sum less its column sum. |
| PairSums.PairedIsPerAtomLessDefects | CppCore/rgpot/LennardJones/LJPot.cc:55-88 | The half-pair total of an atom is its per-atom sum less the defects of antisymmetry with earlier atoms. |
| MinimumImage.WrapRange | CppCore/rgpot/LennardJones/LJPot.cc:61-64 | For a positive length the wrapped value lies in [-L/2, L/2). |
| MinimumImage.WrapUnique | CppCore/rgpot/LennardJones/LJPot.cc:61-64 | It is the only value congruent to the displacement modulo L in that range. |
| MinimumImage.WrapShift | CppCore/rgpot/LennardJones/LJPot.cc:61-64 | Whole box lengths do not change the wrapped value. |
| MinimumImage.WrapReversed | CppCore/rgpot/LennardJones/LJPot.cc:61-64 | Reversing a displacement reverses its wrapped value, except at exactly half a box, where both wrap to the same value. |
| MinimumImage.WrapIsNearest | CppCore/rgpot/LennardJones/LJPot.cc:61-64 | No whole number of boxes brings a displacement closer to zero than the wrap. |
| MinimumImage.WrapLipschitz | CppCore/rgpot/LennardJones/LJPot.cc:61-64 | The size of the wrapped value changes no more than the displacement does, across jumps too. |
| MinimumImage.WrapLocal | CppCore/rgpot/LennardJones/LJPot.cc:61-64 | Away from a tie the wrap is a translation in a neighbourhood. |
| MinimumImage.TieLocal | CppCore/rgpot/LennardJones/LJPot.cc:61-64 | At a tie the wrap stays on its image to one side and takes the opposite image to the other. |
| LennardJonesImages.SquareIsLeastImage | CppCore/rgpot/LennardJones/LJPot.cc:57-66 | The distance the loop uses is that of a periodic image, at whole multiples of box[0], box[4] and box[8], and no image is closer. |
| LennardJonesImages.CountedIffSomeImageIsClose | CppCore/rgpot/LennardJones/LJPot.cc:61-68 | A pair is counted if and only if some periodic image of it, at whole multiples of box[0], box[4] and box[8], lies at a distance below the cutoff. |
| LennardJonesSymmetry.NearestAcrossY | CppCore/rgpot/LennardJones/LJPot.cc:57-68 | Two atoms 9 apart along y in a 10 by 10 by 30 cell are 1 apart: the wrap of y uses the y length. |
| LennardJonesSymmetry.ForcesAcrossY | CppCore/rgpot/LennardJones/LJPot.cc:57-88 | Their energy and forces as numbers: u0 = psi = 1 gives -cuttOffU and +24 and -24 along y, pushing the atoms apart across the cell wall. |
| LennardJonesSymmetry.ForceIsPerAtomLessDefects | CppCore/rgpot/LennardJones/LJPot.cc:55-88 | For every configuration, ties included, the computed force is the sum over all other atoms less the defects with earlier atoms. |
| LennardJonesSymmetry.DefectOfPair | CppCore/rgpot/LennardJones/LJPot.cc:61-85 | The two forces of a pair fail to cancel exactly at an active half-box tie, by the pair force over a whole box length. |
| LennardJonesSymmetry.ForceIsPerAtom | CppCore/rgpot/LennardJones/LJPot.cc:55-88 | Without active ties the force on each atom is the sum over all other atoms of the pair force seen from that atom. |
| LennardJonesSymmetry.ForceScaleZero | CppCore/rgpot/LennardJones/LJPot.cc:70-75 | A pair exerts no force exactly when u0 is zero, psi is zero or a is 1/2. |
| LennardJonesSymmetry.EnergyOfRenumbering | CppCore/rgpot/LennardJones/LJPot.cc:55-73 | The energy is the same for every numbering of the atoms, ties included. |
| LennardJonesSymmetry.NumberingTheorem | CppCore/rgpot/LennardJones/LJPot.cc:55-88 | Every renumbering permutes the forces along a direction if and only if no interacting pair with a non-zero force is exactly half a box apart in that direction. |
| LennardJonesSymmetry.TieBreaksNumbering | CppCore/rgpot/LennardJones/LJPot.cc:61-85 | An active tie gives a concrete renumbering under which a force changes. |
| LennardJonesSymmetry.NumberingOfTiedPairMatters | CppCore/rgpot/LennardJones/LJPot.cc:61-85 | Concrete failure: two atoms at x = 0 and 2 in a cube of length 4, with the constants of the constructor. |
| LennardJonesSymmetry.MovedTheorem | CppCore/rgpot/LennardJones/LJPot.cc:57-88 | Moving every atom by its own whole multiples of box[0], box[4] and box[8] along x, y and z, and all atoms by a common vector, changes neither the energy nor any force. |
| LennardJonesSymmetry.EnergyBound | CppCore/rgpot/LennardJones/LJPot.cc:55-73 | For u0 >= 0 the energy is at least -(u0 + cuttOffU) times the number of interacting pairs, which is at most N(N-1)/2; for u0 > 0 it is reached exactly when a = 1/2 for every interacting pair. |
| LennardJonesSymmetry.BottomIsForceFree | CppCore/rgpot/LennardJones/LJPot.cc:70-85 | If a = 1/2 for every interacting pair all forces vanish. |
| PairSums.HalfSumNonNegative | CppCore/rgpot/LennardJones/LJPot.cc:55-73 | A half table of non-negative entries sums to zero only if every entry is zero. |
| Permutations.PerAtomRenumbered | CppCore/rgpot/LennardJones/LJPot.cc:55-88 | The per-atom sum of a renumbered table is that of the original atom. |
| Permutations.HalfSumRenumbered | CppCore/rgpot/LennardJones/LJPot.cc:55-88 | The sum of a symmetric table over unordered pairs does not depend on the numbering. |
| LennardJonesSlopes.ForceIsNegativeGradient | CppCore/rgpot/LennardJones/LJPot.cc:55-88 | For every N, atom and coordinate: if every pair with that atom has a slope along it, and interacting pairs are apart, the energy as a function of that coordinate has slope minus the computed force. |
| LennardJonesSlopes.EntryHasSlopeIff | CppCore/rgpot/LennardJones/LJPot.cc:57-86 | For a pair and a coordinate of one of its atoms, m is the slope of the pair's energy if and only if the pair is smooth and m is minus the force that the loop hands to the atom. Smooth: no force at a half-box tie inside the cutoff; at the cutoff either no component or neither energy nor force. |
| LennardJonesSlopes.TiedPairHasNoSlope | CppCore/rgpot/LennardJones/LJPot.cc:57-86 | Concrete failure: the energy of two atoms half a box apart has no slope along that direction. |
| LennardJonesSlopes.PairSlopeIff | CppCore/rgpot/LennardJones/LJPot.cc:61-81 | The same for any function that is the energy of one pair, with wrap and cutoff test. |
| LennardJonesSlopes.WrapSides | CppCore/rgpot/LennardJones/LJPot.cc:61-64 | To each side of a coordinate the wrapped component is carried on from one image; at a tie the two images are opposite. |
| LennardJonesSlopes.CutoffSide | CppCore/rgpot/LennardJones/LJPot.cc:66-68 | From exactly the cutoff a pair comes inside on the side towards which its component shrinks, and on no other. |
| LennardJonesGradient.PairGradient | CppCore/rgpot/LennardJones/LJPot.cc:70-81 | The pair energy along one component of the displacement has slope minus the pair force. |
| LennardJonesGradient.CutoffIsLocal | CppCore/rgpot/LennardJones/LJPot.cc:66-68 | Off the cutoff the test gives the same answer in a whole neighbourhood of the displacement, across wraps. |
| LennardJonesGradient.HalfSlope | CppCore/rgpot/LennardJones/LJPot.cc:55-73 | Slopes of all entries add up along the traversal to the slope of the total. |
| LennardJonesSlopes.SlopesAddUp | CppCore/rgpot/LennardJones/LJPot.cc:79-85 | The slopes of all pairs with an atom add up to minus what the loop collects for it. |
| Calculus.SlopeIsUnique | CppCore/rgpot/LennardJones/LJPot.cc:75-78 | A function has at most one slope at a point, so the gradient statement pins the force down. |
| Calculus.SlopeFromSides | CppCore/rgpot/LennardJones/LJPot.cc:61-68 | A function put together at a point from two others has a slope there exactly when values and slopes agree. |
| Calculus.SlopeOfProduct | CppCore/rgpot/LennardJones/LJPot.cc:70-75 | Product rule, with an explicit quadratic error bound. |
| Calculus.SlopeOfReciprocal | CppCore/rgpot/LennardJones/LJPot.cc:70-75 | Reciprocal rule at a positive value. |
| Registry.Instance.constructor | CppCore/rgpot/PotHelpers.hpp:36-44 | Prepends the new instance to the list of live instances and keeps the list well formed. |
| Registry.Instance.Copy | CppCore/rgpot/PotHelpers.hpp:50-58 | A copy is a new instance at the head; the list stays well formed. |
| Registry.Instance.Destroy | CppCore/rgpot/PotHelpers.hpp:63-74 | Unlinks exactly this instance wherever it is and keeps the order of the others. |
| Registry.Statics.IncrementForceCalls | CppCore/rgpot/PotHelpers.hpp:81 | The counter grows by one and nothing else changes. |
| Registry.HeadReachesLive | CppCore/rgpot/PotHelpers.hpp:26-44 | Following next from head meets the live instances, each once, whatever other instances exist; their number is count and head.prev is null. |
| Registry.TailReachesLiveReversed | CppCore/rgpot/PotHelpers.hpp:29-30 | Following prev from the tail meets the live instances in the opposite order. |
| Registry.LinksAreInverse | CppCore/rgpot/PotHelpers.hpp:36-74 | next and prev are mutual inverses on the live instances. |
| Registry.Drive | CppCore/rgpot/PotHelpers.hpp:36-74 | Every run of constructions, copies and destructions in any order keeps the list well formed and follows the abstract sequence; count is the number of live instances. |
| Registry.LiveNewestFirst | CppCore/rgpot/PotHelpers.hpp:36-74 | After every run the list is in order of construction, newest first, and holds exactly the instances never destroyed. |
| Registry.OrderOfDestructionIrrelevant | CppCore/rgpot/PotHelpers.hpp:63-74 | Runs with as many constructions and the same destructions leave the same list, in whatever order they destroy. |
| Registry.AssignBreaksTheList | CppCore/rgpot/PotHelpers.hpp:24-58 | The implicit copy assignment leaves a list that some arrangement of the live instances can explain if and only if it assigns an instance to itself. |
| KeyHash.DecimalRoundTrip | CppCore/rgpot/PotentialCache.hpp:32 | Reading the decimal digits of a number back gives the number. |
| KeyHash.KeyIsTheNumeral | CppCore/rgpot/PotentialCache.hpp:24-32 | Of all decimal numerals without leading zeros the key is the one whose value is the hash, and no other. |
| KeyHash.SameKeyIffSameHash | CppCore/rgpot/PotentialCache.hpp:32 | Two key strings are equal if and only if the 64-bit hashes are. |
| PotentialCache.PackedRoundTrip | CppCore/rgpot/PotentialCache.cc:78-109 | A record is long enough for m force components exactly when m were packed; energy and forces are read back unchanged. |
| PotentialCache.RecordLayout | CppCore/rgpot/PotentialCache.cc:98-107 | Byte by byte: the energy fills the first eight bytes, force component k the eight bytes from 8 + 8k, and nothing follows. |
| PotentialCache.CopyInto | CppCore/rgpot/PotentialCache.cc:102-105 | memcpy replaces exactly the addressed range. |
| PotentialCache.Cache.DeserializeHit | CppCore/rgpot/PotentialCache.cc:78-83 | Energy and forces are the leading doubles of the record, read inside it. |
| PotentialCache.Cache.AddSerialized | CppCore/rgpot/PotentialCache.cc:93-109 | Files the packed record under the key, or leaves an unreliable store as it was; without a store nothing happens. |
| PotentialCache.Cache.Find | CppCore/rgpot/PotentialCache.cc:118-127 | A hit is what the store holds under the key; a reliable store hits exactly the keys it holds. |
| PotentialCache.Cache.SetDb | CppCore/rgpot/PotentialCache.cc:63-68 | Closes an owned store, leaves a borrowed one open, and borrows the new one; the cache stays usable unless it is handed the store that it owned. |
| PotentialCache.Cache.Destroy | CppCore/rgpot/PotentialCache.cc:46-50 | Closes the store exactly if the cache owns it. |
| PotentialCache.Cache.Open | CppCore/rgpot/PotentialCache.cc:27-39 | The cache owns the store exactly if opening succeeded. |
| PotentialCache.Store.Get | CppCore/rgpot/PotentialCache.cc:118-127 | A successful read returns what is filed under the key; only a reliable store has to succeed. |
| PotentialCache.Store.Put | CppCore/rgpot/PotentialCache.cc:108 | The record is filed, or, in an unreliable store, nothing happens. |
| CachedPotential.Potential.FlattenBox | CppCore/rgpot/Potential.hpp:129-134 | The nested loops lay the cell out row by row: entry 3 r + c is entry c of row r. |
| CachedPotential.Potential.HashBuffers | CppCore/rgpot/Potential.hpp:144-149 | The value that is hashed up is the exclusive or of the hashes of positions, atomic numbers, cell and type tag. |
| CachedPotential.Potential.ForceImpl | CppCore/rgpot/Potential.hpp:185 | Fills the force matrix in place with what the potential computes, or throws. |
| CachedPotential.Potential.MakeKey | CppCore/rgpot/Potential.hpp:144-151 | The key is that of the configuration and the type, of which the four KeyFollows lemmas say how it depends on each component. |
| CachedPotential.KeyFollowsPositions | CppCore/rgpot/Potential.hpp:144-151 | For every hash function: queries that differ only in their positions share a key if and only if the hashes of the position bytes agree. |
| CachedPotential.KeyFollowsNumbers | CppCore/rgpot/Potential.hpp:144-151 | The same for queries that differ only in their atomic numbers. |
| CachedPotential.KeyFollowsBox | CppCore/rgpot/Potential.hpp:144-151 | The same for queries that differ only in their cell. |
| CachedPotential.KeyFollowsKind | CppCore/rgpot/Potential.hpp:144-151 | The same for queries that differ only in the type of the potential. |
| CachedPotential.Potential.CallUnder | CppCore/rgpot/Potential.hpp:153-169 | Result, store and counter after a call are those of one abstract evaluation, undefined exactly for a hit that is too short; a reliable store never misbehaves. |
| CachedPotential.Potential.Call | CppCore/rgpot/Potential.hpp:121-177 | operator() as a whole is one abstract evaluation of the configuration with these positions, as many types as rows and cell[3 r + c] = box[r][c]: either the stored record is read back, with store and counter as before, or the answer is what forceImpl computes, and then, unless it threw, the counter grows by one and the record is filed. When it throws neither store nor counter changed. |
| CachedPotential.DescribedOnce | CppCore/rgpot/Potential.hpp:129-139 | The arguments of operator() describe exactly one configuration. |
| CachedPotential.EvaluationSeen | CppCore/rgpot/Potential.hpp:153-169 | What one abstract evaluation does, seen from outside: read from the store with nothing changed, or computed, counted once unless it threw, and filed. |
| CachedPotential.Potential.SetCache | CppCore/rgpot/Potential.hpp:101 | Later calls use the given cache. |
| CachedPotential.ExchangeCollides | CppCore/rgpot/Potential.hpp:144-149 | Whatever the hash function, three atoms and their cell can change places without changing the key. |
| CachedPotential.EqualBuffersCollide | CppCore/rgpot/Potential.hpp:144-149 | Whatever the hash function, all three-atom configurations whose positions equal their cell share a key. |
| CacheRuns.Transparency | CppCore/rgpot/Potential.hpp:153-169 | For any run over any potentials, stores, attachments and failures: if equal keys want equal results and the stores start sound, every evaluation returns its own result and the stores stay sound. |
| CacheRuns.CacheIsTransparent | CppCore/rgpot/Potential.hpp:121-177 | With collision-free whole keys and one function for each type tag, every call of every run gives exactly what forceImpl gives; for any way of making keys. |
| CacheRuns.TransparentIffFirstComeServesAll | CppCore/rgpot/Potential.hpp:153-169 | From an empty reliable store all evaluations return their own results if and only if the first result filed under each key reads back as every later result wanted under it. |
| CacheRuns.SafeForAllPotentialsIffCollisionFree | CppCore/rgpot/Potential.hpp:144-169 | Known before any call: whatever potentials with given type tags compute, every call of a run through one empty reliable store gives what forceImpl gives, if and only if no two different queries of the run share a key. |
| CacheRuns.ExchangeAnswersFirst | CppCore/rgpot/Potential.hpp:144-158 | Whatever the hash function, after three atoms the exchanged buffers get the first configuration's answer. |
| CacheRuns.ExchangeAnswersWrongly | CppCore/rgpot/Potential.hpp:144-158 | Concrete failure for every hash function: a valid potential and three atoms for which the second call does not return its own result. |
| CacheRuns.NextKeepsSound | CppCore/rgpot/Potential.hpp:153-169 | One evaluation or attachment keeps every store sound, whatever fails. |
| CacheRuns.CallsAreComputations | CppCore/rgpot/Potential.hpp:153-169 | For every run, with any or no stores and any faults: forceCalls grows by exactly the number of evaluations that were neither answered from a store nor threw. |
| CacheRuns.WorkIsNewKeys | CppCore/rgpot/Potential.hpp:161-169 | With a reliable store each wanted key that is not stored costs one counted evaluation, once. |
| CacheRuns.WorkIsDistinctKeys | CppCore/rgpot/Potential.hpp:161-169 | From an empty reliable store forceCalls grows by the number of distinct keys of evaluations that do not throw. |
| CacheRuns.WorkIsDistinctConfigs | CppCore/rgpot/Potential.hpp:161-169 | With collision-free keys that is the number of distinct configurations evaluated for each type. |
| CacheSessions.Open | CppCore/rgpot/Potential.hpp:101 | Stores, caches that borrow them, and potentials without caches represent the empty world. |
| CacheSessions.Session.Ask | CppCore/rgpot/Potential.hpp:121-177 | A call on the objects is the abstract evaluation under some faults, and no other store changes. |
| CacheSessions.Session.Drive | CppCore/rgpot/Potential.hpp:101-177 | Every run of calls and set_cache on potential, cache and store objects is a run of the worlds, under some faults. |
| CacheSessions.Session.DriveTransparently | CppCore/rgpot/Potential.hpp:101-177 | With collision-free keys, one function for each tag and sound stores, every call on the objects returns what forceImpl gives for the configuration that its arguments describe, whatever the stores fail to do, and no record is copied past its end. |
| Tensor.ComputeRowMajorStrides | rgpot-core/src/tensor.rs:26-36 | The reverse loop gives every stride as the product of the later extents in wrapping 64-bit arithmetic, for every shape. |
| Tensor.ComputedStridesAreExact | rgpot-core/src/tensor.rs:26-36 | While the number of elements fits in 63 bits no stride wraps. |
| Tensor.WrapOfProduct | rgpot-core/src/tensor.rs:33 | Wrapping a factor first does not change a wrapped product. |
| Tensor.OffsetOfIndex | rgpot-core/src/tensor.rs:26-36 | Every flat position is the offset of its multi-index, which lies in the shape. |
| Tensor.IndexOfOffset | rgpot-core/src/tensor.rs:26-36 | Every multi-index in the shape has an offset inside the buffer that determines it. |
| Tensor.ComponentByDivision | rgpot-core/src/tensor.rs:26-36 | Component i of a multi-index is the offset divided by stride i, modulo extent i. |
| Tensor.FlatReadsAreStrided | rgpot-core/src/rpc/client.rs:153-188 | Reading a buffer front to back meets the elements in the order of their multi-indices, each once. |
| Tensor.RowsOfThree | rgpot-core/src/tensor.rs:95-127 | In an n by 3 tensor element (i, c) is flat element 3i + c. |
| Tensor.ForcesData | include/rgpot/types.hpp:193-204 | The product loop gives the number of elements modulo 2^64, and exactly that number for every tensor that fits. |
| Allocation.FreeTensorIsSane | rgpot-core/src/tensor.rs:80-89 | Freeing a live tensor frees its own data if it owns some and no borrowed buffer, and keeps the books. |
| Allocation.FreeImplIsSane | rgpot-core/src/potential.rs:91-99 | Dropping a live handle releases its user data once if it owns some. |
| Wrappers.Core.TensorFree | rgpot-core/src/tensor.rs:394-401 | No-op on null, otherwise the deleter of the tensor. |
| Wrappers.Core.TensorCpu | rgpot-core/src/tensor.rs:95-127 | The address is not null and was not live; the table gains this tensor, borrowed from the buffer, and nothing else changes. |
| Wrappers.Core.TensorOwnedCpu | rgpot-core/src/tensor.rs:376-384 | Tensor and copied buffer have addresses that were not live; the tensor owns the copy, and nothing else changes. |
| Wrappers.Core.PotentialNew | rgpot-core/src/c_api/potential.rs:46-53 | The address is not null and was not live; the handle will release its user data exactly if it has some and a free_fn. |
| Wrappers.Core.PotentialFree | rgpot-core/src/c_api/potential.rs:94-98 | No-op on null, otherwise the handle is dropped and its user data released. |
| Wrappers.InputSpec.constructor | rgpot-core/src/c_api/types.rs:32-43 | Three tensors at addresses that were not live are held; the first borrows the position buffer, the second the atomic numbers, the third the cell. |
| Wrappers.InputSpec.FreeInput | rgpot-core/src/c_api/types.rs:59-72 | Frees the three tensors and nulls the fields. |
| Wrappers.InputSpec.Move | include/rgpot/types.hpp:86-91 | The new object holds what the other held; the other is emptied. |
| Wrappers.InputSpec.MoveAssign | include/rgpot/types.hpp:92-102 | Frees what was held, takes over the other and empties it; self-assignment does nothing. |
| Wrappers.InputSpec.Destroy | include/rgpot/types.hpp:83 | Frees exactly what the object holds. |
| Wrappers.CalcResult.constructor | include/rgpot/types.hpp:141 | A result with null forces and zero scalars. |
| Wrappers.CalcResult.Move | include/rgpot/types.hpp:150-152 | The new object holds the forces; the other keeps only its scalars. |
| Wrappers.CalcResult.MoveAssign | include/rgpot/types.hpp:153-162 | Frees the old forces, takes over the others; self-assignment does nothing. |
| Wrappers.CalcResult.Destroy | include/rgpot/types.hpp:143-147 | Frees the forces if there are any. |
| Wrappers.PotentialHandle.constructor | include/rgpot/potential.hpp:167-173 | A fresh potential around this user data, adopted; nothing else changes. |
| Wrappers.PotentialHandle.Move | include/rgpot/potential.hpp:87-89 | The new handle owns the potential; the other is null. |
| Wrappers.PotentialHandle.MoveAssign | include/rgpot/potential.hpp:96-105 | Frees the old potential, takes over the other; self-assignment does nothing. |
| Wrappers.PotentialHandle.Destroy | include/rgpot/potential.hpp:77-81 | Frees the potential if there is one. |
| Wrappers.PotentialHandle.RunCallback | rgpot-core/src/c_api/potential.rs:65-87 | An error on a null handle, otherwise what the callback does: the output holds the energy and the variance that it reported, and forces, owned, exactly if it set them. |
| Wrappers.PotentialHandle.Calculate | include/rgpot/potential.hpp:121-127 | Success returns a result with the energy and the variance that the callback reported, which owns the forces exactly if the callback set them; the exception path frees forces that a failing callback set. |
| Ownership.StepKeepsInv | include/rgpot/types.hpp:83-162 | Every operation, self-move included, keeps: nothing freed that is not live, each live tensor and handle held in exactly one place, callers' buffers live. |
| Ownership.CalculateKeepsInv | include/rgpot/potential.hpp:121-127 | Whatever the callback does; after a failure only addresses have been used up. |
| Ownership.EveryRunIsSafe | include/rgpot/potential.hpp:77-127 | The invariant holds after every run of creating, moving, assigning, calculating and destroying. |
| Ownership.NothingLeftBehind | include/rgpot/potential.hpp:77-127 | Once all wrappers are gone no tensor, handle or copy is live, all callers' buffers are, and each handle with a free_fn and non-null user data released it exactly once. |
| Provenance.EveryWrapperIsTraced | include/rgpot/types.hpp:64-162 | After every run each wrapper holds what the operation it traces back to made, through any number of moves: an input borrows the three buffers it was given, in their places; a result has the energy and variance its callback reported, and owns forces exactly if they were set; a handle refers to its user data; what was moved from has null pointers and its old numbers. |
| WrapperSessions.Session.Perform | include/rgpot/types.hpp:64-162 | Each operation on the objects, self-move included, is the abstract step. |
| WrapperSessions.Drive | include/rgpot/potential.hpp:62-179 | Every run on InputSpec, CalcResult and PotentialHandle objects follows the abstract run, so nothing is freed that is not live, each object holds what the operation it traces back to made, and once all objects are gone only the callers' buffers are left. |
| Rpc.BuildRequest | rgpot-core/src/rpc/client.rs:63-112 | A request is made exactly if the number of atoms is known and all three tensors are present and on the CPU; it holds the leading 3n positions, n numbers and 9 cell entries. |
| Rpc.WhatExtractReports | rgpot-core/src/rpc/client.rs:153-188 | Which error is reported when several things are missing: positions before numbers before cell, absence before device. |
| Rpc.Receive | rgpot-core/src/rpc/client.rs:115-145 | No reply and a failure give an error and leave the output alone; an answer overwrites the energy, and exactly if it has 3n forces also the forces, with success; the variance is never touched. |
| Rpc.Unpack | rgpot-core/src/rpc/server.rs:54-70 | The server's tensors are on the CPU and hold exactly the three lists of the request, with shapes n by 3, n and 3 by 3. |
| Rpc.FreeAll | rgpot-core/src/rpc/server.rs:88-95 | Freeing the four tensors restores what the core had allocated before the call. |
| Rpc.PotentialServer.Calculate | rgpot-core/src/rpc/server.rs:41-113 | For any request, malformed ones included, the reply is a failure if the callback fails and otherwise its energy with the leading 3n forces; on every path all tensors are freed: the core is as before but for used addresses. |
| Rpc.ServedTensors | rgpot-core/src/rpc/server.rs:60-95 | The tensors that one call allocates are all freed, whether or not the callback sets forces. |
| Rpc.RemoteCall | rgpot-core/src/rpc/client.rs:58-146 | Success only if the network delivered both messages and a request could be built, else an error with energy, forces and variance as before; when delivered, success and output relate to the local callback as in RemoteRefinesLocal; and no tensor is left behind on the server. |
| Rpc.RemoteRefinesLocal | rgpot-core/src/rpc/client.rs:63-145 | For every complete CPU input the client succeeds exactly when the callback would locally and set forces or n = 0; then energy and 3n forces are the local ones and the variance is kept; otherwise forces are untouched and the energy is overwritten only if the callback succeeded. |
| Rpc.TrampolineCallback | include/rgpot/potential.hpp:203-250 | Unreadable tensors and a potential that throws give an error and leave the output alone; otherwise the output has the energy and variance that the potential computes for the n atoms read and its forces as an n by 3 CPU tensor. |
| Rpc.TrampolineIsACallback | include/rgpot/potential.hpp:203-250 | The trampoline depends only on the contents of the tensors and sizes its forces. |
| Rpc.RemoteTrampoline | include/rgpot/potential.hpp:202-250 | Behind the server a C++ potential gives the client exactly the local output but for the variance, unless it throws. |
| RemoteLennardJones.RunForceImpl | include/rgpot/potential.hpp:231-238 | Running the Lennard-Jones loop on the trampoline's zeroed buffer gives the energy and the flat force rows. |
| RemoteLennardJones.ClientSeesLennardJones | include/rgpot/potential.hpp:202-250 | For every proper configuration the client obtains the Lennard-Jones energy, and at DLPack index (k, c) the Lennard-Jones force. |
| TaskSplit.SplitTasks | CppCore/rgpot/rpc/py_mpi_comp.py:165-167 | One strided chunk for each rank. |
| TaskSplit.TaskIsInChunk | CppCore/rgpot/rpc/py_mpi_comp.py:165-167 | Task k is on rank k mod size at position k div size. |
| TaskSplit.ChunkHoldsTask | CppCore/rgpot/rpc/py_mpi_comp.py:165-167 | A chunk position holds the one task with that rank and position and no other, so the chunks partition the tasks. |
| TaskSplit.ChunksBalanced | CppCore/rgpot/rpc/py_mpi_comp.py:165-167 | Chunk lengths never increase with the rank and differ by at most one. |
| TaskSplit.LocalResults | CppCore/rgpot/rpc/py_mpi_comp.py:186-188 | One rank's dictionary is that of its chunk. |
| TaskSplit.MergeResults | CppCore/rgpot/rpc/py_mpi_comp.py:197-200 | The merged dictionary has the keys of all dictionaries and for each a value of one of them. |
| TaskSplit.ParallelResults | CppCore/rgpot/rpc/py_mpi_comp.py:183-200 | With distinct names scatter, compute, gather and merge give the dictionary of a sequential computation. |
| TaskSplit.AssignHosts | CppCore/rgpot/rpc/py_mpi_comp.py:92-97 | Structure k goes to host k mod the number of hosts; each of several distinct hosts is sent its strided chunk, in order. |
| TaskSplit.RoundRobinIsStrided | CppCore/rgpot/rpc/py_mpi_comp.py:92-97 | Round-robin gives each host the same tasks in the same order as the strided chunk of that rank. |

## Left out

- Floating-point rounding, NaN and overflow of doubles: the Lennard-Jones statements are about real numbers.
- `cuttOffU` is never set by the constructor of `LJPot`: it is an arbitrary fixed real here, and no continuity at the cutoff is claimed.
- The loop counters of `forceImpl` are 32-bit integers in the source and unbounded here; the source computes the index 3i in them, so configurations from about 2^31/3 atoms on are not modelled. Positions and cell are immutable sequences, so the force buffer cannot alias them.
- The Lennard-Jones model asks for non-zero lengths on the cell diagonal and for no two interacting atoms at distance zero, where the source would divide by zero. Off-diagonal cell entries are ignored, as in the source.
- LennardJonesSlopes.ForceIsNegativeGradient: is about atoms all of whose pairs have a slope; pairs that have none could cancel each other in the sum, which is not decided here.
- The registry's static count is unbounded here. Copy assignment of potentials is excluded from runs, for the reason proved; concurrent use of the static members is not modelled.
- RocksDB is a map whose reads may fail and whose writes may be lost; its options, files and status values are left out. A write that reports an error is either done or not done. XXH3 is an arbitrary function from bytes to 64 bits.
- Copying a cache is excluded: two copies would close an owned store twice.
- CachedPotential.Potential.Call: ends in an undefined outcome where the source copies past the end of a record that is too short; `CacheSessions` proves that runs with collision-free keys never do. What the source then reads is not modelled.
- The world of CacheRuns counts the force evaluations of all potential classes of a run together, where the source has one counter for each class; the sessions of CacheSessions hold potentials of one class.
- `forceImpl` of a cached potential is a deterministic function that throws or fills the whole force matrix.
- Tensor.ComputeRowMajorStrides: wraps on overflow as a release build does; a debug build would stop. The number of dimensions is not limited to 32 bits.
- Addresses of the core are never reused in `Allocation`, and allocation never fails. The wrappers are single-threaded. A callback is assumed to set the forces at most once and only to a tensor that it hands over.
- Contents of tensors are followed in `Tensor` and `Rpc`, their lifetimes in `Allocation` and `Ownership`; `Rpc.PotentialServer.Calculate` is the one place where both meet.
- Sockets, tokio, the Cap'n Proto library, its message size limits and accept loops: the network is a function from requests to replies that may also fail. List lengths are not truncated to 32 bits.
- Rpc.PotentialServer.Calculate: requires that a callback which sets forces sets 3n of them, since the server reads that many without looking. A callback is a function of the tensors it is given, whose buffers are shorter than their shapes when the request was malformed; what C code reads past their end is not modelled.
- Rpc.RemoteRefinesLocal: is about callbacks that depend only on the n atoms and the cell, not on devices, strides or memory past the end, and whose forces hold 3n values on the CPU.
- The species check and the Fortran code behind the CuH2 potential, the geometry helpers beside it, the matrix, Eigen, xtensor and Cap'n Proto adapters, the C++ server, error messages and panic catching: easy members or code that is not part of this model.
- In the MPI script only the distribution of tasks is modelled; the calculations are functions of the atoms, and timing and plotting are left out.
