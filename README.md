# mathopt-java core, modelled in Dafny

This project models the optimisation core of the Java library mathopt-java
(package `jp.ohtayo.mathopt`), and proves properties of that model:

- **Rank**: Pareto dominance and its variants, which are
  - the plain rule;
  - the epsilon rule;
  - the alpha rule;
  - the dispatcher over those three;
  - the rules with one constraint and with an array of constraints.

  Rank also covers Fleming ranking with and without constraints,
  `rankIndex`, `calculateBorderRank`, and the crowding distance
  `calculateDistance` with its `minIndex`.
- **Particle, Swarm, Individual (real-coded and binary), Population**:
  classes whose fields the operations update in place. Each has its
  constructors, copy operations, row getters and setters, `add` and `picup`.
  - The binary individual also has its coding and decoding of variables to
    and from integer chromosomes.
- **PSO and OPSO**: the single-objective swarm optimisers. This covers their
  velocity and position update, non-uniform mutation, global-best update,
  evaluation, and OPSO's random coefficients.
- **MOPSO, MOPSOMultiThreadConstrain and OMOPSOMultiThreadConstraint**: the
  multi-objective swarm optimisers. This covers the update towards a leader
  drawn from the best-ranked archive members, the three-group mutation, the
  evaluation, and the archive selection. That selection keeps the better
  ranks and fills the border rank by descending crowding distance.
- **SimpleGeneticAlgorithm and JGGUNDX**: uniform bit-mask crossover on 32-bit
  chromosomes, bit mutation, elite selection and roulette selection.
- **ConfigMOPSO, ConfigGA and ConfigPSO**: the input validators.

Java `double` is modelled as `real` and Java `int` as `int`, with the 32-bit
wrap-around written out where the code depends on it (the bit operations
of crossover). Random draws, the objective function's answers and
`Math.sqrt(iterate + 1)` are parameters. Every module is one Java class, and
`Commons` holds the behaviour of the unseen helper library (`Numeric`,
`Vector`, `Matrix`, `Cast`, `System.arraycopy`), fixed by definition.

## Model

| member | source | states |
|---|---|---|
| Rank.Dominated | src/jp/ohtayo/mathopt/core/Rank.java:143-154 | basis dominates target exactly when basis is nowhere greater than target, objective by objective |
| Rank.DominatedEpsilon | src/jp/ohtayo/mathopt/core/Rank.java:165-177 | basis epsilon-dominates target exactly when basis shrunk by the factor (1 - epsilon) is nowhere greater than target |
| Rank.Diff | src/jp/ohtayo/mathopt/core/Rank.java:190-191 | the difference vector has one entry per objective, basis minus target |
| Rank.CountWinsExtremes | src/jp/ohtayo/mathopt/core/Rank.java:193-209 | the count of objectives the target wins is 0 exactly when it wins none, and full exactly when it wins all (the two early returns) |
| Rank.LoseSquares | src/jp/ohtayo/mathopt/core/Rank.java:242-246 | the sum of squared differences over the lost objectives is never negative |
| Rank.SquaredComparison | src/jp/ohtayo/mathopt/core/Rank.java:247 | for t >= 0, the test abs(sqrt(t) * alpha) < abs(x) holds exactly when alpha^2 * t < x^2, so the model's square-free test is the code's test |
| Rank.NoWinOutweighs | src/jp/ohtayo/mathopt/core/Rank.java:226-252 | the loop over won objectives returns true exactly when no won objective outweighs alpha times the size of the losses |
| Rank.DominatedAlphaMeaning | src/jp/ohtayo/mathopt/core/Rank.java:188-254 | with the losses taken over the objectives the target does not win, basis alpha-dominates target exactly when the target does not win everywhere and no won difference exceeds alpha times the Euclidean size of the losses |
| Rank.WinIndices | src/jp/ohtayo/mathopt/core/Rank.java:213-224 | winIndex lists, in ascending order, exactly the objectives the target wins, and nothing else |
| Rank.Others | src/jp/ohtayo/mathopt/core/Rank.java:230-239 | the indices the loseIndex loop visits are all the objectives except the current won one |
| Rank.FillLoseFits | src/jp/ohtayo/mathopt/core/Rank.java:230-239 | when the array has room for every other index, the loseIndex fill lists exactly those indices |
| Rank.FillLoseOverflows | src/jp/ohtayo/mathopt/core/Rank.java:230-239 | when the array is shorter than the number of other indices, the fill writes past its end, which throws in Java |
| Rank.AlphaAsWrittenOverflows | src/jp/ohtayo/mathopt/core/Rank.java:230-236 | dominatedAlpha as written throws whenever the target wins at least two objectives but not all of them |
| Rank.AlphaAsWrittenAgrees | src/jp/ohtayo/mathopt/core/Rank.java:188-254 | whenever the target wins at most one objective or all of them, dominatedAlpha as written returns, and it returns the corrected rule's value |
| Rank.AlphaSingleWin | src/jp/ohtayo/mathopt/core/Rank.java:226-252 | with exactly one won objective, the as-written loop runs once over every other objective and decides as the corrected test |
| Rank.SingleWinFill | src/jp/ohtayo/mathopt/core/Rank.java:230-247 | with a single won objective, loseIndex lists all other objectives and their squares are exactly the losing squares |
| Rank.AlphaOverflowExample | src/jp/ohtayo/mathopt/core/Rank.java:230-236 | a concrete input ([1,1,0] against [0,0,1], alpha 0.5) on which dominatedAlpha throws, while the corrected rule answers false |
| Rank.DominatedRelaxedMeaning | src/jp/ohtayo/mathopt/core/Rank.java:28-42 | the dispatcher applies the alpha rule when alpha > 0, otherwise the epsilon rule when epsilon > 0, otherwise the plain rule; each case is stated as its meaning |
| Rank.RelaxedAsWrittenReturns | src/jp/ohtayo/mathopt/core/Rank.java:28-42 | the dispatcher as written fails exactly on the comparisons where the alpha rule overflows; on all others it returns the corrected rule's value |
| Rank.SelfDominance | src/jp/ohtayo/mathopt/core/Rank.java:143-254 | a vector always dominates itself under the plain rule, and under the alpha rule when it has an objective; under the epsilon rule it dominates itself exactly when no objective is negative |
| Rank.DominatedTransitive | src/jp/ohtayo/mathopt/core/Rank.java:143-154 | the plain rule is transitive |
| Rank.DominatedScalarConstraint | src/jp/ohtayo/mathopt/core/Rank.java:58-75 | one constraint value each (NaN as None). If both solutions are infeasible, the smaller violation dominates. If only the basis is feasible, it dominates; if only the target is feasible, the basis does not. Otherwise, NaN included, the objectives decide |
| Rank.InfeasiblePairOrdered | src/jp/ohtayo/mathopt/core/Rank.java:58-63 | of two infeasible solutions, one always dominates the other |
| Rank.CountNonzero | src/jp/ohtayo/mathopt/core/Rank.java:113-120 | the count of nonzero constraint entries is zero exactly when every entry is zero |
| Rank.DominatedConstrainedAsWritten | src/jp/ohtayo/mathopt/core/Rank.java:93-134 | the array overload as the code runs it. One constraint gives the scalar rule. With two or more, the solution with more nonzero entries dominates and the one with fewer does not. Otherwise it falls through to the objectives (FallsThrough) |
| Rank.ConstrainedAsWrittenInverted | src/jp/ohtayo/mathopt/core/Rank.java:113-128 | as written, a basis violating one of two constraints dominates a target violating none |
| Rank.CountSatisfied | src/jp/ohtayo/mathopt/core/Rank.java:113-120 | satisfied and violated entries together make up all the constraints |
| Rank.DominatedConstrained | src/jp/ohtayo/mathopt/core/Rank.java:93-134 | the array overload with the count its comments describe: with two or more constraints, the solution satisfying more constraints dominates and ties fall through to the objectives |
| Rank.FeasibleDominatesInfeasible | src/jp/ohtayo/mathopt/core/Rank.java:121-128 | under the corrected count, a solution violating nothing dominates one violating something, and not the other way round |
| Rank.Dominators | src/jp/ohtayo/mathopt/core/Rank.java:269-279 | the number of other solutions dominating solution i is at most the number of other solutions |
| Rank.DominatorsZero | src/jp/ohtayo/mathopt/core/Rank.java:264-287 | a solution has no dominators, and so rank 1, exactly when no other solution dominates it |
| Rank.ConstrainedDominatorsZero | src/jp/ohtayo/mathopt/core/Rank.java:297-320 | the same under the constraint-aware rule, for the count as written and for the corrected one |
| Rank.NoAlphaOverflowExact | src/jp/ohtayo/mathopt/core/Rank.java:264-287 | ranking's comparisons all return exactly when no pair overflows the alpha rule, and they then have the corrected rule's values |
| Rank.PlainRankMonotone | src/jp/ohtayo/mathopt/core/Rank.java:264-287 | under the plain rule, a solution dominated by another never has fewer dominators than it, so it never ranks better |
| Rank.DominatorsMonotone | src/jp/ohtayo/mathopt/core/Rank.java:269-279 | counted up to any prefix, every dominator of the dominator also dominates the dominated solution |
| Rank.CountDominators | src/jp/ohtayo/mathopt/core/Rank.java:270-278 | the inner loop counts exactly the other solutions dominating solution i |
| Rank.CountConstrainedDominators | src/jp/ohtayo/mathopt/core/Rank.java:302-312 | the constrained inner loop counts exactly the other solutions dominating solution i under the rule as written |
| Rank.Ranking | src/jp/ohtayo/mathopt/core/Rank.java:264-287 | on fitness where no comparison throws, the rank of each solution is 1 plus the number of solutions dominating it, and lies in 1..n |
| Rank.RankingConstrained | src/jp/ohtayo/mathopt/core/Rank.java:297-320 | on inputs where no comparison throws, each rank is 1 plus the number of dominators under the constraint rule as written, and lies in 1..n |
| Rank.Ranks | src/jp/ohtayo/mathopt/core/Rank.java:264-287 | the rank sequence has one entry per solution, each between 1 and n |
| Rank.ConstrainedRanks | src/jp/ohtayo/mathopt/core/Rank.java:297-320 | the constrained rank sequence has one entry per solution, each between 1 and n |
| Rank.ConstrainedRanksInverted | src/jp/ohtayo/mathopt/core/Rank.java:297-320 | take two solutions with equal fitness, one feasible and one violating both of two constraints. As written the violating one ranks first; the corrected count ranks the feasible one first |
| Rank.IndicesOf | src/jp/ohtayo/mathopt/core/Rank.java:328-350 | lists ascending positions that all hold the requested rank, as many as there are such positions |
| Rank.IndicesOfComplete | src/jp/ohtayo/mathopt/core/Rank.java:340-348 | every position holding the requested rank is listed |
| Rank.RankIndex | src/jp/ohtayo/mathopt/core/Rank.java:328-350 | rankIndex returns exactly the ascending positions whose rank equals number, no more and no fewer |
| Rank.CountAtMostStep | src/jp/ohtayo/mathopt/core/Rank.java:375-383 | the running sum of the per-rank counts up to r is the count at most r-1 plus the count of rank r |
| Rank.FirstExceedingFound | src/jp/ohtayo/mathopt/core/Rank.java:374-383 | the scan over ranks stops at the first rank whose running count exceeds globalSize, and such a rank exists when there are more members than globalSize |
| Rank.BorderRankSplit | src/jp/ohtayo/mathopt/core/Rank.java:358-384 | with ranks from 1 and more members than globalSize, the border rank is at least 1. The better-ranked members fit in globalSize, and adding the border rank's members overflows it |
| Rank.CalculateBorderRank | src/jp/ohtayo/mathopt/core/Rank.java:358-384 | returns the smallest rank whose running count exceeds globalSize, or 0 when all members fit |
| Rank.BorderRankPositive | src/jp/ohtayo/mathopt/core/Rank.java:374-383 | with ranks from 1, a rank whose running count exceeds globalSize is at least 1 |
| Rank.ArgMin | src/jp/ohtayo/mathopt/core/Rank.java:458-471 | the first position of the smallest value: no value is smaller, and every earlier one is strictly greater |
| Rank.MinIndex | src/jp/ohtayo/mathopt/core/Rank.java:458-471 | minIndex returns the first position of the smallest value |
| Rank.Manhattan | src/jp/ohtayo/mathopt/core/Rank.java:435 | the Manhattan distance is never negative |
| Rank.Column | src/jp/ohtayo/mathopt/core/Rank.java:398-399 | column o holds objective o of every solution |
| Rank.FirstAt | src/jp/ohtayo/mathopt/core/Rank.java:412-418 | the first row at or after k holding the value, or the end when there is none |
| Rank.FirstMinMark | src/jp/ohtayo/mathopt/core/Rank.java:419-423 | the first row at or after k that takes the minimum mark: it holds the minimum, and the maximum branch did not take it |
| Rank.MaxMarks | src/jp/ohtayo/mathopt/core/Rank.java:412-418 | for each objective, the row that takes the maximum mark |
| Rank.MinMarks | src/jp/ohtayo/mathopt/core/Rank.java:412-423 | for each objective, the row that takes the minimum mark |
| Rank.MarkStep | src/jp/ohtayo/mathopt/core/Rank.java:410-422 | a row takes an objective's maximum mark when it holds the maximum and no earlier row took it. Otherwise it takes the minimum mark under the same condition |
| Rank.RowMarkSteps | src/jp/ohtayo/mathopt/core/Rank.java:410-422 | MarkStep for every objective of a row |
| Rank.EdgeByMarks | src/jp/ohtayo/mathopt/core/Rank.java:408-424 | a solution is a boundary solution exactly when it takes some maximum or minimum mark |
| Rank.Gaps | src/jp/ohtayo/mathopt/core/Rank.java:430-442 | one distance per solution, with MAX_VALUE in the solution's own place |
| Rank.NearestTwoIsLeastPair | src/jp/ohtayo/mathopt/core/Rank.java:443-447 | the crowding distance is at most the sum of any two distinct gap entries and, with two or more solutions, equals one such sum |
| Rank.ScanEdges | src/jp/ohtayo/mathopt/core/Rank.java:408-424 | the objective loop reports exactly whether the row takes a mark, and records in finMaxEdge and finMinEdge the marks taken so far |
| Rank.InnerDistance | src/jp/ohtayo/mathopt/core/Rank.java:430-447 | the inner branch computes the sum of the two smallest Manhattan distances to the other solutions |
| Rank.CalculateDistance | src/jp/ohtayo/mathopt/core/Rank.java:393-451 | a boundary solution gets MAX_VALUE; every other solution gets the sum of its two smallest Manhattan distances to the others |
| Rank.Marks | src/jp/ohtayo/mathopt/core/Rank.java:409-424 | both mark lists together, two entries per objective |
| Rank.EdgeCountBound | src/jp/ohtayo/mathopt/core/Rank.java:409-424 | at most two boundary solutions are marked per objective |
| Particles.Adopt | src/jp/ohtayo/mathopt/core/Particle.java:97-99 | adopting the current state copies position and fitness over the front of the best arrays and keeps their lengths |
| Particles.NextBest | src/jp/ohtayo/mathopt/core/Particle.java:81-114 | updateBest on values. Single objective without constraints: the best first fitness never grows, and the best is replaced exactly when the new value is strictly smaller. Single objective with constraints: the best never changes. Several objectives without constraints: the best is kept exactly when the old best dominates the fitness. Several objectives with constraints: the best is kept when the old best dominates under the count as written, and otherwise the constraint array is taken |
| Particles.AdoptDiffers | src/jp/ohtayo/mathopt/core/Particle.java:86-91 | adopting a fitness the old best does not dominate really changes the best record |
| Particles.IdenticalFitnessKeepsBest | src/jp/ohtayo/mathopt/core/Particle.java:86-91 | with several objectives, an unchanged fitness does not replace the best |
| Particles.BetterSomewhereReplaces | src/jp/ohtayo/mathopt/core/Particle.java:86-91 | with several objectives, a fitness better than the best in any one objective always replaces it |
| Particles.ViolatingStateReplacesFeasibleBest | src/jp/ohtayo/mathopt/core/Particle.java:92-100 | with equal fitness, a state violating both of two constraints replaces a best violating neither, as the code runs; the corrected count would keep the best |
| Particles.Particle.constructor | src/jp/ohtayo/mathopt/core/Particle.java:28-37 | a new particle has zero position, velocity and fitness arrays of the given sizes and no constraints |
| Particles.Particle.Constrained | src/jp/ohtayo/mathopt/core/Particle.java:47-58 | a constrained particle also has both constraint arrays of the given size, filled with MAX_VALUE |
| Particles.Particle.Evaluate | src/jp/ohtayo/mathopt/core/Particle.java:64-75 | evaluate stores the objective function's fitness and, only for a particle with constraints, its violations; position, velocity and the best record are unchanged |
| Particles.Particle.UpdateBest | src/jp/ohtayo/mathopt/core/Particle.java:81-114 | only the best record changes, and it becomes NextBest of the old one |
| Particles.Particle.CopyFrom | src/jp/ohtayo/mathopt/core/Particle.java:120-129 | copy(p) copies each of p's arrays over the front of this particle's array and takes p's constraint arrays |
| Particles.Particle.Copy | src/jp/ohtayo/mathopt/core/Particle.java:135-148 | copy() returns a fresh particle whose state is CopyState of this one |
| Particles.ZeroState | src/jp/ohtayo/mathopt/core/Particle.java:28-37 | the state of a fresh particle has every array of its size and no constraints |
| Particles.CopyStateMeaning | src/jp/ohtayo/mathopt/core/Particle.java:135-148 | a copy keeps position, fitness and both constraint arrays; its other arrays are sized by position or fitness with the original at their front; a particle whose arrays already agree in size is copied exactly |
| Particles.CopyStateIdempotent | src/jp/ohtayo/mathopt/core/Particle.java:135-148 | copying a copy gives the same state as copying once |
| Swarms.CopyAll | src/jp/ohtayo/mathopt/core/Swarm.java:283-286 | copying every particle of a list gives, slot by slot, the copy of that particle |
| Swarms.Start | src/jp/ohtayo/mathopt/core/Swarm.java:45-53 | one pass of the initializing loop sets position and velocity to the given rows, copies the position over the front of the best position, writes the objective's maximum over the front of the fitness and copies the fitness into the best fitness, and leaves the constraint arrays alone |
| Swarms.CopyAllShaped | src/jp/ohtayo/mathopt/core/Swarm.java:279-288 | when every particle's arrays already have the swarm's sizes, copying the swarm changes no value |
| Swarms.Swarm.constructor | src/jp/ohtayo/mathopt/core/Swarm.java:23-26 | a new swarm has the given number of empty slots |
| Swarms.Swarm.States | src/jp/ohtayo/mathopt/core/Swarm.java:23-26 | the values of a full swarm are its particles' states, slot by slot |
| Swarms.Swarm.Allocate | src/jp/ohtayo/mathopt/core/Swarm.java:103-109 | initialize(v, m) puts a fresh zero particle in every slot |
| Swarms.Swarm.AllocateConstrained | src/jp/ohtayo/mathopt/core/Swarm.java:66-73 | every slot gets a fresh zero particle, with constraint arrays of the given count filled with MAX_VALUE when that count is not 0 |
| Swarms.Swarm.Initialize | src/jp/ohtayo/mathopt/core/Swarm.java:34-96 | after either random initialize every particle holds its row of the initial positions and velocities, its best position starts with that position, its fitness and best fitness start with the objective's maximum, and its constraint arrays hold MAX_VALUE |
| Swarms.Swarm.GetRows | src/jp/ohtayo/mathopt/core/Swarm.java:115-226 | each getter returns one row per particle with that particle's array at its front and zeros after it, as wide as particle 0's array |
| Swarms.Swarm.SetRows | src/jp/ohtayo/mathopt/core/Swarm.java:128-184 | each setter copies the front of each row into the particle's array, which keeps its length, and changes nothing else |
| Swarms.Swarm.PutCopy | src/jp/ohtayo/mathopt/core/Swarm.java:241 | a slot takes a fresh copy of the particle, and the other slots keep theirs |
| Swarms.Swarm.CopyIn | src/jp/ohtayo/mathopt/core/Swarm.java:239-246 | the copying loop fills a run of slots with fresh copies of a swarm's particles in order, and the other slots keep theirs |
| Swarms.Swarm.Copy | src/jp/ohtayo/mathopt/core/Swarm.java:279-288 | copy() returns a new swarm of fresh particles whose values are the copies of this swarm's |
| Swarms.Swarm.CopyWhole | src/jp/ohtayo/mathopt/core/Swarm.java:283-286 | every slot takes a fresh copy of the particle in the same slot of the source |
| Swarms.Swarm.Concatenate | src/jp/ohtayo/mathopt/core/Swarm.java:239-246 | the slots take copies of basis's particles, then of target's, in order |
| Swarms.Add | src/jp/ohtayo/mathopt/core/Swarm.java:234-248 | add(basis, target) returns a new swarm as long as both together, holding copies of basis's particles followed by copies of target's |
| Swarms.StatesAre | src/jp/ohtayo/mathopt/core/Swarm.java:234-248 | a full swarm whose slots hold given values has exactly those values |
| Swarms.ZeroSwarm | src/jp/ohtayo/mathopt/core/Swarm.java:23-26 | a new swarm followed by initialize(v, m) holds n fresh zero particles |
| Swarms.Picup | src/jp/ohtayo/mathopt/core/Swarm.java:256-273 | picup(swarm, index) holds in slot i a copy of the particle at index[i] when that index is in range, and otherwise the zero particle from the allocation |
| Swarms.PicupOne | src/jp/ohtayo/mathopt/core/Swarm.java:263-270 | one pass of the inner search fills slot i as picup promises and changes no other slot |
| Swarms.Join | src/jp/ohtayo/mathopt/core/Swarm.java:234-248 | for particles that all have the same sizes, add holds exactly basis's values followed by target's |
| Swarms.AddConcatenates | src/jp/ohtayo/mathopt/core/Swarm.java:234-248 | for particles that all have the same sizes, the copies of basis and target concatenated equal basis and target concatenated |
| Individuals.Scale | src/jp/ohtayo/mathopt/core/BinaryIndividual.java:52 | 2^bits - 1 is never negative and is at least 1 once there is a bit |
| Individuals.Bitmask | src/jp/ohtayo/mathopt/core/BinaryIndividual.java:35 | the bitmask after the saturating cast is at least 0, at most 2^bits - 1, and at least 1 once there is a bit |
| Individuals.Pow2Monotone | src/jp/ohtayo/mathopt/core/BinaryIndividual.java:35 | more bits never give a smaller power of two |
| Individuals.BitmaskExact | src/jp/ohtayo/mathopt/core/BinaryIndividual.java:35 | up to 31 bits the cast is exact, so the bitmask is 2^bits - 1 |
| Individuals.Pow2Sum | src/jp/ohtayo/mathopt/core/BinaryIndividual.java:35 | 2^(a+b) is 2^a times 2^b |
| Individuals.Pow2ThirtyOne | src/jp/ohtayo/mathopt/core/BinaryIndividual.java:35 | 2^31 is one more than Integer.MAX_VALUE, which is where the cast starts to saturate |
| Individuals.Code | src/jp/ohtayo/mathopt/core/BinaryIndividual.java:50-54 | coding gives one gene per variable |
| Individuals.Decode | src/jp/ohtayo/mathopt/core/BinaryIndividual.java:59-63 | decoding gives one variable per gene |
| Individuals.WholeCast | src/jp/ohtayo/mathopt/core/BinaryIndividual.java:53 | casting an int to double and back gives the int |
| Individuals.CastFloor | src/jp/ohtayo/mathopt/core/BinaryIndividual.java:53 | between 0 and Integer.MAX_VALUE the cast to int is the floor |
| Individuals.CastMonotone | src/jp/ohtayo/mathopt/core/BinaryIndividual.java:53 | the cast keeps the order of non-negative values |
| Individuals.CodeDecodeGene | src/jp/ohtayo/mathopt/core/BinaryIndividual.java:50-63 | coding a decoded gene gives the gene back |
| Individuals.CodeDecode | src/jp/ohtayo/mathopt/core/BinaryIndividual.java:50-63 | decoding a chromosome and coding the result gives the chromosome back |
| Individuals.DecodeInUnit | src/jp/ohtayo/mathopt/core/BinaryIndividual.java:59-63 | genes between 0 and the bitmask decode to variables between 0 and 1 |
| Individuals.CodeGeneInRange | src/jp/ohtayo/mathopt/core/BinaryIndividual.java:50-54 | a variable between 0 and 1 codes to a gene between 0 and the bitmask |
| Individuals.CodeInRange | src/jp/ohtayo/mathopt/core/BinaryIndividual.java:50-54 | variables between 0 and 1 code to genes between 0 and the bitmask |
| Individuals.CodeGeneQuantum | src/jp/ohtayo/mathopt/core/BinaryIndividual.java:50-63 | up to 31 bits, a variable between 0 and 1 decodes back to at most itself and less than one step 1/(2^bits - 1) below it |
| Individuals.CodeQuantum | src/jp/ohtayo/mathopt/core/BinaryIndividual.java:50-63 | the same bound for every variable of an array: coding truncates by less than one step |
| Individuals.ZeroGenomeCoded | src/jp/ohtayo/mathopt/core/BinaryIndividual.java:26-36 | a new individual has the given numbers of variables and objectives, and its zero chromosome codes its zero variables |
| Individuals.WithVariableMeaning | src/jp/ohtayo/mathopt/core/BinaryIndividual.java:70-74 | setVariable writes the front of the variables and keeps the rest, the kind and the fitness; a coded individual stays coded |
| Individuals.WithChromosomeMeaning | src/jp/ohtayo/mathopt/core/BinaryIndividual.java:80-84 | setChromosome writes the front of the chromosome and keeps the rest and the fitness; the variables become the decoded chromosome, between 0 and 1 when the genes lie between 0 and the bitmask |
| Individuals.CopiedFromSameShape | src/jp/ohtayo/mathopt/core/BinaryIndividual.java:98-102 | copy(i) between individuals of the same shape makes the variables and fitness equal to the source's and keeps this one's kind and coding |
| Individuals.CopyGenomeExact | src/jp/ohtayo/mathopt/core/BinaryIndividual.java:108-117 | a copy is coded, a coded individual's copy holds exactly its values, and copying twice is copying once |
| Individuals.Individual.RealCoded | src/jp/ohtayo/mathopt/core/RealCodedIndividual.java:20-25 | a new real-coded individual holds zero variables and zero fitness of the given sizes |
| Individuals.Individual.Binary | src/jp/ohtayo/mathopt/core/BinaryIndividual.java:26-36 | a new binary individual holds zero variables, a zero chromosome and zero fitness of the given sizes |
| Individuals.Individual.CodeVariables | src/jp/ohtayo/mathopt/core/BinaryIndividual.java:50-54 | coding() replaces the chromosome by the coded variables and changes nothing else |
| Individuals.Individual.DecodeChromosome | src/jp/ohtayo/mathopt/core/BinaryIndividual.java:59-63 | decoding() replaces the variables by the decoded chromosome and changes nothing else |
| Individuals.Individual.SetVariable | src/jp/ohtayo/mathopt/core/Individual.java:29-32 | setVariable, and the binary override at BinaryIndividual.java:70-74, leaves the individual as WithVariable describes |
| Individuals.Individual.SetFitness | src/jp/ohtayo/mathopt/core/Individual.java:53-56 | setFitness copies the value over the front of the fitness and changes nothing else |
| Individuals.Individual.SetChromosome | src/jp/ohtayo/mathopt/core/BinaryIndividual.java:80-84 | setChromosome leaves the individual as WithChromosome describes |
| Individuals.Individual.Evaluate | src/jp/ohtayo/mathopt/core/Individual.java:20-23 | evaluate replaces the fitness by the objective function's answer and changes nothing else |
| Individuals.Individual.CopyFrom | src/jp/ohtayo/mathopt/core/RealCodedIndividual.java:31-35 | copy(i), and the binary one at BinaryIndividual.java:98-102, leaves the individual as CopiedFrom describes |
| Individuals.Individual.Copy | src/jp/ohtayo/mathopt/core/RealCodedIndividual.java:41-50 | copy(), and the binary one at BinaryIndividual.java:108-117, returns a fresh individual holding CopyGenome of this one |
| Individuals.Differences | src/jp/ohtayo/mathopt/core/Individual.java:95-99 | entry i of the result is a[i] - b[i] |
| Individuals.SumDifferences | src/jp/ohtayo/mathopt/core/Individual.java:95-99 | the sum of the differences is the difference of the sums |
| Individuals.EqualsBySumMeaning | src/jp/ohtayo/mathopt/core/Individual.java:95-99 | equals as written holds exactly when the two variable arrays have the same sum |
| Individuals.EqualsBySumExample | src/jp/ohtayo/mathopt/core/Individual.java:95-99 | equals as written calls [1, 0] and [0, 1] equal |
| Individuals.SameVariables | src/jp/ohtayo/mathopt/core/Individual.java:92-99 | equality as the comment describes it holds exactly when the variables agree entry by entry |
| Individuals.Describe | src/jp/ohtayo/mathopt/core/BinaryIndividual.java:122-137 | toString, and the real-coded one at RealCodedIndividual.java:55-66, starts and ends with the separator line, and the variables line comes first |
| Populations.WithRowMeaning | src/jp/ohtayo/mathopt/core/Population.java:144-150 | setVariables and setFitness write the front of the one array they name, keep the rest and the kind, leave the fitness alone when writing variables, and keep a coded individual coded |
| Populations.CopyAll | src/jp/ohtayo/mathopt/core/Population.java:248-256 | copying every individual keeps the number of individuals |
| Populations.CopyAllMeaning | src/jp/ohtayo/mathopt/core/Population.java:248-256 | every copy is coded, and the copies of coded individuals hold exactly their values |
| Populations.Population.constructor | src/jp/ohtayo/mathopt/core/Population.java:19-22 | a new population has the given number of empty slots |
| Populations.Population.Genomes | src/jp/ohtayo/mathopt/core/Population.java:19-22 | the values of a full population are its individuals' values, slot by slot |
| Populations.Population.Allocate | src/jp/ohtayo/mathopt/core/Population.java:106-125 | the allocation-only initialize puts a fresh zero individual of the given kind and sizes in every slot |
| Populations.Population.GetRows | src/jp/ohtayo/mathopt/core/Population.java:131-139 | getVariables and getFitness, at lines 168-176, return one row per individual with its array at the front and zeros after it, as wide as individual 0's array |
| Populations.Population.SetRows | src/jp/ohtayo/mathopt/core/Population.java:144-150 | setVariables and setFitness, at lines 181-187, pass row i to individual i's setter and change nothing else |
| Populations.Population.Evaluate | src/jp/ohtayo/mathopt/core/Population.java:156-162 | evaluate makes the objective function's answer for each individual its fitness and changes nothing else |
| Populations.Population.PutCopy | src/jp/ohtayo/mathopt/core/Population.java:200-205 | one step of the copying loops puts a fresh copy in one slot and keeps the other slots |
| Populations.Population.CopyIn | src/jp/ohtayo/mathopt/core/Population.java:198-206 | a copying loop fills a run of slots with fresh copies of a population's individuals in order and keeps every other slot, null or not |
| Populations.Population.Concatenate | src/jp/ohtayo/mathopt/core/Population.java:198-206 | the slots take copies of basis's individuals, then of target's, in order |
| Populations.Population.Add | src/jp/ohtayo/mathopt/core/Population.java:194-207 | add(target) returns a new population of copies of this one's individuals followed by copies of target's |
| Populations.Population.Picup | src/jp/ohtayo/mathopt/core/Population.java:214-230 | picup(index) holds in slot i a copy of individual index[i] when that is a slot, and null otherwise |
| Populations.Population.CopyFrom | src/jp/ohtayo/mathopt/core/Population.java:236-242 | copy(basis) fills the first slots with copies of basis's individuals and keeps the others |
| Populations.Population.Copy | src/jp/ohtayo/mathopt/core/Population.java:248-256 | copy() replaces every individual of this same population by a fresh copy and returns the population itself |
| Populations.SlotsApart | src/jp/ohtayo/mathopt/core/Population.java:248-256 | two slots of a valid population never hold the same individual, so writing one never changes another |
| Populations.ArityOfShaped | src/jp/ohtayo/mathopt/core/Population.java:28-52 | getNumberOfVariables and getNumberOfObjectives read slot 0, which for a uniformly shaped population is every individual's size, and 0 for an empty one |
| Pso.Update | src/jp/ohtayo/mathopt/algorithm/PSO.java:127-157 | update moves every particle as Moved describes, with its own pair of draws, towards the global best's position, and leaves the global best unchanged |
| Pso.Mutate | src/jp/ohtayo/mathopt/algorithm/PSO.java:91-115 | mutate perturbs every particle as NonUniformPrefix describes, with rate 1 / numberOfVariables and step (draw - 0.5) / sqrt(iterate + 1) |
| Pso.Holder | src/jp/ohtayo/mathopt/algorithm/PSO.java:165-176 | after the first n particles updateGlobalBest holds the incoming best (-1) or the first particle with the smallest first fitness, which is strictly below the incoming one and at most every particle seen |
| Pso.HolderStep | src/jp/ohtayo/mathopt/algorithm/PSO.java:169-173 | one pass of the loop takes particle n exactly when its first fitness is strictly smaller than the held one's |
| Pso.GlobalBestOf | src/jp/ohtayo/mathopt/algorithm/PSO.java:165-176 | the new global best's first fitness is at most the old global best's and at most every particle's |
| Pso.GlobalBestOfCandidate | src/jp/ohtayo/mathopt/algorithm/PSO.java:165-176 | the new global best is a copy of the old one when no particle is strictly better, and otherwise a copy of the first particle with the smallest first fitness |
| Pso.MinFirst | src/jp/ohtayo/mathopt/algorithm/PSO.java:165-176 | the running minimum is at most x and every first fitness seen, and is one of them |
| Pso.HeldFirst | src/jp/ohtayo/mathopt/algorithm/PSO.java:169-173 | the candidate held after n particles has the running minimum as its first fitness |
| Pso.GlobalBestOfFirst | src/jp/ohtayo/mathopt/algorithm/PSO.java:165-176 | the new global best's first fitness is the minimum of the old one's and every particle's |
| Pso.Challenge | src/jp/ohtayo/mathopt/algorithm/PSO.java:170-172 | one pass of the loop returns a fresh copy of the particle when it is strictly better, and otherwise keeps the held copy |
| Pso.UpdateGlobalBest | src/jp/ohtayo/mathopt/algorithm/PSO.java:165-176 | updateGlobalBest, and OPSO's at OPSO.java:144-156, returns a fresh particle holding GlobalBestOf the swarm and the old global best |
| Pso.Scan | src/jp/ohtayo/mathopt/algorithm/PSO.java:169-174 | the loop ends holding a copy of the candidate Holder names |
| Pso.Evaluate | src/jp/ohtayo/mathopt/algorithm/PSO.java:185-193 | evaluate, and OPSO's at OPSO.java:165-173, evaluates every particle and updates its best as a single-objective particle: without violations the best first fitness never grows and is at most the new fitness; with violations the best is unchanged |
| Pso.SingleObjectiveAssessed | src/jp/ohtayo/mathopt/algorithm/PSO.java:185-193 | for one particle, evaluation followed by updateBest(1) gives the same two promises |
| Opso.Update | src/jp/ohtayo/mathopt/algorithm/OPSO.java:103-136 | w, c1 and c2 are drawn once per call and lie in [0.1, 0.5), [1.5, 2.0) and [1.5, 2.0) for draws in [0, 1); every particle moves as in PSO's update and the global best is unchanged |
| Opso.BestAfterNonIncreasing | src/jp/ohtayo/mathopt/algorithm/OPSO.java:46-62 | the global best's first fitness recorded by main never grows from one generation to a later one |
| Opso.BestAfterBelow | src/jp/ohtayo/mathopt/algorithm/OPSO.java:46-62 | after u generations the recorded value is at most every first fitness evaluated in them |
| Opso.RecordOrdered | src/jp/ohtayo/mathopt/algorithm/OPSO.java:46-62 | the record main keeps in bestFitness is non-increasing and below every value evaluated up to that generation |
| Opso.RecordBestFitness | src/jp/ohtayo/mathopt/algorithm/OPSO.java:46-62 | main's bestFitness vector, filled from the evaluated generations, holds the running global best, non-increasing and below everything evaluated so far; PSO's main at PSO.java:46-61 keeps the same record |
| Opso.FillRecord | src/jp/ohtayo/mathopt/algorithm/OPSO.java:46-62 | the loop stores one running-best entry per generation |
| Mopso.DrawCoefficients | src/jp/ohtayo/mathopt/algorithm/MOPSO.java:97-99 | w, c1 and c2 from draws in [0, 1) lie in [0.1, 0.5), [1.5, 2.0) and [1.5, 2.0) |
| Mopso.NextVelocity | src/jp/ohtayo/mathopt/algorithm/MOPSO.java:115-127 | a new velocity component always lies in [-0.5, 0.5], and is the unclamped inertia-plus-pulls value whenever that already lies there |
| Mopso.NextPosition | src/jp/ohtayo/mathopt/algorithm/MOPSO.java:115-127 | a new position component always lies in [0, 1], and is position plus velocity whenever that already lies there |
| Mopso.MovedPrefix | src/jp/ohtayo/mathopt/algorithm/MOPSO.java:115-127 | after the first n components, each of those has its new velocity followed by its new position, the later components are untouched, and nothing but position and velocity changes |
| Mopso.MovedInBounds | src/jp/ohtayo/mathopt/algorithm/MOPSO.java:115-127 | after update every velocity component lies in [-0.5, 0.5] and every visited position component in [0, 1] |
| Mopso.Move | src/jp/ohtayo/mathopt/algorithm/MOPSO.java:115-127 | the inner loop leaves the particle as Moved describes |
| Mopso.Slot | src/jp/ohtayo/mathopt/algorithm/MOPSO.java:113 | Math.floor(n * draw) for a draw in [0, 1) is an index below n |
| Mopso.FollowLeaders | src/jp/ohtayo/mathopt/algorithm/MOPSO.java:109-128 | particle i moves towards the archive member of rank1Index its draw picks, with its own draws |
| Mopso.FollowOne | src/jp/ohtayo/mathopt/algorithm/MOPSO.java:109-128 | one turn of the particle loop moves particle i and keeps the moves already made |
| Mopso.Steer | src/jp/ohtayo/mathopt/algorithm/MOPSO.java:105-128 | every particle follows an archive member with the lowest rank |
| Mopso.LeadersOfBestRank | src/jp/ohtayo/mathopt/algorithm/MOPSO.java:105-112 | every leader drawn from rankIndex(rank, min(rank)) is an archive member of the lowest rank |
| Mopso.Update | src/jp/ohtayo/mathopt/algorithm/MOPSO.java:92-132 | the archive is ranked by the plain rule and every particle moves, with the drawn coefficients, towards an archive member of the lowest rank |
| Mopso.RankFitness | src/jp/ohtayo/mathopt/algorithm/MOPSO.java:256 | ranking the fitness rows of a uniformly shaped swarm gives Ranks of their fitness |
| Mopso.LeaderUndominated | src/jp/ohtayo/mathopt/algorithm/MOPSO.java:103-106 | when some archive member is dominated by no other, no other member dominates a leader of the lowest rank either |
| Mopso.SplitSizes | src/jp/ohtayo/mathopt/algorithm/MOPSO.java:150-160 | the three group sizes add up to the swarm's size, are n/3 for the last group and differ by at most one, the remainder going to the first groups |
| Mopso.UniformPrefix | src/jp/ohtayo/mathopt/algorithm/MOPSO.java:183-194 | uniform mutation gives a gated position component its draw and a gated velocity component its draw minus 0.5, and changes nothing else |
| Mopso.Perturb | src/jp/ohtayo/mathopt/algorithm/MOPSO.java:197-210 | a perturbed component clamped into [min, max] lies in that range |
| Mopso.NonUniformPrefix | src/jp/ohtayo/mathopt/algorithm/MOPSO.java:197-210 | non-uniform mutation moves a gated component by (draw - 0.5) / sqrt(iterate + 1) and clamps it, position to [0, 1] and velocity to [-0.5, 0.5], and changes nothing else |
| Mopso.MutationsKeepBounds | src/jp/ohtayo/mathopt/algorithm/MOPSO.java:183-210 | both mutations keep a particle within its position and velocity bounds |
| Mopso.MutateUniformOne | src/jp/ohtayo/mathopt/algorithm/MOPSO.java:184-193 | the inner uniform loop leaves the particle as UniformPrefix describes |
| Mopso.MutateNonUniformOne | src/jp/ohtayo/mathopt/algorithm/MOPSO.java:198-209 | the inner non-uniform loop leaves the particle as NonUniformPrefix describes |
| Mopso.MutateUniform | src/jp/ohtayo/mathopt/algorithm/MOPSO.java:183-194 | the uniform loop mutates every particle of the first group with its own draws |
| Mopso.MutateNonUniform | src/jp/ohtayo/mathopt/algorithm/MOPSO.java:197-210 | the non-uniform loop mutates every particle of the second group with its own draws |
| Mopso.UniformGroup | src/jp/ohtayo/mathopt/algorithm/MOPSO.java:178-194 | the first group holds the listed particles, each mutated uniformly |
| Mopso.NonUniformGroup | src/jp/ohtayo/mathopt/algorithm/MOPSO.java:179-210 | the second group holds the listed particles, each mutated non-uniformly |
| Mopso.Mutated | src/jp/ohtayo/mathopt/algorithm/MOPSO.java:142-216 | mutate returns as many particles as it was given |
| Mopso.MutatedAt | src/jp/ohtayo/mathopt/algorithm/MOPSO.java:142-216 | slot k of the result is shuffled particle k, mutated uniformly in the first group, non-uniformly in the second, and unchanged in the third |
| Mopso.ThreeGroupsAt | src/jp/ohtayo/mathopt/algorithm/MOPSO.java:213 | slot k of three groups laid end to end comes from the group it falls in |
| Mopso.MutatedKeeps | src/jp/ohtayo/mathopt/algorithm/MOPSO.java:142-216 | mutate changes at most position and velocity, leaves the third group as it was, and keeps particles within bounds |
| Mopso.Pick | src/jp/ohtayo/mathopt/algorithm/MOPSO.java:178-180 | picup with every index in range gives the picked values in fresh particles |
| Mopso.PickUniform | src/jp/ohtayo/mathopt/algorithm/MOPSO.java:178-194 | the first group is picked and then mutated uniformly |
| Mopso.PickNonUniform | src/jp/ohtayo/mathopt/algorithm/MOPSO.java:179-210 | the second group is picked and then mutated non-uniformly |
| Mopso.GroupHolds | src/jp/ohtayo/mathopt/algorithm/MOPSO.java:178-180 | a group whose slots hold given shaped values has exactly those values |
| Mopso.Mutate | src/jp/ohtayo/mathopt/algorithm/MOPSO.java:142-216 | mutate returns a fresh swarm of the same size holding Mutated of the swarm |
| Mopso.Regroup | src/jp/ohtayo/mathopt/algorithm/MOPSO.java:175-216 | the three groups are picked and mutated, and joined in order |
| Mopso.JoinGroups | src/jp/ohtayo/mathopt/algorithm/MOPSO.java:213 | add(uniform, add(nonUniform, untouched)) holds the three groups' values in order |
| Mopso.MutatedGroups | src/jp/ohtayo/mathopt/algorithm/MOPSO.java:142-216 | Mutated is the uniform group, then the non-uniform group, then the untouched particles |
| Mopso.Assessed | src/jp/ohtayo/mathopt/algorithm/MOPSO.java:224-233 | after evaluate and updateBest, position and velocity are kept, fitness and violations are the objective function's answer, and the best record is NextBest of the old one |
| Mopso.Assess | src/jp/ohtayo/mathopt/algorithm/MOPSO.java:228-231 | evaluate then updateBest leaves one particle as Assessed describes |
| Mopso.Evaluate | src/jp/ohtayo/mathopt/algorithm/MOPSO.java:224-233 | every particle is assessed with the number of objectives read from particle 0 |
| Mopso.Select | src/jp/ohtayo/mathopt/algorithm/MOPSO.java:244-330 | select ranks the swarm followed by the archive, keeps every member of the ranks below the border rank, and fills the rest of the archive's first swarm-size slots with the border rank's members in descending crowding distance; the remaining archive slots are untouched |
| Mopso.RankCombined | src/jp/ohtayo/mathopt/algorithm/MOPSO.java:247-256 | add(swarm, globalBest) holds the swarm's values then the archive's, and its ranks are Ranks of their fitness, all at least 1 |
| Constrained.RankWithConstraints | src/jp/ohtayo/mathopt/algorithm/MOPSOMultiThreadConstrain.java:336 | ranking the fitness and constraint rows of a uniformly shaped swarm gives the constrained ranks under the count as written |
| Constrained.Update | src/jp/ohtayo/mathopt/algorithm/MOPSOMultiThreadConstrain.java:105-146 | the archive is ranked by the constrained rule as written, and every particle moves, with the drawn coefficients, towards an archive member of the lowest constrained rank; the mutation at lines 156-230 is MOPSO's, modelled by Mopso.Mutate |
| Constrained.LeaderUndominated | src/jp/ohtayo/mathopt/algorithm/MOPSOMultiThreadConstrain.java:118-120 | when some archive member is dominated by no other under the constrained rule, no other member dominates a leader of the lowest constrained rank either, for the count as written and the corrected one alike |
| Constrained.EvaluateOne | src/jp/ohtayo/mathopt/algorithm/MOPSOMultiThreadConstrain.java:294-312 | one task evaluates its own particle and updates its best record, with the number of objectives read from particle 0, and no other particle changes |
| Constrained.Evaluate | src/jp/ohtayo/mathopt/algorithm/MOPSOMultiThreadConstrain.java:240-279 | evaluate, and OMOPSOMultiThreadConstraint's at OMOPSOMultiThreadConstraint.java:101-124, leaves every particle assessed, as if its tasks ran one after the other |
| Constrained.RankCombined | src/jp/ohtayo/mathopt/algorithm/MOPSOMultiThreadConstrain.java:327-336 | add(swarm, globalBest) holds the swarm's values then the archive's, and its ranks are the constrained ranks under the count as written |
| Constrained.Select | src/jp/ohtayo/mathopt/algorithm/MOPSOMultiThreadConstrain.java:324-410 | select, and OMOPSOMultiThreadConstraint's at OMOPSOMultiThreadConstraint.java:169-246, ranks the swarm followed by the archive by the constrained rule as written, keeps every member below the border rank, and fills the rest of the archive's first swarm-size slots with the border rank's members in descending crowding distance; the remaining slots are untouched |
| Archive.IndicesBelow | src/jp/ohtayo/mathopt/algorithm/MOPSO.java:286-300 | the members ranked better than the border rank, in ascending order, as many as the counting loop counts |
| Archive.IndicesBelowComplete | src/jp/ohtayo/mathopt/algorithm/MOPSO.java:286-300 | every member ranked better than the border rank is listed |
| Archive.Fill | src/jp/ohtayo/mathopt/algorithm/MOPSO.java:316-326 | the archive's refilled places number exactly the swarm's size |
| Archive.ChosenAt | src/jp/ohtayo/mathopt/algorithm/MOPSO.java:316-326 | place k holds the k-th upper member while k is below the upper count, and after that the border member the descending distance order names next |
| Archive.ChosenAdmits | src/jp/ohtayo/mathopt/algorithm/MOPSO.java:259-326 | select fills exactly swarm-size places with distinct members, keeps every member ranked better than the border rank and none ranked worse than it |
| Archive.NondominatedKept | src/jp/ohtayo/mathopt/algorithm/MOPSO.java:259-326 | when at most swarm-size members have rank 1, select keeps every one of them |
| Archive.Last | src/jp/ohtayo/mathopt/algorithm/MOPSO.java:303 | last = add(upper, border) lists the upper members then the border members, all members of the combined swarm |
| Archive.Crowds | src/jp/ohtayo/mathopt/algorithm/MOPSO.java:307 | calculateDistance gives one distance per row |
| Archive.Crowding | src/jp/ohtayo/mathopt/algorithm/MOPSO.java:309 | the slice of distances taken for the border has one entry per border member |
| Archive.CrowdingSlice | src/jp/ohtayo/mathopt/algorithm/MOPSO.java:307-309 | the border slice of calculateDistance's result is the crowding distance of those rows |
| Archive.CountRanks | src/jp/ohtayo/mathopt/algorithm/MOPSO.java:263-275 | the counting loop counts the members ranked better than the border rank and those on it |
| Archive.SplitByRank | src/jp/ohtayo/mathopt/algorithm/MOPSO.java:281-300 | upper and border are fresh swarms of the counted sizes holding copies of the members ranked better than the border rank and of those on it, each in combined order |
| Archive.HoldsShaped | src/jp/ohtayo/mathopt/algorithm/MOPSO.java:281-300 | a group whose every slot holds a uniformly shaped member is uniformly shaped |
| Archive.Place | src/jp/ohtayo/mathopt/algorithm/MOPSO.java:288-299 | one pass of the splitting loop adds member i's copy to upper when its rank is better than the border rank, to border when it equals it, and to neither otherwise |
| Archive.SplitStep | src/jp/ohtayo/mathopt/algorithm/MOPSO.java:265-299 | position i adds one to the upper count and list exactly when it is ranked better than the border rank, and to the border ones exactly when it is on it |
| Archive.Append | src/jp/ohtayo/mathopt/algorithm/MOPSO.java:291-292 | a copy of member i goes into the next free slot of a group, after the members already placed |
| Archive.LastFitness | src/jp/ohtayo/mathopt/algorithm/MOPSO.java:303-306 | lastFitness is the normalised fitness rows of the upper members followed by the border members |
| Archive.BorderOrder | src/jp/ohtayo/mathopt/algorithm/MOPSO.java:303-313 | the border members' crowding distances are sorted into a permutation in descending order of distance |
| Archive.StoreArchive | src/jp/ohtayo/mathopt/algorithm/MOPSO.java:316-326 | the archive's first places take copies of upper in order, the next ones copies of the border members the order names, and the rest keep their particles |
| Archive.CopyUpper | src/jp/ohtayo/mathopt/algorithm/MOPSO.java:316-320 | the first storing loop copies upper into the first places in order |
| Archive.CopyPicked | src/jp/ohtayo/mathopt/algorithm/MOPSO.java:322-326 | the second storing loop copies the border members the order names into the next places |
| Archive.LastFitnessOf | src/jp/ohtayo/mathopt/algorithm/MOPSO.java:303-306 | the rows whose crowding distances select uses number the upper and border members together |
| Archive.Picked | src/jp/ohtayo/mathopt/algorithm/MOPSO.java:286-300 | the members a list of positions names, in order |
| Archive.FitnessRows | src/jp/ohtayo/mathopt/algorithm/MOPSO.java:304-306 | one normalised fitness row per particle |
| Archive.Fitnesses | src/jp/ohtayo/mathopt/algorithm/MOPSO.java:253-256 | one fitness row per particle |
| Archive.Constraints | src/jp/ohtayo/mathopt/algorithm/MOPSOMultiThreadConstrain.java:336 | one constraint row per particle |
| Archive.FitnessMatrix | src/jp/ohtayo/mathopt/core/Swarm.java:165-173 | getFitness on a swarm whose particles all have m objectives pads no row, so the matrix is the particles' fitness arrays |
| Archive.ConstraintMatrix | src/jp/ohtayo/mathopt/core/Swarm.java:190-199 | getConstraint on a swarm whose particles all carry the same number of violations gives their constraint arrays |
| Archive.HoldsStates | src/jp/ohtayo/mathopt/algorithm/MOPSO.java:286-300 | a group filled slot for slot holds exactly the picked members |
| Archive.PickedConcat | src/jp/ohtayo/mathopt/algorithm/MOPSO.java:303 | picking by two lists laid end to end picks by each in turn |
| Archive.StoredHolds | src/jp/ohtayo/mathopt/algorithm/MOPSO.java:316-326 | after the storing loops the archive's first places hold the upper members, then the border members the order names |
| Archive.Partition | src/jp/ohtayo/mathopt/algorithm/MOPSO.java:259-300 | the border rank, the two counts, and upper and border holding the members ranked better than the border rank and on it, with fewer upper members than the swarm's size and more border ones than the places left |
| Archive.Sizes | src/jp/ohtayo/mathopt/algorithm/MOPSO.java:259-278 | the border rank and the two counts, the upper count being at most the swarm's size and the border count more than the places left, so the severe log at line 278 never fires |
| Archive.HoldsLast | src/jp/ohtayo/mathopt/algorithm/MOPSO.java:303 | upper followed by border holds the members Last lists |
| Archive.Prepare | src/jp/ohtayo/mathopt/algorithm/MOPSO.java:259-313 | everything before the archive is written: the partition, the border members' crowding distances and their descending order |
| Archive.Truncate | src/jp/ohtayo/mathopt/algorithm/MOPSO.java:259-326 | the archive's first swarm-size places are refilled with fresh copies of the chosen members, the distance order descends, and the other places keep their particles |
| GeneticAlgorithm.InverseBits | src/jp/ohtayo/mathopt/algorithm/SimpleGeneticAlgorithm.java:129 | mask ^ -1 flips every one of the 32 bits |
| GeneticAlgorithm.MaskedSumIsOr | src/jp/ohtayo/mathopt/algorithm/SimpleGeneticAlgorithm.java:131-135 | the two masked terms share no set bit, so the 32-bit sum the code computes equals their bitwise or |
| GeneticAlgorithm.ChildGeneBits | src/jp/ohtayo/mathopt/algorithm/SimpleGeneticAlgorithm.java:131-136 | below the first parent's bitmask, child 0 takes parent a's bit where the mask is set and parent b's elsewhere, and child 1 the other; above it both children's bits are 0 |
| GeneticAlgorithm.ChildGeneRange | src/jp/ohtayo/mathopt/algorithm/SimpleGeneticAlgorithm.java:133-136 | with a non-negative bitmask both children's genes lie between 0 and the bitmask |
| GeneticAlgorithm.Child0 | src/jp/ohtayo/mathopt/algorithm/SimpleGeneticAlgorithm.java:126-133 | child 0 of a pair has one gene per mask draw |
| GeneticAlgorithm.Child1 | src/jp/ohtayo/mathopt/algorithm/SimpleGeneticAlgorithm.java:126-136 | child 1 of a pair has one gene per mask draw |
| GeneticAlgorithm.ZeroRowKeepsZero | src/jp/ohtayo/mathopt/algorithm/SimpleGeneticAlgorithm.java:116 | setVariables with a zero matrix leaves a zero child as it was |
| GeneticAlgorithm.PairChildShape | src/jp/ohtayo/mathopt/algorithm/SimpleGeneticAlgorithm.java:114-140 | every child is a coded binary individual of parent 0's shape with zero fitness; when its first parent has parent 0's bit count, its genes lie between 0 and the bitmask and its variables in [0, 1] |
| GeneticAlgorithm.ChildRange | src/jp/ohtayo/mathopt/algorithm/SimpleGeneticAlgorithm.java:126-137 | a child's genes lie between 0 and a non-negative bitmask |
| GeneticAlgorithm.CrossGenes | src/jp/ohtayo/mathopt/algorithm/SimpleGeneticAlgorithm.java:126-137 | the gene loop fills chromosome0 and chromosome1 with the two children's genes |
| GeneticAlgorithm.Offsprings | src/jp/ohtayo/mathopt/algorithm/SimpleGeneticAlgorithm.java:123-140 | crossover yields one child per parent |
| GeneticAlgorithm.MatePair | src/jp/ohtayo/mathopt/algorithm/SimpleGeneticAlgorithm.java:126-139 | one pass of the pair loop sets the two children's chromosomes to the crossed genes through setChromosome |
| GeneticAlgorithm.MatedChildren | src/jp/ohtayo/mathopt/algorithm/SimpleGeneticAlgorithm.java:123-140 | the pair loop yields one child per slot |
| GeneticAlgorithm.Mate | src/jp/ohtayo/mathopt/algorithm/SimpleGeneticAlgorithm.java:123-140 | after the pair loop, slot k holds child k % 2 of pair k / 2 |
| GeneticAlgorithm.MatedAll | src/jp/ohtayo/mathopt/algorithm/SimpleGeneticAlgorithm.java:123-140 | after every pass, every slot holds its pair's child |
| GeneticAlgorithm.MatedSlot | src/jp/ohtayo/mathopt/algorithm/SimpleGeneticAlgorithm.java:138-139 | after p passes, slot 2q holds child 0 of pair q and slot 2q+1 child 1, for every q < p |
| GeneticAlgorithm.MateAt | src/jp/ohtayo/mathopt/algorithm/SimpleGeneticAlgorithm.java:124-139 | pass p sets children 2p and 2p+1 and keeps the others |
| GeneticAlgorithm.MatedOffsprings | src/jp/ohtayo/mathopt/algorithm/SimpleGeneticAlgorithm.java:114-140 | the pair loop's children are crossover's offspring when it reads the parents' own chromosomes and bitmasks |
| GeneticAlgorithm.MatedPairChild | src/jp/ohtayo/mathopt/algorithm/SimpleGeneticAlgorithm.java:126-139 | each child of the pair loop is the matching child of crossover's pair |
| GeneticAlgorithm.ReadParents | src/jp/ohtayo/mathopt/algorithm/SimpleGeneticAlgorithm.java:106-109 | crossover reads parent 0's bit count and shape, and each parent's chromosome and bitmask |
| GeneticAlgorithm.Crossover | src/jp/ohtayo/mathopt/algorithm/SimpleGeneticAlgorithm.java:103-152 | crossover as written: when round(n * rate) is n, the children are fresh and hold the offspring of the shuffled pairs |
| GeneticAlgorithm.AcceptedRateOverflows | src/jp/ohtayo/mathopt/algorithm/SimpleGeneticAlgorithm.java:114 | the GA input check accepts ten individuals with crossover rate 0.8, and Math.round then sizes the child population at eight while the pair loop writes ten children |
| GeneticAlgorithm.CrossoverRated | src/jp/ohtayo/mathopt/algorithm/SimpleGeneticAlgorithm.java:103-140 | crossover with the children array sized from the parent count and the crossover rate, as the comment at line 113 describes it, and the pair loop stopped at the last slot: for a rate in [0, 1] the fresh children are exactly the first round(n * rate) offspring of the shuffled pairs |
| GeneticAlgorithm.RoundedWithin | src/jp/ohtayo/mathopt/algorithm/SimpleGeneticAlgorithm.java:114 | a crossover rate in [0, 1] sizes the children array between 0 and the parent count |
| GeneticAlgorithm.BreedRounded | src/jp/ohtayo/mathopt/algorithm/SimpleGeneticAlgorithm.java:114-140 | c zero children followed by the bounded pair loop hold the first c mated children |
| GeneticAlgorithm.MateRounded | src/jp/ohtayo/mathopt/algorithm/SimpleGeneticAlgorithm.java:123-140 | the pair loop bounded by the children array leaves every slot holding its pair's child |
| GeneticAlgorithm.MatedBelow | src/jp/ohtayo/mathopt/algorithm/SimpleGeneticAlgorithm.java:123-140 | after p passes, the first 2p slots hold their pairs' children |
| GeneticAlgorithm.MateLast | src/jp/ohtayo/mathopt/algorithm/SimpleGeneticAlgorithm.java:138 | an odd last slot takes the first child of its pair, and the earlier slots keep theirs |
| GeneticAlgorithm.MateFirst | src/jp/ohtayo/mathopt/algorithm/SimpleGeneticAlgorithm.java:126-138 | one child takes through setChromosome the first child's genes of the pair |
| GeneticAlgorithm.Breed | src/jp/ohtayo/mathopt/algorithm/SimpleGeneticAlgorithm.java:114-140 | n zero children followed by the pair loop hold the mated children |
| GeneticAlgorithm.ZeroChildren | src/jp/ohtayo/mathopt/algorithm/SimpleGeneticAlgorithm.java:114-116 | the children as allocated are n fresh zero binary individuals |
| GeneticAlgorithm.MutatedChromosome | src/jp/ohtayo/mathopt/algorithm/SimpleGeneticAlgorithm.java:171-177 | the gene loop keeps the chromosome's length |
| GeneticAlgorithm.MutatedGenes | src/jp/ohtayo/mathopt/algorithm/SimpleGeneticAlgorithm.java:170-177 | a gene changes only when its pick falls below geneNum, and then to the coded value draw; a value draw in [0, 1] keeps it between 0 and the bitmask |
| GeneticAlgorithm.NoGeneToMutate | src/jp/ohtayo/mathopt/algorithm/SimpleGeneticAlgorithm.java:167-178 | when geneNum is 0 no gene changes, though a hit individual's variables are still decoded from its chromosome |
| GeneticAlgorithm.NoGeneChanges | src/jp/ohtayo/mathopt/algorithm/SimpleGeneticAlgorithm.java:171-177 | when geneNum is 0 and the picks are non-negative the chromosome comes out as it went in |
| GeneticAlgorithm.MutatedShape | src/jp/ohtayo/mathopt/algorithm/SimpleGeneticAlgorithm.java:165-180 | a mutated individual keeps its coding, fitness and chromosome length, and a hit one is coded |
| GeneticAlgorithm.MutateIndividual | src/jp/ohtayo/mathopt/algorithm/SimpleGeneticAlgorithm.java:169-178 | the gene loop writes the mutated genes and passes them to setChromosome |
| GeneticAlgorithm.Mutate | src/jp/ohtayo/mathopt/algorithm/SimpleGeneticAlgorithm.java:160-182 | individual i mutates when its hit draw falls below the rate, using population 0's bit count, and the same population comes back |
| Selection.AllFree | src/jp/ohtayo/mathopt/algorithm/SimpleGeneticAlgorithm.java:250 | the flags as Java allocates them: as many as the column, none set |
| Selection.Spin | src/jp/ohtayo/mathopt/algorithm/SimpleGeneticAlgorithm.java:256-272 | a spin from position j stops, if at all, at a free position at or after j |
| Selection.FreeSumSplit | src/jp/ohtayo/mathopt/algorithm/SimpleGeneticAlgorithm.java:256-272 | the free width of a range is the free width of its two parts |
| Selection.FreeSumNonNegative | src/jp/ohtayo/mathopt/algorithm/SimpleGeneticAlgorithm.java:256-272 | with non-negative widths the free width is never negative |
| Selection.FreeSumTake | src/jp/ohtayo/mathopt/algorithm/SimpleGeneticAlgorithm.java:263-264 | taking a free position removes exactly its width from every range that holds it |
| Selection.FreeSumUnchanged | src/jp/ohtayo/mathopt/algorithm/SimpleGeneticAlgorithm.java:256-272 | the free width of a range depends only on the flags inside it |
| Selection.FreeSumAllFree | src/jp/ohtayo/mathopt/algorithm/SimpleGeneticAlgorithm.java:244 | with nothing taken, the free width of a range is the plain sum of its widths |
| Selection.SpinWindow | src/jp/ohtayo/mathopt/algorithm/SimpleGeneticAlgorithm.java:256-272 | a spin stops at the free position whose window, from the free width before it to that plus its own width, holds the roulette value; when it runs off the end, the value was at least the whole free width |
| Selection.SpinExactly | src/jp/ohtayo/mathopt/algorithm/SimpleGeneticAlgorithm.java:256-272 | with non-negative widths a spin stops at p exactly when p is free and its window holds the roulette value |
| Selection.SpinMisses | src/jp/ohtayo/mathopt/algorithm/SimpleGeneticAlgorithm.java:256-272 | a spin misses exactly when the roulette value reaches the free width |
| Selection.Roulette | src/jp/ohtayo/mathopt/algorithm/SimpleGeneticAlgorithm.java:253-273 | the selection loop makes one pick per draw, each at or after the start, and keeps one flag per position |
| Selection.Taken | src/jp/ohtayo/mathopt/algorithm/SimpleGeneticAlgorithm.java:264 | after a spin a position is taken exactly when it was before or was picked |
| Selection.RouletteStep | src/jp/ohtayo/mathopt/algorithm/SimpleGeneticAlgorithm.java:253-273 | the loop is the first spin followed by the loop on the state that spin leaves |
| Selection.PickedCons | src/jp/ohtayo/mathopt/algorithm/SimpleGeneticAlgorithm.java:262 | a position is picked by a list headed by one pick exactly when that pick or the rest picks it |
| Selection.RoulettePicksFree | src/jp/ohtayo/mathopt/algorithm/SimpleGeneticAlgorithm.java:258-265 | every pick was free before the loop |
| Selection.RouletteDistinct | src/jp/ohtayo/mathopt/algorithm/SimpleGeneticAlgorithm.java:258-265 | no position is picked twice |
| Selection.RouletteThrough | src/jp/ohtayo/mathopt/algorithm/SimpleGeneticAlgorithm.java:264 | after the loop a position is taken exactly when it was before or was picked |
| Selection.RouletteSum | src/jp/ohtayo/mathopt/algorithm/SimpleGeneticAlgorithm.java:263 | sum, starting as the free width, stays the free width after every spin |
| Selection.TurnHits | src/jp/ohtayo/mathopt/algorithm/SimpleGeneticAlgorithm.java:255-265 | with non-negative widths, a draw in [0, 1) and a positive sum equal to the free width, the spin always hits |
| Selection.RouletteValueBelow | src/jp/ohtayo/mathopt/algorithm/SimpleGeneticAlgorithm.java:255 | a draw in [0, 1) times a positive sum lands in [0, sum) |
| Selection.RouletteKeepsEmpty | src/jp/ohtayo/mathopt/algorithm/SimpleGeneticAlgorithm.java:253-273 | a wheel with no free width stays so whatever is spun |
| Selection.RouletteMissesOnlyWhenEmpty | src/jp/ohtayo/mathopt/algorithm/SimpleGeneticAlgorithm.java:253-273 | with non-negative widths and draws in [0, 1), a slot stays unfilled only when no width is left |
| Selection.MissMeansEmpty | src/jp/ohtayo/mathopt/algorithm/SimpleGeneticAlgorithm.java:255-272 | a first spin that misses finds the wheel empty |
| Selection.EmptyWheelAllTaken | src/jp/ohtayo/mathopt/algorithm/SimpleGeneticAlgorithm.java:256-272 | with positive widths an empty wheel has every position taken |
| Selection.CountFreeTake | src/jp/ohtayo/mathopt/algorithm/SimpleGeneticAlgorithm.java:264 | taking a free position leaves one free position fewer in every range holding it |
| Selection.CountFreeUnchanged | src/jp/ohtayo/mathopt/algorithm/SimpleGeneticAlgorithm.java:258 | the free count of a range depends only on the flags inside it |
| Selection.CountAllFree | src/jp/ohtayo/mathopt/algorithm/SimpleGeneticAlgorithm.java:250 | with nothing taken every position is free |
| Selection.FreeSumPositive | src/jp/ohtayo/mathopt/algorithm/SimpleGeneticAlgorithm.java:258-260 | with positive widths a wheel with a free position has a positive free width |
| Selection.RouletteFillsAll | src/jp/ohtayo/mathopt/algorithm/SimpleGeneticAlgorithm.java:253-273 | with positive widths and draws in [0, 1), every spin hits as long as there are no more spins than free positions |
| Selection.RouletteSnoc | src/jp/ohtayo/mathopt/algorithm/SimpleGeneticAlgorithm.java:253-273 | the loop one spin longer runs the last spin on the state the others leave |
| Selection.FirstObjectives | src/jp/ohtayo/mathopt/algorithm/SimpleGeneticAlgorithm.java:239-240 | getColumn(0) of the fitness holds each individual's first objective |
| Selection.Ranking | src/jp/ohtayo/mathopt/algorithm/SimpleGeneticAlgorithm.java:200 | Vector.sort() returns a permutation of the positions |
| Selection.PlaceholderCoding | src/jp/ohtayo/mathopt/algorithm/SimpleGeneticAlgorithm.java:204-208 | the class-name test compares a qualified name by reference, so new generations are always allocated real-coded |
| Selection.NewGeneration | src/jp/ohtayo/mathopt/algorithm/SimpleGeneticAlgorithm.java:203-208 | the new generation holds size fresh zero individuals as wide as the first one, with one objective |
| Selection.FitnessColumn | src/jp/ohtayo/mathopt/algorithm/SimpleGeneticAlgorithm.java:196-197 | reading the fitness column gives the first objectives and changes nothing |
| Selection.Copies | src/jp/ohtayo/mathopt/algorithm/SimpleGeneticAlgorithm.java:211-214 | copies of the individuals the first n positions of the index name, in that order |
| Selection.EliteBest | src/jp/ohtayo/mathopt/algorithm/SimpleGeneticAlgorithm.java:192-217 | the elites are copies of distinct individuals in ascending order of first objective, and no individual left out has a smaller first objective than any elite |
| Selection.SelectElite | src/jp/ohtayo/mathopt/algorithm/SimpleGeneticAlgorithm.java:192-217 | selectElite returns a fresh population whose slot i copies the individual ranked i-th by first objective |
| Selection.CopyRanked | src/jp/ohtayo/mathopt/algorithm/SimpleGeneticAlgorithm.java:211-214 | the elite loop copies the ranked individuals into the first slots and keeps the others |
| Selection.Sources | src/jp/ohtayo/mathopt/algorithm/SimpleGeneticAlgorithm.java:262 | each pick, through the sorted index, names the individual it copies |
| Selection.Filled | src/jp/ohtayo/mathopt/algorithm/SimpleGeneticAlgorithm.java:253-273 | each slot holds the copy its pick names, or the placeholder |
| Selection.SpinWheel | src/jp/ohtayo/mathopt/algorithm/SimpleGeneticAlgorithm.java:256-272 | the inner loop returns exactly the spin's pick |
| Selection.RouletteAt | src/jp/ohtayo/mathopt/algorithm/SimpleGeneticAlgorithm.java:255-272 | one slot spins once; a hit at position j copies the individual the ranking lists at j, takes j and subtracts its width from sum; a miss changes nothing |
| Selection.FillByRoulette | src/jp/ohtayo/mathopt/algorithm/SimpleGeneticAlgorithm.java:253-273 | the roulette loop fills every slot from the start on with what its spin picked, or leaves the placeholder |
| Selection.FillStep | src/jp/ohtayo/mathopt/algorithm/SimpleGeneticAlgorithm.java:253-273 | one turn of the roulette loop keeps the loop's invariant |
| Selection.FirstObjectivesOfCopies | src/jp/ohtayo/mathopt/algorithm/SimpleGeneticAlgorithm.java:236-240 | copies keep the fitness, so the pooled column is the originals' |
| Selection.RouletteSources | src/jp/ohtayo/mathopt/algorithm/SimpleGeneticAlgorithm.java:236-273 | the individual of parent plus children each slot copies, or none where the spin missed |
| Selection.RouletteSelectionMeaning | src/jp/ohtayo/mathopt/algorithm/SimpleGeneticAlgorithm.java:227-275 | selectRoulette yields one slot per draw, each a copy of an individual of parent plus children, or a placeholder where the spin missed |
| Selection.RouletteSourcesDistinct | src/jp/ohtayo/mathopt/algorithm/SimpleGeneticAlgorithm.java:258-264 | no individual is copied into two slots |
| Selection.RouletteSelectionFills | src/jp/ohtayo/mathopt/algorithm/SimpleGeneticAlgorithm.java:253-273 | with positive first objectives, draws in [0, 1) and no more slots than individuals, no placeholder is left |
| Selection.Pool | src/jp/ohtayo/mathopt/algorithm/SimpleGeneticAlgorithm.java:236-243 | parent.add(children), its fitness column and the column's ranking |
| Selection.ReadableCopies | src/jp/ohtayo/mathopt/algorithm/SimpleGeneticAlgorithm.java:236-239 | the pooled population's fitness rows can be read when the parents' and children's can |
| Selection.SelectRoulette | src/jp/ohtayo/mathopt/algorithm/SimpleGeneticAlgorithm.java:227-275 | selectRoulette returns a fresh population of (int)(n * rate) slots, each spun once on the wheel of the pool's first objectives |
| Selection.SlotsFilled | src/jp/ohtayo/mathopt/algorithm/SimpleGeneticAlgorithm.java:253-273 | agreement slot by slot from the start on is agreement with the filled sequence |
| Selection.RouletteFrom | src/jp/ohtayo/mathopt/algorithm/SimpleGeneticAlgorithm.java:247-273 | a roulette phase fills the slots from the start on and keeps the earlier ones |
| Selection.PrefixAndRest | src/jp/ohtayo/mathopt/algorithm/SimpleGeneticAlgorithm.java:253 | a sequence is its prefix followed by the rest |
| Selection.FillFrom | src/jp/ohtayo/mathopt/algorithm/SimpleGeneticAlgorithm.java:250-273 | the slots from the start on hold what their spins picked, or the placeholder, and the earlier slots are kept |
| Selection.SpinAll | src/jp/ohtayo/mathopt/algorithm/SimpleGeneticAlgorithm.java:244-273 | the sum of the column, the new generation of placeholders, the flags, and one spin per draw |
| Jgg.Wrap | src/jp/ohtayo/mathopt/algorithm/JGGUNDX.java:33-35 | a Java int expression's value is its exact value whenever that lies in int range |
| Jgg.DivExact | src/jp/ohtayo/mathopt/algorithm/JGGUNDX.java:36 | a multiple of a positive n divided by n is the multiplier |
| Jgg.MulAtMost | src/jp/ohtayo/mathopt/algorithm/JGGUNDX.java:33-35 | a negative multiplier of a positive n gives at most -n |
| Jgg.MulAtLeast | src/jp/ohtayo/mathopt/algorithm/JGGUNDX.java:33-35 | a positive multiplier of a positive n gives at least n |
| Jgg.Parameters | src/jp/ohtayo/mathopt/algorithm/JGGUNDX.java:33-36 | main's derivation fails, by the int division throwing, exactly when numberOfVariables is 0, and otherwise replaces numberOfVariables individuals |
| Jgg.ParametersInRange | src/jp/ohtayo/mathopt/algorithm/JGGUNDX.java:33-36 | for 1 <= n <= Integer.MAX_VALUE / 50 the population is 50n, the replacement count n, the children 10n and the crossover rate exactly 10 |
| Jgg.ParametersWrap | src/jp/ohtayo/mathopt/algorithm/JGGUNDX.java:33 | past Integer.MAX_VALUE / 50 variables the population size wraps around to a negative number |
| Jgg.ReplacementIndices | src/jp/ohtayo/mathopt/algorithm/JGGUNDX.java:52-53 | one replacement index per draw |
| Jgg.ReplacementInRange | src/jp/ohtayo/mathopt/algorithm/JGGUNDX.java:52-53 | draws in [0, 1) give replacement indices in [0, population size) |
| Jgg.ScaledBelow | src/jp/ohtayo/mathopt/algorithm/JGGUNDX.java:53 | one draw in [0, 1) scaled and cast gives an index in [0, p) |
| Jgg.CastBelow | src/jp/ohtayo/mathopt/algorithm/JGGUNDX.java:53 | the cast of a draw in [0, 1) times p lies in [0, p) |
| Jgg.ScaleBelow | src/jp/ohtayo/mathopt/algorithm/JGGUNDX.java:53 | a draw in [0, 1) times p >= 1 lies in [0, p) |
| Jgg.Replaced | src/jp/ohtayo/mathopt/algorithm/JGGUNDX.java:66-69 | the write-back keeps the population's size |
| Jgg.ReplacedUntouched | src/jp/ohtayo/mathopt/algorithm/JGGUNDX.java:66-69 | a slot no write names keeps its individual |
| Jgg.ReplacedLastWins | src/jp/ohtayo/mathopt/algorithm/JGGUNDX.java:66-69 | a slot named by write i and no later write holds a copy of replacement i |
| Jgg.Replace | src/jp/ohtayo/mathopt/algorithm/JGGUNDX.java:66-69 | the write-back loop leaves the population as Replaced describes |
| Jgg.ReplaceOne | src/jp/ohtayo/mathopt/algorithm/JGGUNDX.java:68 | one turn copies one replacement into its slot and keeps the other slots |
| Jgg.JggWheel | src/jp/ohtayo/mathopt/algorithm/JGGUNDX.java:136-157 | the roulette of select makes one pick per draw, each at position eliteNumber or later |
| Jgg.JggWheelUnfold | src/jp/ohtayo/mathopt/algorithm/JGGUNDX.java:136-157 | the wheel is the roulette loop started at eliteNumber with the column's sum less its first eliteNumber entries |
| Jgg.JggSpun | src/jp/ohtayo/mathopt/algorithm/JGGUNDX.java:113-157 | the roulette of select on parent plus children picks positions from eliteNumber on |
| Jgg.JggSources | src/jp/ohtayo/mathopt/algorithm/JGGUNDX.java:113-157 | each roulette slot copies an individual of parent plus children, or none where its spin missed |
| Jgg.JggWheelSum | src/jp/ohtayo/mathopt/algorithm/JGGUNDX.java:121-134 | the sum the roulette starts from is exactly the wheel's total width |
| Jgg.JggSelectionMeaning | src/jp/ohtayo/mathopt/algorithm/JGGUNDX.java:105-159 | select gives as many slots as parents; slot i below eliteNumber copies the individual ranked i-th, and every other slot copies an individual picked at eliteNumber or later, or is the placeholder where its spin missed |
| Jgg.SlotsMeaning | src/jp/ohtayo/mathopt/algorithm/JGGUNDX.java:129-157 | slot by slot, the elites then the roulette slots: a copy of the ranked individual, of the picked one, or the placeholder |
| Jgg.JggChosen | src/jp/ohtayo/mathopt/algorithm/JGGUNDX.java:129-157 | the positions select copies, elites and roulette slots together, one per slot |
| Jgg.JggChosenDistinct | src/jp/ohtayo/mathopt/algorithm/JGGUNDX.java:129-157 | no individual of parent plus children lands in two slots |
| Jgg.JggWheelDistinct | src/jp/ohtayo/mathopt/algorithm/JGGUNDX.java:140-155 | no position is picked twice by the wheel |
| Jgg.JggSelectionFills | src/jp/ohtayo/mathopt/algorithm/JGGUNDX.java:136-157 | with positive first objectives and draws in [0, 1), every roulette spin hits |
| Jgg.JggWheelFills | src/jp/ohtayo/mathopt/algorithm/JGGUNDX.java:136-157 | the wheel on a positive column hits on every draw in [0, 1) while free positions remain |
| Jgg.CopyElites | src/jp/ohtayo/mathopt/algorithm/JGGUNDX.java:129-134 | the elite loop copies the individuals ranked first into the first slots, and takes each slot's unsorted column entry out of the sum |
| Jgg.NewWithElites | src/jp/ohtayo/mathopt/algorithm/JGGUNDX.java:121-134 | placeholders everywhere, then the elites, and the sum the roulette starts from |
| Jgg.EliteAndRoulette | src/jp/ohtayo/mathopt/algorithm/JGGUNDX.java:121-157 | the elites followed by the roulette slots |
| Jgg.JggSelect | src/jp/ohtayo/mathopt/algorithm/JGGUNDX.java:105-159 | select(parent, children, eliteNumber) returns a fresh population holding JggSelection of its inputs |
| Config.FirstFailureFrom | src/jp/ohtayo/mathopt/config/ConfigMOPSO.java:39-116 | a chain of guards from one point on reports nothing exactly when every later guard passes |
| Config.FirstFailureIs | src/jp/ohtayo/mathopt/config/ConfigMOPSO.java:39-116 | when guard k is the first that fails, the chain throws with k's reason |
| Config.NoFailure | src/jp/ohtayo/mathopt/config/ConfigMOPSO.java:39-116 | a chain whose guards all pass throws nothing |
| Config.CheckMopso | src/jp/ohtayo/mathopt/config/ConfigMOPSO.java:39-116 | the MOPSO input check accepts exactly at least 2 variables, at least 3 particles, non-negative iterations and constraints, at least one objective, a function name, a trial evaluation, both bounds, as many minimum values as objectives, and epsilon and alpha in [0, 1) |
| Config.CheckMopsoInOrder | src/jp/ohtayo/mathopt/config/ConfigMOPSO.java:39-116 | the MOPSO check throws with the reason of the first failing guard in source order |
| Config.CheckGa | src/jp/ohtayo/mathopt/config/ConfigGA.java:37-91 | the GA input check accepts exactly at least one variable and one individual, non-negative iterations, a function name, a trial evaluation, both bounds, crossover and mutation rates in [0, 1], and an elite number between 0 and the population size |
| Config.CheckGaInOrder | src/jp/ohtayo/mathopt/config/ConfigGA.java:37-91 | the GA check throws with the reason of the first failing guard in source order |
| Config.CheckPso | src/jp/ohtayo/mathopt/config/ConfigPSO.java:34-90 | the PSO input check accepts exactly at least one variable and one particle, non-negative iterations, a function name, a trial evaluation, both bounds, a weight in [0, 1] and both acceleration constants in [0, 2] |
| Config.CheckPsoInOrder | src/jp/ohtayo/mathopt/config/ConfigPSO.java:34-90 | the PSO check throws with the reason of the first failing guard in source order |
| Commons.Limit | src/jp/ohtayo/mathopt/algorithm/PSO.java:146-152 | Numeric.limit keeps a value inside [min, max], leaves a value already inside unchanged, and sends one above or below to the nearer bound |
| Commons.Trunc | src/jp/ohtayo/mathopt/core/BinaryIndividual.java:35 | the Java (int) cast drops the fraction toward zero |
| Commons.DoubleToInt | src/jp/ohtayo/mathopt/algorithm/SimpleGeneticAlgorithm.java:120 | Cast.doubleToInt truncates toward zero inside the int range and saturates at Integer.MAX_VALUE and Integer.MIN_VALUE outside it |
| Commons.Round | src/jp/ohtayo/mathopt/algorithm/SimpleGeneticAlgorithm.java:114 | Math.round returns the integer within half a unit, halves rounding up |
| Commons.Zeros | src/jp/ohtayo/mathopt/core/Particle.java:30-32 | a new double array of length n holds zeros |
| Commons.ArrayCopy | src/jp/ohtayo/mathopt/core/Individual.java:31 | System.arraycopy overwrites the first len slots of the target with the source's and keeps the rest |
| Commons.ArrayCopyWhole | src/jp/ohtayo/mathopt/core/Individual.java:55 | copying a whole array of the same length yields the source |
| Commons.Range | src/jp/ohtayo/mathopt/algorithm/MOPSO.java:164 | new Vector(0, 1, n - 1) lists the indices 0 to n - 1 in order |
| Commons.MinOf | src/jp/ohtayo/mathopt/algorithm/MOPSO.java:106 | Vector.min returns an element no larger than any other |
| Commons.MaxOf | src/jp/ohtayo/mathopt/algorithm/MOPSO.java:254 | Vector.max returns an element no smaller than any other |
| Commons.IntToDouble | src/jp/ohtayo/mathopt/algorithm/MOPSO.java:106 | Cast.intToDouble keeps the length and turns every int into the same value as a double |
| Commons.MinInt | src/jp/ohtayo/mathopt/algorithm/MOPSO.java:106 | (int) Vector.min() over the ranks cast to doubles is one of the ranks and no larger than any |
| Commons.MaxInt | src/jp/ohtayo/mathopt/core/Rank.java:365 | the largest rank is one of the ranks and no smaller than any |
| Commons.MaxIntCast | src/jp/ohtayo/mathopt/core/Rank.java:365 | the largest rank is Vector.max() over the ranks cast to doubles |
| Commons.Normalize | src/jp/ohtayo/mathopt/algorithm/MOPSO.java:254 | Matrix.normalize keeps the shape and scales every row by the column bounds |
| Commons.NormalizeInUnit | src/jp/ohtayo/mathopt/algorithm/MOPSO.java:254 | with distinct bounds an entry between them lands in [0, 1], the lower bound on 0 and the upper on 1 |
| Commons.InsertIndex | src/jp/ohtayo/mathopt/algorithm/MOPSO.java:313 | inserting one more index into an ordered index list keeps it ordered and distinct and adds exactly that index |
| Commons.SortPrefix | src/jp/ohtayo/mathopt/algorithm/MOPSO.java:313 | the indices 0 to n - 1, each once, ordered by their values |
| Commons.SortIndices | src/jp/ohtayo/mathopt/algorithm/MOPSO.java:313 | Vector.sort returns a permutation of the positions ordering the values ascending, or descending for "descend" |
| Commons.SortIndicesCovers | src/jp/ohtayo/mathopt/algorithm/SimpleGeneticAlgorithm.java:200 | the sorted index list holds every position and nothing else |
| Bits.Pow2ThirtyTwo | src/jp/ohtayo/mathopt/algorithm/SimpleGeneticAlgorithm.java:129-136 | an int carries 32 bits |
| Bits.Unsigned | src/jp/ohtayo/mathopt/algorithm/SimpleGeneticAlgorithm.java:129-136 | the 32-bit pattern of an int is below 2^32 and equals a non-negative int |
| Bits.Signed | src/jp/ohtayo/mathopt/algorithm/SimpleGeneticAlgorithm.java:129-136 | every 32-bit pattern is the pattern of exactly the int it names, non-negative below 2^31 |
| Bits.Bit | src/jp/ohtayo/mathopt/algorithm/SimpleGeneticAlgorithm.java:129-136 | a bit of a pattern is 0 or 1 |
| Bits.ApplyBit | src/jp/ohtayo/mathopt/algorithm/SimpleGeneticAlgorithm.java:129-136 | and, or and xor on single bits follow their truth tables |
| Bits.Bitwise | src/jp/ohtayo/mathopt/algorithm/SimpleGeneticAlgorithm.java:129-136 | a bitwise operation on n bits stays below 2^n |
| Bits.BitwiseBit | src/jp/ohtayo/mathopt/algorithm/SimpleGeneticAlgorithm.java:129-136 | every bit of a bitwise result is the operator applied to the operands' bits at that place |
| Bits.BitsAbove | src/jp/ohtayo/mathopt/algorithm/SimpleGeneticAlgorithm.java:133 | a pattern below 2^n has no bit set at or above n |
| Bits.BitExtensionality | src/jp/ohtayo/mathopt/algorithm/SimpleGeneticAlgorithm.java:129-136 | two n-bit patterns agreeing on every bit are equal |
| Bits.DisjointSum | src/jp/ohtayo/mathopt/algorithm/SimpleGeneticAlgorithm.java:131-132 | adding two patterns with no common bit carries nothing: the sum is their or |
| Bits.AndAtMost | src/jp/ohtayo/mathopt/algorithm/SimpleGeneticAlgorithm.java:133 | x & y never exceeds y |
| Bits.JavaBitwiseBit | src/jp/ohtayo/mathopt/algorithm/SimpleGeneticAlgorithm.java:129-136 | Java's &, \| and ^ act bit by bit on the 32-bit patterns |
| Bits.JavaAdd | src/jp/ohtayo/mathopt/algorithm/SimpleGeneticAlgorithm.java:132 | Java's int + wraps modulo 2^32 |
| Bits.SameBits | src/jp/ohtayo/mathopt/algorithm/SimpleGeneticAlgorithm.java:129-136 | two ints with the same 32 bits are equal |
| Bits.ZeroBits | src/jp/ohtayo/mathopt/algorithm/SimpleGeneticAlgorithm.java:129-136 | the int with no bit set is 0 |
| Bits.BitsZero | src/jp/ohtayo/mathopt/algorithm/SimpleGeneticAlgorithm.java:129-136 | 0 has no bit set |
| Bits.MinusOneBits | src/jp/ohtayo/mathopt/algorithm/SimpleGeneticAlgorithm.java:129 | -1 has all 32 bits set, so mask ^ (-1) flips every bit of the mask |
| Bits.AllOnes | src/jp/ohtayo/mathopt/algorithm/SimpleGeneticAlgorithm.java:129 | 2^n - 1 has its low n bits set |
| Bits.DisjointJavaAdd | src/jp/ohtayo/mathopt/algorithm/SimpleGeneticAlgorithm.java:131-132 | adding the masked parts of two parents, which share no bit, is their or, with no wrap-around |
| Bits.JavaAndRange | src/jp/ohtayo/mathopt/algorithm/SimpleGeneticAlgorithm.java:133 | a chromosome and-ed with a non-negative bitmask lies between 0 and the bitmask |

## Left out

- Floating point: every Java `double` is a Dafny `real`, so NaN, infinities and rounding are not modelled. The few places where a Java result can be NaN (an evaluation that fails) are an `Option` that is `None`.
- Rank.Outweighs: the alpha test compares `t * alpha * alpha` with the squared difference, not `sqrt(t) * alpha` with its absolute value. This is the same test over the reals, but not over doubles.
- Logging: every `Logging` call is left out, including the severe-level branches at src/jp/ohtayo/mathopt/algorithm/MOPSO.java:278 and src/jp/ohtayo/mathopt/algorithm/MOPSOMultiThreadConstrain.java:358. So is the severe message in calculateBorderRank (src/jp/ohtayo/mathopt/core/Rank.java:360-362). The model keeps only the values these branches return.
- Constrained.Evaluate: the thread pool, the task submission and the `awaitTermination` timeout are left out. The model evaluates the particles one after another. It does not capture a timeout that leaves particles unevaluated.
- Objective functions (ObjectiveFunction and its subclasses) are outside the model. Evaluations are parameters: a fitness vector, and constraint values where there are any.
- Random draws (`Random`, `MersenneTwisterFast`, `Vector.shuffle`) are parameters. A shuffle is any permutation of the indices.
- Mopso.Mutate, Pso.Mutate: `Math.sqrt(iterate + 1)` is the parameter `root`, with `root > 0`.
- Commons.SortIndices: `Vector.sort` is an index sort whose order among equal values is fixed by the model's insertion sort. The library's tie order is not known.
- Commons.NormalizeRow: where the two bounds of a column coincide, the entry is left as it is. Java divides by zero there and gets NaN or an infinity, and the crowding distance would then depend on that value.
- Commons.DoubleToInt: `Cast.doubleToInt` is taken as the Java `(int)` cast on each element. It truncates toward zero and saturates at the int range.
- Particles.Particle, Individuals.Individual: Java arrays held in fields are `seq` values that methods reassign. `Particle.copy` shares the constraint array by reference. Nothing writes into that array in place, so value semantics gives the same results.
- GeneticAlgorithm.Crossover: requires `Math.round(size * rate)` to equal the parent count. For any other size Java throws (see Findings). A larger children array makes `setVariables` read past the zero matrix, which has one row per parent (src/jp/ohtayo/mathopt/core/Population.java:146-149). A smaller one makes the pair loop write past the end of the children array (src/jp/ohtayo/mathopt/algorithm/SimpleGeneticAlgorithm.java:138-139). CrossoverReady also requires an even parent count, because the loop reads `parentNumber[i+1]`.
- GeneticAlgorithm.CrossoverRated: requires a crossover rate in [0, 1], the range the GA input check enforces. A larger rate asks for more children than there are parents to pair.
- Mopso.Mutate: requires at least three particles. With fewer, the Java code splits the swarm into empty thirds and reads past them.
- Pso.Mutate: requires a non-empty swarm, because the mutation rate reads `swarm.particle[0]`.
- Constrained.Select: requires the swarm to be no larger than the global-best archive, as in every call from the driver. With a larger swarm the Java copy loop indexes past the archive.
- Jgg.JggSelect: requires `0 <= eliteNumber <= |parent|`. Other values index outside the arrays in Java.
- Individuals.EqualsBySumMeaning: requires equal lengths. With different lengths the Java loop reads past the shorter array.
- Rank.Ranking, Mopso.RankFitness, Mopso.RankCombined, Mopso.Select: require NoAlphaOverflow. The inputs where the as-written alpha rule writes past `loseIndex` throw in Java and are not modelled past that point (see Findings).
- Rank.RankingConstrained, Constrained.RankWithConstraints, Constrained.RankCombined, Constrained.Select: require NoConstrainedAlphaOverflow, for the same reason.
- Population initialisation (src/jp/ohtayo/mathopt/core/Population.java:62-104) draws random genes and is left out. Population.toString (262-270) is text output.
- The main loops of PSO, OPSO, MOPSO, MOPSOMultiThreadConstrain and OMOPSOMultiThreadConstraint are left out: they iterate the modelled steps with random draws, logging and file output. OPSO's best-fitness bookkeeping is modelled.
- Every save method, and the CSV input of initial solutions, is file I/O.
- OMOPSOMultiThreadConstraint inherits update and mutate from OMOPSO, which is not part of this model. Its evaluate and select are the ones modelled in module Constrained.
- Jgg: the UNDX crossover and the mutation of the main loop (RCGA.undx, RCGA.mutate) are not part of this model. The parameters and the write-back of the selected population are modelled.
- Selection, Jgg: the roulette takes each width from the unsorted fitness column but copies the individual at `index[j]`. This is modelled as written, and no corrected variant is given.
- Selection.PlaceholderCoding: the roulette's new population is always created real-coded, also for a binary parent. This is modelled as written.
- Config.CheckMopso takes the name of the file of initial solutions and never looks at it. Config.CheckGa takes the number of bits and never looks at it. Both are modelled that way.

## Findings

| source | as written | input that shows it | evidently intended | confidence | as-written member | corrected member |
|---|---|---|---|---|---|---|
| src/jp/ohtayo/mathopt/core/Rank.java:188-254 | `loseIndex` has room for `m - count` entries (count = objectives the target wins) but the loop stores the `m - 1` objectives other than the current winner, so with at least two wins and not all of them it writes past the end and throws | basis [1, 1, 0], target [0, 0, 1], alpha 0.5: the target wins on two of three objectives | `loseIndex` holds the objectives the target does not win, as its size `m - count` and the comments at lines 229 and 239 say, and basis is dominated unless some winning objective outweighs alpha times the distance over those objectives | not executed | Rank.AlphaAsWrittenOverflows, Rank.AlphaOverflowExample | Rank.DominatedAlphaMeaning, Rank.AlphaAsWrittenAgrees |
| src/jp/ohtayo/mathopt/core/Rank.java:93-134 | with two or more constraints the rule counts non-zero constraint values and lets the particle with more violations dominate | best with constraint values [0, 0] and current with [1, 1], equal fitness: the current particle replaces the feasible best | the particle with fewer violated constraints dominates | not executed | Rank.DominatedConstrainedAsWritten, Rank.ConstrainedRanksInverted, Particles.ViolatingStateReplacesFeasibleBest | Rank.DominatedConstrained, Rank.FeasibleDominatesInfeasible |
| src/jp/ohtayo/mathopt/core/Individual.java:95-99 | equals compares the sums of the variables | variables [0, 1] and [1, 0] compare equal | equal variables element by element | not executed | Individuals.EqualsBySumExample | Individuals.SameVariables |
| src/jp/ohtayo/mathopt/algorithm/SimpleGeneticAlgorithm.java:114 | the child population has `Math.round(n * rate)` slots, but the pair loop runs over all the parents and writes two children per pair | ten individuals with crossover rate 0.8, which the GA input check accepts: eight slots, ten children written | the children array sized from the number of parents and the crossover rate, as the comment at line 113 says, with the pair loop stopping at the last child | not executed | GeneticAlgorithm.AcceptedRateOverflows, GeneticAlgorithm.Crossover | GeneticAlgorithm.CrossoverRated |
