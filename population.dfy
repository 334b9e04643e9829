/**
 * Population.java: an array of individuals (slots start out null), with
 * matrix accessors over the individuals' variables and fitness, and the
 * concatenating, picking and copying operations the genetic algorithms use.
 */
module Populations {
  import opened Commons
  import opened Individuals

  /** The two arrays of an individual that the matrix accessors read and write. */
  datatype Field = Variable | Fitness

  function FieldOf(g: Genome, f: Field): seq<real> {
    match f
    case Variable => g.variable
    case Fitness => g.fitness
  }

  /** setVariable or setFitness of one individual with one row of the matrix. */
  function WithRow(g: Genome, f: Field, row: seq<real>): Genome
    requires |row| <= |FieldOf(g, f)|
  {
    match f
    case Variable => WithVariable(g, row)
    case Fitness => g.(fitness := ArrayCopy(row, g.fitness, |row|))
  }

  /** The row setters write the front of the one array they name and keep coded individuals coded. */
  lemma WithRowMeaning(g: Genome, f: Field, row: seq<real>)
    requires |row| <= |FieldOf(g, f)|
    ensures FieldOf(WithRow(g, f, row), f)[..|row|] == row
    ensures FieldOf(WithRow(g, f, row), f)[|row|..] == FieldOf(g, f)[|row|..]
    ensures WithRow(g, f, row).coding == g.coding
    ensures f == Variable ==> WithRow(g, f, row).fitness == g.fitness
    ensures f == Fitness ==> WithRow(g, f, row) == g.(fitness := WithRow(g, f, row).fitness)
    ensures Coded(g) ==> Coded(WithRow(g, f, row))
  {
    if f == Variable {
      WithVariableMeaning(g, row);
    } else {
      assert WithRow(g, f, row).fitness == row + g.fitness[|row|..];
    }
  }

  /** The values of copy() applied to every individual in turn. */
  function CopyAll(gs: seq<Genome>): (r: seq<Genome>)
    ensures |r| == |gs|
  {
    seq(|gs|, i requires 0 <= i < |gs| => CopyGenome(gs[i]))
  }

  /** Copies of coded individuals hold exactly their values, and are coded whatever they copy. */
  lemma CopyAllMeaning(gs: seq<Genome>)
    ensures forall i :: 0 <= i < |gs| ==> Coded(CopyAll(gs)[i])
    ensures (forall i :: 0 <= i < |gs| ==> Coded(gs[i])) ==> CopyAll(gs) == gs
  {
    forall i | 0 <= i < |gs|
      ensures Coded(CopyAll(gs)[i]) && (Coded(gs[i]) ==> CopyAll(gs)[i] == gs[i])
    {
      CopyGenomeExact(gs[i]);
    }
  }

  class Population {
    var individual: array<Individual?>

    /** Population(numberOfPopulations): that many empty slots. */
    constructor (numberOfPopulations: nat)
      ensures fresh(individual) && individual.Length == numberOfPopulations && Separate()
      ensures forall i :: 0 <= i < individual.Length ==> individual[i] == null
    {
      individual := new Individual?[numberOfPopulations](_ => null);
    }

    /** Every slot holds an individual. */
    predicate Full()
      reads this, individual
    {
      forall i :: 0 <= i < individual.Length ==> individual[i] != null
    }

    /** No individual sits in two slots (empty slots aside). */
    predicate Separate()
      reads this, individual
    {
      forall i, j :: 0 <= i < j < individual.Length && individual[i] != null ==> individual[i] != individual[j]
    }

    predicate Valid()
      reads this, individual
    {
      Full() && Separate()
    }

    /** Every slot holds an individual with v variables and m objectives. */
    predicate Shaped(v: nat, m: nat)
      reads this, individual, individual[..]
    {
      Full() && forall i :: 0 <= i < individual.Length ==>
        |individual[i].variable| == v && |individual[i].fitness| == m
    }

    /** The values held by the individuals, slot by slot. */
    function Genomes(): (r: seq<Genome>)
      requires Full()
      reads this, individual, individual[..]
      ensures |r| == individual.Length
      ensures forall i :: 0 <= i < |r| ==> r[i] == individual[i].Snapshot()
    {
      seq(individual.Length, i requires 0 <= i < individual.Length && individual[i] != null
                               reads this, individual, individual[..] => individual[i].Snapshot())
    }

    /** getNumberOfObjectives(): read from slot 0, or 0 for an empty population. */
    function NumberOfObjectives(): nat
      requires individual.Length > 0 ==> individual[0] != null
      reads this, individual, individual[..]
    {
      if individual.Length != 0 then |individual[0].fitness| else 0
    }

    /** getNumberOfVariables(): read from slot 0, or 0 for an empty population. */
    function NumberOfVariables(): nat
      requires individual.Length > 0 ==> individual[0] != null
      reads this, individual, individual[..]
    {
      if individual.Length != 0 then |individual[0].variable| else 0
    }

    /**
     * The allocation-only initialize(numberOfVariables, numberOfBits,
     * numberOfObjectives) and initialize(numberOfVariables,
     * numberOfObjectives): a fresh zero individual of the given kind in
     * every slot.
     */
    method Allocate(coding: Coding, numberOfVariables: nat, numberOfObjectives: nat)
      modifies individual
      ensures Valid() && Shaped(numberOfVariables, numberOfObjectives)
      ensures forall i :: 0 <= i < individual.Length ==> fresh(individual[i])
      ensures forall i :: 0 <= i < individual.Length ==>
        individual[i].Snapshot() == ZeroGenome(coding, numberOfVariables, numberOfObjectives)
    {
      for i := 0 to individual.Length
        invariant forall k :: 0 <= k < i ==> individual[k] != null && fresh(individual[k])
        invariant forall k :: 0 <= k < i ==>
          individual[k].Snapshot() == ZeroGenome(coding, numberOfVariables, numberOfObjectives)
        invariant forall k, l :: 0 <= k < l < i ==> individual[k] != individual[l]
      {
        if coding.BinaryCoding? {
          individual[i] := new Individual.Binary(numberOfVariables, coding.numberOfBits, numberOfObjectives);
        } else {
          individual[i] := new Individual.RealCoded(numberOfVariables, numberOfObjectives);
        }
      }
    }

    /** Every getter may run: slot 0 exists and no row is wider than its. */
    predicate Readable(f: Field)
      requires Full()
      reads this, individual, individual[..]
    {
      individual.Length > 0 &&
      forall i :: 0 <= i < individual.Length ==>
        |FieldOf(individual[i].Snapshot(), f)| <= |FieldOf(individual[0].Snapshot(), f)|
    }

    /**
     * getVariables and getFitness: an n-row matrix as wide as slot 0's array,
     * row i holding individual i's array and zeros after it.
     */
    method GetRows(f: Field) returns (matrix: seq<seq<real>>)
      requires Full() && Readable(f)
      ensures |matrix| == individual.Length
      ensures forall i :: 0 <= i < individual.Length ==>
        var row := FieldOf(individual[i].Snapshot(), f);
        var width := |FieldOf(individual[0].Snapshot(), f)|;
        |matrix[i]| == width && matrix[i][..|row|] == row &&
        forall k :: |row| <= k < width ==> matrix[i][k] == 0.0
    {
      var width := |FieldOf(individual[0].Snapshot(), f)|;
      var rows := new seq<real>[individual.Length](_ => Zeros(width));
      for i := 0 to individual.Length
        invariant forall k :: 0 <= k < i ==>
          var row := FieldOf(individual[k].Snapshot(), f);
          |rows[k]| == width && rows[k][..|row|] == row &&
          forall c :: |row| <= c < width ==> rows[k][c] == 0.0
      {
        var row := FieldOf(individual[i].Snapshot(), f);
        rows[i] := ArrayCopy(row, Zeros(width), |row|);
      }
      matrix := rows[..];
    }

    /**
     * setVariables and setFitness: row i goes through individual i's
     * setVariable or setFitness; no other individual changes.
     */
    method SetRows(f: Field, matrix: seq<seq<real>>, ghost gs: seq<Genome>)
      requires Valid() && gs == Genomes() && |matrix| >= |gs|
      requires forall i :: 0 <= i < |gs| ==> |matrix[i]| <= |FieldOf(gs[i], f)|
      modifies individual[..]
      ensures forall i :: 0 <= i < |gs| ==> individual[i].Snapshot() == WithRow(gs[i], f, matrix[i])
    {
      for i := 0 to individual.Length
        invariant forall k :: i <= k < |gs| ==> individual[k].Snapshot() == gs[k]
        invariant forall k :: 0 <= k < i ==> individual[k].Snapshot() == WithRow(gs[k], f, matrix[k])
      {
        var p := individual[i];
        assert p.Snapshot() == gs[i];
        match f {
          case Variable => p.SetVariable(matrix[i]);
          case Fitness => p.SetFitness(matrix[i]);
        }
        assert forall k :: 0 <= k < |gs| && k != i ==> individual[k] != p;
      }
    }

    /**
     * evaluate(name): the objective function's answer for individual i,
     * results[i], becomes its fitness array; nothing else changes.
     */
    method Evaluate(results: seq<seq<real>>, ghost gs: seq<Genome>)
      requires Valid() && gs == Genomes() && |results| >= |gs|
      modifies individual[..]
      ensures forall i :: 0 <= i < |gs| ==> individual[i].Snapshot() == gs[i].(fitness := results[i])
    {
      for i := 0 to individual.Length
        invariant forall k :: i <= k < |gs| ==> individual[k].Snapshot() == gs[k]
        invariant forall k :: 0 <= k < i ==> individual[k].Snapshot() == gs[k].(fitness := results[k])
      {
        var p := individual[i];
        p.Evaluate(results[i]);
        assert forall k :: 0 <= k < |gs| && k != i ==> individual[k] != p;
      }
    }

    /** One step of the copying loops: slot i takes a fresh copy of p. */
    method PutCopy(i: int, p: Individual)
      requires 0 <= i < individual.Length && Separate()
      modifies individual
      ensures Separate()
      ensures individual[i] != null && fresh(individual[i]) && individual[i].Snapshot() == CopyGenome(old(p.Snapshot()))
      ensures forall k :: 0 <= k < individual.Length && k != i ==> individual[k] == old(individual[k])
    {
      individual[i] := p.Copy();
    }

    /**
     * The copying loop of add and copy(basis): slots offset .. offset+n-1
     * take fresh copies of the n individuals of src (values ss) in order,
     * and every other slot keeps what it held, possibly null.
     */
    method CopyIn(offset: nat, src: Population, ghost ss: seq<Genome>)
      requires Separate() && src.Full() && src.individual != individual && ss == src.Genomes()
      requires offset + |ss| <= individual.Length
      modifies individual
      ensures Separate()
      ensures forall k :: 0 <= k < individual.Length && !(offset <= k < offset + |ss|) ==>
        individual[k] == old(individual[k])
      ensures forall k :: offset <= k < offset + |ss| ==>
        individual[k] != null && fresh(individual[k]) && individual[k].Snapshot() == CopyGenome(ss[k - offset])
    {
      for i := 0 to src.individual.Length
        invariant Separate()
        invariant forall k :: 0 <= k < individual.Length && !(offset <= k < offset + i) ==>
          individual[k] == old(individual[k])
        invariant forall k :: offset <= k < offset + i ==>
          individual[k] != null && fresh(individual[k]) && individual[k].Snapshot() == CopyGenome(ss[k - offset])
      {
        PutCopy(offset + i, src.individual[i]);
      }
    }

    /**
     * The two copying loops of add: the slots take fresh copies of basis's
     * individuals (values bs), then of target's (values ts).
     */
    method Concatenate(basis: Population, target: Population, ghost bs: seq<Genome>, ghost ts: seq<Genome>)
      requires Separate() && individual.Length == |bs| + |ts|
      requires basis.Full() && target.Full() && basis.individual != individual && target.individual != individual
      requires bs == basis.Genomes() && ts == target.Genomes()
      modifies individual
      ensures Valid()
      ensures forall k :: 0 <= k < individual.Length ==> fresh(individual[k])
      ensures forall k :: 0 <= k < |bs| + |ts| ==> individual[k].Snapshot() == CopyGenome((bs + ts)[k])
    {
      CopyIn(0, basis, bs);
      label Basis:
      CopyIn(basis.individual.Length, target, ts);
      forall k | 0 <= k < |bs| + |ts|
        ensures individual[k].Snapshot() == CopyGenome((bs + ts)[k])
      {
        if k < |bs| {
          var p := individual[k];
          assert p == old@Basis(individual[k]);
          assert p.Snapshot() == old@Basis(p.Snapshot());
        } else {
          assert (bs + ts)[k] == ts[k - |bs|];
        }
      }
    }

    /** add(target): a new population of copies of this one's individuals followed by copies of target's. */
    method Add(target: Population) returns (result: Population)
      requires Full() && target.Full()
      ensures fresh(result) && fresh(result.individual) && result.Valid()
      ensures forall k :: 0 <= k < result.individual.Length ==> fresh(result.individual[k])
      ensures result.Genomes() == CopyAll(Genomes() + target.Genomes())
    {
      ghost var bs, ts := Genomes(), target.Genomes();
      result := new Population(individual.Length + target.individual.Length);
      result.Concatenate(this, target, bs, ts);
      assert forall k :: 0 <= k < |bs| + |ts| ==> result.Genomes()[k] == CopyAll(bs + ts)[k];
    }

    /**
     * picup(index): a new population with one slot per entry of index; slot
     * i holds a fresh copy of individual index[i] when that is a slot of
     * this population and stays null otherwise.
     */
    method Picup(index: seq<int>) returns (result: Population)
      requires Full()
      ensures fresh(result) && fresh(result.individual) && result.individual.Length == |index|
      ensures forall i :: 0 <= i < |index| && !(0 <= index[i] < individual.Length) ==> result.individual[i] == null
      ensures forall i :: 0 <= i < |index| && 0 <= index[i] < individual.Length ==>
        result.individual[i] != null && fresh(result.individual[i]) &&
        result.individual[i].Snapshot() == CopyGenome(individual[index[i]].Snapshot())
    {
      result := new Population(|index|);
      var slots := result.individual;
      for i := 0 to |index|
        invariant result.individual == slots
        invariant forall k :: 0 <= k < i && !(0 <= index[k] < individual.Length) ==> slots[k] == null
        invariant forall k :: 0 <= k < i && 0 <= index[k] < individual.Length ==>
          slots[k] != null && fresh(slots[k]) && slots[k].Snapshot() == CopyGenome(individual[index[k]].Snapshot())
        invariant forall k :: i <= k < |index| ==> slots[k] == null
      {
        for j := 0 to individual.Length
          invariant result.individual == slots
          invariant slots[i] == null && !(0 <= index[i] < j)
        {
          if j == index[i] {
            slots[i] := individual[j].Copy();
            break;
          }
        }
      }
    }

    /**
     * copy(basis): slots 0 .. basis.length-1 take fresh copies of basis's
     * individuals, the other slots keep theirs.
     */
    method CopyFrom(basis: Population, ghost bs: seq<Genome>)
      requires Valid() && basis.Full() && basis.individual != individual && bs == basis.Genomes()
      requires |bs| <= individual.Length
      modifies individual
      ensures Valid()
      ensures forall k :: |bs| <= k < individual.Length ==> individual[k] == old(individual[k])
      ensures forall k :: 0 <= k < |bs| ==> fresh(individual[k]) && individual[k].Snapshot() == CopyGenome(bs[k])
    {
      CopyIn(0, basis, bs);
    }

    /**
     * copy(): every slot of this same population takes a fresh copy of its
     * own individual, and the population itself is returned.
     */
    method Copy(ghost gs: seq<Genome>) returns (result: Population)
      requires Valid() && gs == Genomes()
      modifies individual
      ensures result == this && Valid()
      ensures forall k :: 0 <= k < individual.Length ==> fresh(individual[k])
      ensures Genomes() == CopyAll(gs)
    {
      result := this;
      for i := 0 to individual.Length
        invariant Separate()
        invariant forall k :: i <= k < |gs| ==> individual[k] == old(individual[k])
        invariant forall k :: 0 <= k < i ==>
          individual[k] != null && fresh(individual[k]) && individual[k].Snapshot() == CopyGenome(gs[k])
      {
        PutCopy(i, individual[i]);
      }
      assert forall k :: 0 <= k < |gs| ==> Genomes()[k] == CopyAll(gs)[k];
    }
  }

  /** Two different slots of a valid population hold two different individuals. */
  lemma SlotsApart(p: Population, i: int, j: int)
    requires p.Valid() && 0 <= i < p.individual.Length && 0 <= j < p.individual.Length && i != j
    ensures p.individual[i] != p.individual[j]
  {
  }

  /** The arity getters read slot 0, which for a uniformly shaped population is every individual's arity. */
  lemma ArityOfShaped(p: Population, v: nat, m: nat)
    requires p.Shaped(v, m)
    ensures p.NumberOfVariables() == (if p.individual.Length == 0 then 0 else v)
    ensures p.NumberOfObjectives() == (if p.individual.Length == 0 then 0 else m)
  {
  }
}
