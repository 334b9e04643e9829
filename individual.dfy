/**
 * Individual.java, RealCodedIndividual.java and BinaryIndividual.java: one
 * individual of a genetic algorithm. The abstract class and its two
 * subclasses are one class whose constant `coding` says which subclass an
 * object is; the overridden setVariable and the two copy methods dispatch on
 * it. The Java arrays are sequences the methods reassign: getVariable and
 * getChromosome hand out the arrays themselves, but every caller in the
 * algorithms either only reads them or writes them back through setVariable
 * or setChromosome, which is the same as passing the values.
 */
module Individuals {
  import opened Commons

  /** RealCodedIndividual, or BinaryIndividual with its numberOfBits. */
  datatype Coding = RealCoding | BinaryCoding(numberOfBits: nat)

  /** The fields of an individual as one value; a real-coded one has no chromosome. */
  datatype Genome = Genome(coding: Coding, variable: seq<real>, fitness: seq<real>, chromosome: seq<Int32>)

  // ---------------------------------------------------------------------------
  // Binary coding against 2^bits - 1
  // ---------------------------------------------------------------------------

  /** Math.pow(2, numberOfBits) - 1: the chromosome value that codes the variable 1. */
  function Scale(bits: nat): (r: real)
    ensures r >= 0.0
    ensures bits >= 1 ==> r >= 1.0
  {
    (Pow2(bits) - 1) as real
  }

  /**
   * The bitmask field, (int)(Math.pow(2, numberOfBits) - 1): the cast
   * saturates, so from 31 bits on it is Integer.MAX_VALUE.
   */
  function Bitmask(bits: nat): (r: Int32)
    ensures 0 <= r && r as real <= Scale(bits)
    ensures bits >= 1 ==> r >= 1
  {
    DoubleToInt(Scale(bits))
  }

  lemma {:induction false} Pow2Monotone(j: nat, k: nat)
    requires j <= k
    ensures Pow2(j) <= Pow2(k)
    decreases k
  {
    if j < k {
      Pow2Monotone(j, k - 1);
    }
  }

  /** Up to 31 bits the cast is exact: the bitmask has exactly the low `bits` bits set. */
  lemma BitmaskExact(bits: nat)
    requires bits <= 31
    ensures Bitmask(bits) == Pow2(bits) - 1
    ensures Bitmask(bits) as real == Scale(bits)
  {
    Pow2Monotone(bits, 31);
    Pow2ThirtyOne();
  }

  lemma {:induction false} Pow2Sum(a: nat, b: nat)
    ensures Pow2(a + b) == Pow2(a) * Pow2(b)
    decreases b
  {
    if b > 0 {
      Pow2Sum(a, b - 1);
    }
  }

  /** 2^31, one more than Integer.MAX_VALUE. */
  lemma Pow2ThirtyOne()
    ensures Pow2(31) == IntMax + 1
  {
    assert Pow2(4) == 16;
    Pow2Sum(4, 4);
    assert Pow2(8) == 256;
    Pow2Sum(8, 8);
    assert Pow2(16) == 65536;
    Pow2Sum(16, 8);
    assert Pow2(24) == 16777216;
    Pow2Sum(24, 4);
    assert Pow2(28) == 268435456;
    assert Pow2(3) == 8;
    Pow2Sum(28, 3);
  }

  /** One gene of coding(): the variable multiplied by 2^bits - 1 and cast to int. */
  function CodeGene(v: real, bits: nat): Int32 {
    DoubleToInt(v * Scale(bits))
  }

  /** One gene of decoding(): the entry cast to double and divided by 2^bits - 1. */
  function DecodeGene(c: Int32, bits: nat): real
    requires bits >= 1
  {
    c as real / Scale(bits)
  }

  /** coding(): Cast.doubleToInt of the variables times 2^bits - 1. */
  function Code(variable: seq<real>, bits: nat): (r: seq<Int32>)
    ensures |r| == |variable|
  {
    seq(|variable|, i requires 0 <= i < |variable| => CodeGene(variable[i], bits))
  }

  /** decoding(): the chromosome as doubles divided by 2^bits - 1. */
  function Decode(chromosome: seq<Int32>, bits: nat): (r: seq<real>)
    requires bits >= 1
    ensures |r| == |chromosome|
  {
    seq(|chromosome|, i requires 0 <= i < |chromosome| => DecodeGene(chromosome[i], bits))
  }

  /** Casting an int to double and back gives the int. */
  lemma WholeCast(n: Int32)
    ensures DoubleToInt(n as real) == n
  {
  }

  /** Between 0 and Integer.MAX_VALUE the cast is the floor. */
  lemma CastFloor(x: real)
    requires 0.0 <= x <= IntMax as real
    ensures 0 <= DoubleToInt(x) && DoubleToInt(x) as real <= x < DoubleToInt(x) as real + 1.0
  {
  }

  /** The cast never reverses an order and keeps non-negative values non-negative. */
  lemma CastMonotone(x: real, y: real)
    requires 0.0 <= x <= y
    ensures 0 <= DoubleToInt(x) <= DoubleToInt(y)
  {
  }

  /** Coding a decoded gene gives the gene back. */
  lemma CodeDecodeGene(c: Int32, bits: nat)
    requires bits >= 1
    ensures CodeGene(DecodeGene(c, bits), bits) == c
  {
    var s := Scale(bits);
    assert c as real / s * s == c as real;
    WholeCast(c);
  }

  /** Decoding an int chromosome and coding the result gives the chromosome back. */
  lemma CodeDecode(chromosome: seq<Int32>, bits: nat)
    requires bits >= 1
    ensures Code(Decode(chromosome, bits), bits) == chromosome
  {
    var d := Decode(chromosome, bits);
    forall i | 0 <= i < |chromosome|
      ensures Code(d, bits)[i] == chromosome[i]
    {
      CodeDecodeGene(chromosome[i], bits);
    }
  }

  /** Chromosome entries between 0 and the bitmask decode to variables between 0 and 1. */
  lemma DecodeInUnit(chromosome: seq<Int32>, bits: nat)
    requires bits >= 1
    requires forall i :: 0 <= i < |chromosome| ==> 0 <= chromosome[i] <= Bitmask(bits)
    ensures forall i :: 0 <= i < |chromosome| ==> 0.0 <= Decode(chromosome, bits)[i] <= 1.0
  {
    var s := Scale(bits);
    forall i | 0 <= i < |chromosome|
      ensures 0.0 <= Decode(chromosome, bits)[i] <= 1.0
    {
      var c := chromosome[i] as real;
      assert c <= s;
      QuotientAtMostOne(c, s);
    }
  }

  lemma QuotientAtMostOne(c: real, s: real)
    requires 0.0 <= c <= s && s > 0.0
    ensures 0.0 <= c / s <= 1.0
  {
  }

  /** A variable between 0 and 1 codes to a gene between 0 and the bitmask. */
  lemma CodeGeneInRange(v: real, bits: nat)
    requires 0.0 <= v <= 1.0
    ensures 0 <= CodeGene(v, bits) <= Bitmask(bits)
  {
    var s := Scale(bits);
    ScaledAtMost(v, s);
    CastMonotone(v * s, s);
  }

  /** Variables between 0 and 1 code to entries between 0 and the bitmask. */
  lemma CodeInRange(variable: seq<real>, bits: nat)
    requires forall i :: 0 <= i < |variable| ==> 0.0 <= variable[i] <= 1.0
    ensures forall i :: 0 <= i < |variable| ==> 0 <= Code(variable, bits)[i] <= Bitmask(bits)
  {
    forall i | 0 <= i < |variable|
      ensures 0 <= Code(variable, bits)[i] <= Bitmask(bits)
    {
      CodeGeneInRange(variable[i], bits);
    }
  }

  lemma ScaledAtMost(v: real, s: real)
    requires 0.0 <= v <= 1.0 && 0.0 <= s
    ensures 0.0 <= v * s <= s
  {
  }

  /** Up to 31 bits a gene is the floor of the scaled variable, so decoding it loses less than one step. */
  lemma CodeGeneQuantum(v: real, bits: nat)
    requires 1 <= bits <= 31 && 0.0 <= v <= 1.0
    ensures DecodeGene(CodeGene(v, bits), bits) <= v < DecodeGene(CodeGene(v, bits), bits) + 1.0 / Scale(bits)
  {
    var s := Scale(bits);
    BitmaskExact(bits);
    ScaledAtMost(v, s);
    QuantumBounds(v, s, CodeGene(v, bits));
  }

  lemma QuantumBounds(v: real, s: real, c: Int32)
    requires s > 0.0 && 0.0 <= v * s <= IntMax as real && c == DoubleToInt(v * s)
    ensures c as real / s <= v < c as real / s + 1.0 / s
  {
    CastFloor(v * s);
    DivideBounds(c as real, v, s);
  }

  /**
   * Up to 31 bits coding truncates: a variable between 0 and 1 decodes back
   * to at most itself and less than one step 1 / (2^bits - 1) below it.
   */
  lemma CodeQuantum(variable: seq<real>, bits: nat)
    requires 1 <= bits <= 31
    requires forall i :: 0 <= i < |variable| ==> 0.0 <= variable[i] <= 1.0
    ensures forall i :: 0 <= i < |variable| ==>
      Decode(Code(variable, bits), bits)[i] <= variable[i] < Decode(Code(variable, bits), bits)[i] + 1.0 / Scale(bits)
  {
    forall i | 0 <= i < |variable|
      ensures Decode(Code(variable, bits), bits)[i] <= variable[i] < Decode(Code(variable, bits), bits)[i] + 1.0 / Scale(bits)
    {
      CodeGeneQuantum(variable[i], bits);
    }
  }

  lemma DivideBounds(c: real, v: real, s: real)
    requires s > 0.0 && c <= v * s < c + 1.0
    ensures c / s <= v < c / s + 1.0 / s
  {
    assert c / s * s == c;
    assert (c + 1.0) / s * s == c + 1.0;
    assert c / s + 1.0 / s == (c + 1.0) / s;
  }

  // ---------------------------------------------------------------------------
  // The operations on values
  // ---------------------------------------------------------------------------

  /**
   * The constructors: zero arrays of numberOfVariables and numberOfObjectives
   * entries, and for a BinaryIndividual a zero chromosome as long as the
   * variables.
   */
  function ZeroGenome(coding: Coding, numberOfVariables: nat, numberOfObjectives: nat): Genome {
    Genome(coding, Zeros(numberOfVariables), Zeros(numberOfObjectives),
           if coding.BinaryCoding? then seq(numberOfVariables, _ => 0) else [])
  }

  /** A BinaryIndividual's chromosome is the coding of its variables; a RealCodedIndividual has none. */
  predicate Coded(g: Genome) {
    match g.coding
    case RealCoding => g.chromosome == []
    case BinaryCoding(bits) => g.chromosome == Code(g.variable, bits)
  }

  /** A new individual is coded: the zero chromosome codes the zero variables. */
  lemma ZeroGenomeCoded(coding: Coding, numberOfVariables: nat, numberOfObjectives: nat)
    ensures Coded(ZeroGenome(coding, numberOfVariables, numberOfObjectives))
    ensures |ZeroGenome(coding, numberOfVariables, numberOfObjectives).variable| == numberOfVariables
    ensures |ZeroGenome(coding, numberOfVariables, numberOfObjectives).fitness| == numberOfObjectives
  {
    var g := ZeroGenome(coding, numberOfVariables, numberOfObjectives);
    if coding.BinaryCoding? {
      assert forall i :: 0 <= i < numberOfVariables ==> Code(g.variable, coding.numberOfBits)[i] == 0;
    }
  }

  /** setVariable: value over the front of variable; a BinaryIndividual then recodes its chromosome. */
  function WithVariable(g: Genome, value: seq<real>): Genome
    requires |value| <= |g.variable|
  {
    var v := ArrayCopy(value, g.variable, |value|);
    g.(variable := v, chromosome := if g.coding.BinaryCoding? then Code(v, g.coding.numberOfBits) else g.chromosome)
  }

  /**
   * setVariable writes the front of the variables and keeps the rest and the
   * fitness; afterwards the chromosome codes the new variables.
   */
  lemma WithVariableMeaning(g: Genome, value: seq<real>)
    requires |value| <= |g.variable|
    ensures WithVariable(g, value).variable[..|value|] == value
    ensures WithVariable(g, value).variable[|value|..] == g.variable[|value|..]
    ensures WithVariable(g, value).coding == g.coding && WithVariable(g, value).fitness == g.fitness
    ensures Coded(g) ==> Coded(WithVariable(g, value))
    ensures |value| == |g.variable| ==> WithVariable(g, value).variable == value
  {
    var v := WithVariable(g, value).variable;
    assert v == value + g.variable[|value|..];
  }

  /** setChromosome: value over the front of the chromosome, then the variables are decoded from it. */
  function WithChromosome(g: Genome, value: seq<Int32>): Genome
    requires g.coding.BinaryCoding? && g.coding.numberOfBits >= 1 && |value| <= |g.chromosome|
  {
    var c := ArrayCopy(value, g.chromosome, |value|);
    g.(chromosome := c, variable := Decode(c, g.coding.numberOfBits))
  }

  /**
   * setChromosome writes the front of the chromosome and keeps the rest and
   * the fitness; the new variables are coded by the new chromosome, and lie
   * between 0 and 1 when its entries lie between 0 and the bitmask.
   */
  lemma WithChromosomeMeaning(g: Genome, value: seq<Int32>)
    requires g.coding.BinaryCoding? && g.coding.numberOfBits >= 1 && |value| <= |g.chromosome|
    ensures WithChromosome(g, value).chromosome[..|value|] == value
    ensures WithChromosome(g, value).chromosome[|value|..] == g.chromosome[|value|..]
    ensures WithChromosome(g, value).coding == g.coding && WithChromosome(g, value).fitness == g.fitness
    ensures Coded(WithChromosome(g, value))
    ensures (forall i :: 0 <= i < |WithChromosome(g, value).chromosome| ==>
               0 <= WithChromosome(g, value).chromosome[i] <= Bitmask(g.coding.numberOfBits)) ==>
      forall i :: 0 <= i < |WithChromosome(g, value).variable| ==> 0.0 <= WithChromosome(g, value).variable[i] <= 1.0
  {
    var r := WithChromosome(g, value);
    assert r.chromosome == value + g.chromosome[|value|..];
    CodeDecode(r.chromosome, g.coding.numberOfBits);
    if forall i :: 0 <= i < |r.chromosome| ==> 0 <= r.chromosome[i] <= Bitmask(g.coding.numberOfBits) {
      DecodeInUnit(r.chromosome, g.coding.numberOfBits);
    }
  }

  /** copy(Individual i): i's variables through this object's setVariable, then i's fitness over the front. */
  function CopiedFrom(g: Genome, source: Genome): Genome
    requires |source.variable| <= |g.variable| && |source.fitness| <= |g.fitness|
  {
    WithVariable(g, source.variable).(fitness := ArrayCopy(source.fitness, g.fitness, |source.fitness|))
  }

  /**
   * Between individuals of the same shape, copy(Individual) makes this one's
   * variables and fitness equal to the source's and keeps it coded, whatever
   * the source's kind.
   */
  lemma CopiedFromSameShape(g: Genome, source: Genome)
    requires |source.variable| == |g.variable| && |source.fitness| == |g.fitness|
    ensures CopiedFrom(g, source).variable == source.variable
    ensures CopiedFrom(g, source).fitness == source.fitness
    ensures CopiedFrom(g, source).coding == g.coding
    ensures Coded(g) ==> Coded(CopiedFrom(g, source))
  {
    WithVariableMeaning(g, source.variable);
    ArrayCopyWhole(source.fitness, g.fitness);
  }

  /**
   * copy(): a new individual of the same kind and shape with the same
   * variables and fitness; a binary copy has its chromosome recoded from the
   * variables rather than copied.
   */
  function CopyGenome(g: Genome): Genome {
    g.(chromosome := if g.coding.BinaryCoding? then Code(g.variable, g.coding.numberOfBits) else [])
  }

  /** A copy is coded, and a coded individual's copy holds exactly its values. */
  lemma CopyGenomeExact(g: Genome)
    ensures Coded(CopyGenome(g))
    ensures Coded(g) ==> CopyGenome(g) == g
    ensures CopyGenome(CopyGenome(g)) == CopyGenome(g)
  {
  }

  // ---------------------------------------------------------------------------
  // The class
  // ---------------------------------------------------------------------------

  class Individual {
    const coding: Coding
    var variable: seq<real>
    var fitness: seq<real>
    var chromosome: seq<Int32>

    function Snapshot(): Genome
      reads this
    {
      Genome(coding, variable, fitness, chromosome)
    }

    /** RealCodedIndividual(numberOfVariables, numberOfObjectives). */
    constructor RealCoded(numberOfVariables: nat, numberOfObjectives: nat)
      ensures Snapshot() == ZeroGenome(RealCoding, numberOfVariables, numberOfObjectives)
    {
      coding := RealCoding;
      variable := Zeros(numberOfVariables);
      fitness := Zeros(numberOfObjectives);
      chromosome := [];
    }

    /** BinaryIndividual(numberOfVariables, numberOfBits, numberOfObjectives). */
    constructor Binary(numberOfVariables: nat, numberOfBits: nat, numberOfObjectives: nat)
      ensures Snapshot() == ZeroGenome(BinaryCoding(numberOfBits), numberOfVariables, numberOfObjectives)
    {
      coding := BinaryCoding(numberOfBits);
      variable := Zeros(numberOfVariables);
      chromosome := seq(numberOfVariables, _ => 0);
      fitness := Zeros(numberOfObjectives);
    }

    /** coding() of a BinaryIndividual: a new chromosome coding the variables. */
    method CodeVariables()
      requires coding.BinaryCoding?
      modifies this
      ensures Snapshot() == old(Snapshot()).(chromosome := Code(variable, coding.numberOfBits))
    {
      chromosome := Code(variable, coding.numberOfBits);
    }

    /** decoding() of a BinaryIndividual: new variables decoded from the chromosome. */
    method DecodeChromosome()
      requires coding.BinaryCoding? && coding.numberOfBits >= 1
      modifies this
      ensures Snapshot() == old(Snapshot()).(variable := Decode(chromosome, coding.numberOfBits))
    {
      variable := Decode(chromosome, coding.numberOfBits);
    }

    /** setVariable(value), Individual's and BinaryIndividual's override. */
    method SetVariable(value: seq<real>)
      requires |value| <= |variable|
      modifies this
      ensures Snapshot() == WithVariable(old(Snapshot()), value)
    {
      variable := ArrayCopy(value, variable, |value|);
      if coding.BinaryCoding? {
        CodeVariables();
      }
    }

    /** setFitness(value): value over the front of fitness. */
    method SetFitness(value: seq<real>)
      requires |value| <= |fitness|
      modifies this
      ensures Snapshot() == old(Snapshot()).(fitness := ArrayCopy(value, old(fitness), |value|))
    {
      fitness := ArrayCopy(value, fitness, |value|);
    }

    /** setChromosome(value) of a BinaryIndividual. */
    method SetChromosome(value: seq<Int32>)
      requires coding.BinaryCoding? && coding.numberOfBits >= 1 && |value| <= |chromosome|
      modifies this
      ensures Snapshot() == WithChromosome(old(Snapshot()), value)
    {
      chromosome := ArrayCopy(value, chromosome, |value|);
      DecodeChromosome();
    }

    /** evaluate(name): the objective function's answer for the variables becomes the fitness array. */
    method Evaluate(result: seq<real>)
      modifies this
      ensures Snapshot() == old(Snapshot()).(fitness := result)
    {
      fitness := result;
    }

    /** copy(Individual i) of both subclasses. */
    method CopyFrom(i: Individual)
      requires |i.variable| <= |variable| && |i.fitness| <= |fitness|
      modifies this
      ensures Snapshot() == CopiedFrom(old(Snapshot()), old(i.Snapshot()))
    {
      var source := i.fitness;
      SetVariable(i.variable);
      fitness := ArrayCopy(source, fitness, |source|);
    }

    /** copy() of both subclasses: a fresh individual of this one's kind and shape. */
    method Copy() returns (result: Individual)
      ensures fresh(result)
      ensures result.Snapshot() == CopyGenome(Snapshot())
    {
      if coding.BinaryCoding? {
        result := new Individual.Binary(|variable|, coding.numberOfBits, |fitness|);
      } else {
        result := new Individual.RealCoded(|variable|, |fitness|);
      }
      result.SetVariable(variable);
      result.fitness := ArrayCopy(fitness, result.fitness, |fitness|);
      ArrayCopyWhole(variable, Zeros(|variable|));
      ArrayCopyWhole(fitness, Zeros(|fitness|));
    }
  }

  // ---------------------------------------------------------------------------
  // equals and toString
  // ---------------------------------------------------------------------------

  function Differences(a: seq<real>, b: seq<real>): (r: seq<real>)
    requires |a| == |b|
    ensures |r| == |a| && forall i :: 0 <= i < |a| ==> r[i] == a[i] - b[i]
  {
    seq(|a|, i requires 0 <= i < |a| => a[i] - b[i])
  }

  /** equals(individual) as written: the differences of the two variable arrays sum to zero. */
  predicate EqualsBySum(a: seq<real>, b: seq<real>)
    requires |a| == |b|
  {
    Sum(Differences(a, b)) == 0.0
  }

  lemma {:induction false} SumDifferences(a: seq<real>, b: seq<real>)
    requires |a| == |b|
    ensures Sum(Differences(a, b)) == Sum(a) - Sum(b)
    decreases |a|
  {
    if |a| > 0 {
      var n := |a| - 1;
      assert Differences(a, b)[..n] == Differences(a[..n], b[..n]);
      SumDifferences(a[..n], b[..n]);
    }
  }

  /** equals as written holds exactly when the two variable arrays have the same sum. */
  lemma EqualsBySumMeaning(a: seq<real>, b: seq<real>)
    requires |a| == |b|
    ensures EqualsBySum(a, b) <==> Sum(a) == Sum(b)
    ensures EqualsBySum(a, a)
  {
    SumDifferences(a, b);
    SumDifferences(a, a);
  }

  /** Two different variable arrays that equals as written calls equal. */
  lemma EqualsBySumExample()
    ensures EqualsBySum([1.0, 0.0], [0.0, 1.0]) && [1.0, 0.0] != [0.0, 1.0]
  {
    var a, b := [1.0, 0.0], [0.0, 1.0];
    EqualsBySumMeaning(a, b);
    assert a[..1] == [1.0] && b[..1] == [0.0];
    assert [1.0][..0] == [] && [0.0][..0] == [];
  }

  /** equals as its comment describes it: the variables agree entry by entry. */
  function SameVariables(a: seq<real>, b: seq<real>): (r: bool)
    ensures r <==> a == b
  {
    if |a| != |b| then false
    else if a == [] then true
    else a[0] == b[0] && SameVariables(a[1..], b[1..])
  }

  const Separator: string := "==========================\r\n"

  /** Each value written out and followed by a space. */
  function Spaced<T>(xs: seq<T>, show: T -> string): string {
    if xs == [] then "" else show(xs[0]) + " " + Spaced(xs[1..], show)
  }

  /**
   * toString of both subclasses, with the formatting of doubles, ints and
   * vectors given as parameters: a separator line, the variables, a binary
   * individual's chromosome, the fitness and a closing separator line.
   */
  function Describe(g: Genome, showReal: real -> string, showInt: Int32 -> string,
                    showVector: seq<real> -> string): (r: string)
    ensures |r| >= 2 * |Separator|
    ensures r[..|Separator|] == Separator && r[|r| - |Separator|..] == Separator
    ensures r[|Separator|..|Separator| + 10] == "variable: "
  {
    var chromosomeLine := if g.coding.BinaryCoding? then "chromosome: " + Spaced(g.chromosome, showInt) + "\r\n" else "";
    var body := "variable: " + Spaced(g.variable, showReal) + "\r\n" + chromosomeLine
                + "Fitness = " + showVector(g.fitness) + "\r\n";
    assert (Separator + body + Separator)[|Separator|..|Separator| + 10] == body[..10];
    Separator + body + Separator
  }
}
