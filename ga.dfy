/**
 * SimpleGeneticAlgorithm.java: uniform bit-mask crossover of binary-coded
 * parents, gene-replacing mutation, elite selection and roulette selection
 * without replacement. Every random draw is a parameter.
 */
module GeneticAlgorithm {
  import opened Commons
  import opened Individuals
  import opened Populations
  import opened Bits
  import opened Config

  // ---------------------------------------------------------------------------
  // crossover, one gene: mask & A plus ~mask & B, kept to the bitmask
  // ---------------------------------------------------------------------------

  /** mask ^ (-1): the mask with every bit flipped. */
  function Inverse(mask: Int32): Int32 {
    JavaBitwise(Xor, mask, -1)
  }

  /** chromosome0[j]: (mask & a) + (maskInverse & b), and-ed with the bitmask. */
  function ChildGene0(mask: Int32, a: Int32, b: Int32, bitmask: Int32): Int32 {
    JavaBitwise(And, JavaAdd(JavaBitwise(And, mask, a), JavaBitwise(And, Inverse(mask), b)), bitmask)
  }

  /** chromosome1[j]: (maskInverse & a) + (mask & b), and-ed with the bitmask. */
  function ChildGene1(mask: Int32, a: Int32, b: Int32, bitmask: Int32): Int32 {
    JavaBitwise(And, JavaAdd(JavaBitwise(And, Inverse(mask), a), JavaBitwise(And, mask, b)), bitmask)
  }

  lemma InverseBits(mask: Int32, k: nat)
    requires k < 32
    ensures Bit(Unsigned(Inverse(mask)), k) == 1 - Bit(Unsigned(mask), k)
  {
    MinusOneBits(k);
    JavaBitwiseBit(Xor, mask, -1, k);
  }

  /** The two masked terms share no set bit, so adding them is or-ing them. */
  lemma MaskedSumIsOr(mask: Int32, a: Int32, b: Int32)
    ensures JavaAdd(JavaBitwise(And, mask, a), JavaBitwise(And, Inverse(mask), b)) ==
            JavaBitwise(Or, JavaBitwise(And, mask, a), JavaBitwise(And, Inverse(mask), b))
    ensures JavaAdd(JavaBitwise(And, Inverse(mask), a), JavaBitwise(And, mask, b)) ==
            JavaBitwise(Or, JavaBitwise(And, Inverse(mask), a), JavaBitwise(And, mask, b))
  {
    var x, y := JavaBitwise(And, mask, a), JavaBitwise(And, Inverse(mask), b);
    var x', y' := JavaBitwise(And, Inverse(mask), a), JavaBitwise(And, mask, b);
    forall k | 0 <= k < 32
      ensures Bit(Unsigned(JavaBitwise(And, x, y)), k) == 0
      ensures Bit(Unsigned(JavaBitwise(And, x', y')), k) == 0
    {
      InverseBits(mask, k);
      JavaBitwiseBit(And, mask, a, k);
      JavaBitwiseBit(And, Inverse(mask), b, k);
      JavaBitwiseBit(And, Inverse(mask), a, k);
      JavaBitwiseBit(And, mask, b, k);
      JavaBitwiseBit(And, x, y, k);
      JavaBitwiseBit(And, x', y', k);
    }
    ZeroBits(JavaBitwise(And, x, y));
    ZeroBits(JavaBitwise(And, x', y'));
    DisjointJavaAdd(x, y);
    DisjointJavaAdd(x', y');
  }

  /**
   * Below the bitmask, child 0 takes a's bit where the mask is set and b's
   * elsewhere, and child 1 the other one, so the children's bits are the
   * parents' bits, possibly swapped; above it both children's bits are 0.
   */
  lemma ChildGeneBits(mask: Int32, a: Int32, b: Int32, bitmask: Int32, k: nat)
    requires k < 32
    ensures Bit(Unsigned(ChildGene0(mask, a, b, bitmask)), k) ==
      if Bit(Unsigned(bitmask), k) == 0 then 0
      else if Bit(Unsigned(mask), k) == 1 then Bit(Unsigned(a), k) else Bit(Unsigned(b), k)
    ensures Bit(Unsigned(ChildGene1(mask, a, b, bitmask)), k) ==
      if Bit(Unsigned(bitmask), k) == 0 then 0
      else if Bit(Unsigned(mask), k) == 1 then Bit(Unsigned(b), k) else Bit(Unsigned(a), k)
  {
    MaskedSumIsOr(mask, a, b);
    InverseBits(mask, k);
    var x, y := JavaBitwise(And, mask, a), JavaBitwise(And, Inverse(mask), b);
    var x', y' := JavaBitwise(And, Inverse(mask), a), JavaBitwise(And, mask, b);
    JavaBitwiseBit(And, mask, a, k);
    JavaBitwiseBit(And, Inverse(mask), b, k);
    JavaBitwiseBit(And, Inverse(mask), a, k);
    JavaBitwiseBit(And, mask, b, k);
    JavaBitwiseBit(Or, x, y, k);
    JavaBitwiseBit(Or, x', y', k);
    JavaBitwiseBit(And, JavaBitwise(Or, x, y), bitmask, k);
    JavaBitwiseBit(And, JavaBitwise(Or, x', y'), bitmask, k);
  }

  /** With a non-negative bitmask both children's genes lie between 0 and the bitmask. */
  lemma ChildGeneRange(mask: Int32, a: Int32, b: Int32, bitmask: Int32)
    requires 0 <= bitmask
    ensures 0 <= ChildGene0(mask, a, b, bitmask) <= bitmask
    ensures 0 <= ChildGene1(mask, a, b, bitmask) <= bitmask
  {
    JavaAndRange(JavaAdd(JavaBitwise(And, mask, a), JavaBitwise(And, Inverse(mask), b)), bitmask);
    JavaAndRange(JavaAdd(JavaBitwise(And, Inverse(mask), a), JavaBitwise(And, mask, b)), bitmask);
  }

  // ---------------------------------------------------------------------------
  // crossover(parent, rate)
  // ---------------------------------------------------------------------------

  /** The genes of child 0 of a pair, one mask draw per gene. */
  function Child0(masks: seq<Int32>, a: seq<Int32>, b: seq<Int32>, bitmask: Int32): (r: seq<Int32>)
    requires |masks| <= |a| && |masks| <= |b|
    ensures |r| == |masks|
  {
    seq(|masks|, j requires 0 <= j < |masks| => ChildGene0(masks[j], a[j], b[j], bitmask))
  }

  /** The genes of child 1 of a pair. */
  function Child1(masks: seq<Int32>, a: seq<Int32>, b: seq<Int32>, bitmask: Int32): (r: seq<Int32>)
    requires |masks| <= |a| && |masks| <= |b|
    ensures |r| == |masks|
  {
    seq(|masks|, j requires 0 <= j < |masks| => ChildGene1(masks[j], a[j], b[j], bitmask))
  }

  /**
   * What crossover needs of its parents and draws: an even, non-empty
   * population of binary individuals (the casts), chromosomes at least as
   * long as individual 0's variables, a positive bitmask for nextInt, the
   * shuffled order of the parents and one mask in [0, bitmask) per gene of
   * each pair.
   */
  predicate CrossoverReady(ps: seq<Genome>, parentNumber: seq<int>, masks: seq<seq<Int32>>) {
    && |ps| > 0 && |ps| % 2 == 0
    && (forall i :: 0 <= i < |ps| ==> ps[i].coding.BinaryCoding? && |ps[i].chromosome| >= |ps[0].variable|)
    && ps[0].coding.numberOfBits >= 1
    && IsPermutation(parentNumber, |ps|)
    && |masks| == |ps| / 2
    && (forall k :: 0 <= k < |masks| ==> |masks[k]| == |ps[0].variable|)
    && (forall k, j :: 0 <= k < |masks| && 0 <= j < |masks[k]| ==>
          0 <= masks[k][j] < Bitmask(ps[0].coding.numberOfBits))
  }

  /** A child as allocated: a zero binary individual shaped like parent 0. */
  function ChildTemplate(ps: seq<Genome>): Genome
    requires |ps| > 0
  {
    ZeroGenome(ps[0].coding, |ps[0].variable|, |ps[0].fitness|)
  }

  /** Child i: the pair i / 2 of shuffled parents, crossed, set into a zero child as its chromosome. */
  function Offspring(ps: seq<Genome>, parentNumber: seq<int>, masks: seq<seq<Int32>>, i: int): Genome
    requires CrossoverReady(ps, parentNumber, masks) && 0 <= i < |ps|
  {
    PairChild(ps, parentNumber, masks, i / 2, i % 2 == 1)
  }

  /** Child 0 or child 1 of pair k: parents parentNumber[2k] and parentNumber[2k+1], mask row k. */
  function PairChild(ps: seq<Genome>, parentNumber: seq<int>, masks: seq<seq<Int32>>, k: nat, second: bool): Genome
    requires CrossoverReady(ps, parentNumber, masks) && k < |ps| / 2
  {
    var a := ps[parentNumber[2 * k]];
    var b := ps[parentNumber[2 * k + 1]];
    var bitmask := Bitmask(a.coding.numberOfBits);
    var genes := if second then Child1(masks[k], a.chromosome, b.chromosome, bitmask)
                 else Child0(masks[k], a.chromosome, b.chromosome, bitmask);
    WithChromosome(ChildTemplate(ps), genes)
  }

  /** setVariables with a zero matrix leaves a zero individual as it was. */
  lemma ZeroRowKeepsZero(coding: Coding, v: nat, m: nat)
    ensures WithRow(ZeroGenome(coding, v, m), Variable, Zeros(v)) == ZeroGenome(coding, v, m)
  {
    var g := ZeroGenome(coding, v, m);
    assert ArrayCopy(Zeros(v), g.variable, v) == g.variable;
    if coding.BinaryCoding? {
      assert Code(g.variable, coding.numberOfBits) == g.chromosome by {
        forall j | 0 <= j < v
          ensures Code(g.variable, coding.numberOfBits)[j] == 0
        {
          assert CodeGene(0.0, coding.numberOfBits) == 0;
        }
      }
    }
  }

  /**
   * Every child is a coded binary individual of parent 0's shape with zero
   * fitness; when the pair's first parent has parent 0's bit count, the
   * child's genes lie between 0 and the bitmask, so its variables lie in [0, 1].
   */
  lemma PairChildShape(ps: seq<Genome>, parentNumber: seq<int>, masks: seq<seq<Int32>>, k: nat, second: bool)
    requires CrossoverReady(ps, parentNumber, masks) && k < |ps| / 2
    ensures var r := PairChild(ps, parentNumber, masks, k, second);
      && r.coding == ps[0].coding && Coded(r)
      && |r.variable| == |ps[0].variable| && r.fitness == Zeros(|ps[0].fitness|)
    ensures var r := PairChild(ps, parentNumber, masks, k, second);
      ps[parentNumber[2 * k]].coding == ps[0].coding ==>
        (forall j :: 0 <= j < |r.chromosome| ==> 0 <= r.chromosome[j] <= Bitmask(ps[0].coding.numberOfBits)) &&
        (forall j :: 0 <= j < |r.variable| ==> 0.0 <= r.variable[j] <= 1.0)
  {
    var a := ps[parentNumber[2 * k]];
    var b := ps[parentNumber[2 * k + 1]];
    var bitmask := Bitmask(a.coding.numberOfBits);
    var genes := if second then Child1(masks[k], a.chromosome, b.chromosome, bitmask)
                 else Child0(masks[k], a.chromosome, b.chromosome, bitmask);
    var t := ChildTemplate(ps);
    WithChromosomeMeaning(t, genes);
    var r := WithChromosome(t, genes);
    assert r == PairChild(ps, parentNumber, masks, k, second);
    assert r.chromosome == genes;
    ChildRange(masks[k], a.chromosome, b.chromosome, bitmask);
  }

  /** A child's genes lie between 0 and a non-negative bitmask. */
  lemma ChildRange(masks: seq<Int32>, a: seq<Int32>, b: seq<Int32>, bitmask: Int32)
    requires |masks| <= |a| && |masks| <= |b| && 0 <= bitmask
    ensures forall j :: 0 <= j < |masks| ==> 0 <= Child0(masks, a, b, bitmask)[j] <= bitmask
    ensures forall j :: 0 <= j < |masks| ==> 0 <= Child1(masks, a, b, bitmask)[j] <= bitmask
  {
    forall j | 0 <= j < |masks|
      ensures 0 <= Child0(masks, a, b, bitmask)[j] <= bitmask && 0 <= Child1(masks, a, b, bitmask)[j] <= bitmask
    {
      ChildGeneRange(masks[j], a[j], b[j], bitmask);
    }
  }

  /** The gene loop of one pair: chromosome0 and chromosome1 take the two children's genes. */
  method CrossGenes(masks: seq<Int32>, a: seq<Int32>, b: seq<Int32>, bitmask: Int32,
                    chromosome0: array<Int32>, chromosome1: array<Int32>)
    requires |masks| == chromosome0.Length == chromosome1.Length && |masks| <= |a| && |masks| <= |b|
    requires chromosome0 != chromosome1
    modifies chromosome0, chromosome1
    ensures chromosome0[..] == Child0(masks, a, b, bitmask)
    ensures chromosome1[..] == Child1(masks, a, b, bitmask)
  {
    for j := 0 to chromosome0.Length
      invariant chromosome0[..j] == Child0(masks, a, b, bitmask)[..j]
      invariant chromosome1[..j] == Child1(masks, a, b, bitmask)[..j]
    {
      var mask := masks[j];
      chromosome0[j] := ChildGene0(mask, a[j], b[j], bitmask);
      chromosome1[j] := ChildGene1(mask, a[j], b[j], bitmask);
    }
  }

  /** All the children, in slot order. */
  function Offsprings(ps: seq<Genome>, parentNumber: seq<int>, masks: seq<seq<Int32>>): (r: seq<Genome>)
    requires CrossoverReady(ps, parentNumber, masks)
    ensures |r| == |ps|
  {
    seq(|ps|, i requires 0 <= i < |ps| => Offspring(ps, parentNumber, masks, i))
  }

  /** One pass of the pair loop: the two children take the genes crossed from chromosomes a and b. */
  method MatePair(c0: Individual, c1: Individual, a: seq<Int32>, b: seq<Int32>, bitmask: Int32, masks: seq<Int32>,
                  chromosome0: array<Int32>, chromosome1: array<Int32>)
    requires c0 != c1 && chromosome0 != chromosome1
    requires |masks| == chromosome0.Length == chromosome1.Length && |masks| <= |a| && |masks| <= |b|
    requires c0.coding.BinaryCoding? && c0.coding.numberOfBits >= 1 && |masks| <= |c0.chromosome|
    requires c1.coding.BinaryCoding? && c1.coding.numberOfBits >= 1 && |masks| <= |c1.chromosome|
    modifies c0, c1, chromosome0, chromosome1
    ensures c0.Snapshot() == WithChromosome(old(c0.Snapshot()), Child0(masks, a, b, bitmask))
    ensures c1.Snapshot() == WithChromosome(old(c1.Snapshot()), Child1(masks, a, b, bitmask))
  {
    CrossGenes(masks, a, b, bitmask, chromosome0, chromosome1);
    c0.SetChromosome(chromosome0[..]);
    c1.SetChromosome(chromosome1[..]);
  }

  /**
   * What the pair loop needs, stated on values: a binary child template with
   * room for v genes, parents' chromosomes of at least v genes with their
   * bitmasks, the shuffled parent order and one mask row of v draws per pair.
   */
  predicate PairsReady(t: Genome, v: nat, chromosomes: seq<seq<Int32>>, bitmasks: seq<Int32>,
                       parentNumber: seq<int>, masks: seq<seq<Int32>>) {
    && t.coding.BinaryCoding? && t.coding.numberOfBits >= 1 && |t.chromosome| >= v
    && |chromosomes| == |bitmasks| == |parentNumber| == 2 * |masks|
    && (forall i :: 0 <= i < |chromosomes| ==> |chromosomes[i]| >= v)
    && (forall i :: 0 <= i < |parentNumber| ==> 0 <= parentNumber[i] < |chromosomes|)
    && (forall k :: 0 <= k < |masks| ==> |masks[k]| == v)
  }

  /** Child 0 or 1 of pair k, as the pair loop builds it from the template. */
  function MatedChild(t: Genome, v: nat, chromosomes: seq<seq<Int32>>, bitmasks: seq<Int32>,
                      parentNumber: seq<int>, masks: seq<seq<Int32>>, k: nat, second: bool): Genome
    requires PairsReady(t, v, chromosomes, bitmasks, parentNumber, masks) && k < |masks|
  {
    var a, b := parentNumber[2 * k], parentNumber[2 * k + 1];
    var genes := if second then Child1(masks[k], chromosomes[a], chromosomes[b], bitmasks[a])
                 else Child0(masks[k], chromosomes[a], chromosomes[b], bitmasks[a]);
    WithChromosome(t, genes)
  }

  /** All the children of the pair loop, in slot order. */
  function MatedChildren(t: Genome, v: nat, chromosomes: seq<seq<Int32>>, bitmasks: seq<Int32>,
                         parentNumber: seq<int>, masks: seq<seq<Int32>>): (r: seq<Genome>)
    requires PairsReady(t, v, chromosomes, bitmasks, parentNumber, masks)
    ensures |r| == |chromosomes|
  {
    seq(|chromosomes|, k requires 0 <= k < |chromosomes| =>
      MatedChild(t, v, chromosomes, bitmasks, parentNumber, masks, k / 2, k % 2 == 1))
  }

  /**
   * The pair loop of crossover: children 2k and 2k+1, allocated equal to the
   * template, take through setChromosome the genes crossed from parents
   * parentNumber[2k] and parentNumber[2k+1].
   */
  method Mate(children: Population, v: nat, chromosomes: seq<seq<Int32>>, bitmasks: seq<Int32>,
              parentNumber: seq<int>, masks: seq<seq<Int32>>, ghost t: Genome)
    requires PairsReady(t, v, chromosomes, bitmasks, parentNumber, masks)
    requires children.Valid() && children.individual.Length == |chromosomes|
    requires forall k :: 0 <= k < |chromosomes| ==> children.individual[k].Snapshot() == t
    modifies children.individual[..]
    ensures forall k :: 0 <= k < |chromosomes| ==>
      children.individual[k].Snapshot() == MatedChild(t, v, chromosomes, bitmasks, parentNumber, masks, k / 2, k % 2 == 1)
  {
    var chromosome0 := new Int32[v];
    var chromosome1 := new Int32[v];
    var p := 0;
    while p < |masks|
      invariant 0 <= p <= |masks| && children.Valid() && children.individual.Length == 2 * |masks|
      invariant MatedUpTo(children, t, v, chromosomes, bitmasks, parentNumber, masks, p)
    {
      MateAt(children, p, v, chromosomes, bitmasks, parentNumber, masks, t, chromosome0, chromosome1);
      p := p + 1;
    }
    MatedAll(children, t, v, chromosomes, bitmasks, parentNumber, masks);
  }

  /**
   * The pair loop's state after p passes: the first p pairs of slots hold
   * their mated children and the slots from 2p on still hold the template.
   * The children array has room for those pairs and no more slots than there
   * are parents.
   */
  ghost predicate MatedUpTo(children: Population, t: Genome, v: nat, chromosomes: seq<seq<Int32>>, bitmasks: seq<Int32>,
                            parentNumber: seq<int>, masks: seq<seq<Int32>>, p: nat)
    requires PairsReady(t, v, chromosomes, bitmasks, parentNumber, masks) && p <= |masks|
    reads children, children.individual, children.individual[..]
  {
    && children.Valid() && 2 * p <= children.individual.Length <= |chromosomes|
    && (forall q :: 0 <= q < p ==>
          && children.individual[2 * q].Snapshot() == MatedChild(t, v, chromosomes, bitmasks, parentNumber, masks, q, false)
          && children.individual[2 * q + 1].Snapshot() == MatedChild(t, v, chromosomes, bitmasks, parentNumber, masks, q, true))
    && (forall k :: 2 * p <= k < children.individual.Length ==> children.individual[k].Snapshot() == t)
  }

  /** After every pass, slot k holds child k % 2 of pair k / 2. */
  lemma MatedAll(children: Population, t: Genome, v: nat, chromosomes: seq<seq<Int32>>, bitmasks: seq<Int32>,
                 parentNumber: seq<int>, masks: seq<seq<Int32>>)
    requires PairsReady(t, v, chromosomes, bitmasks, parentNumber, masks)
    requires MatedUpTo(children, t, v, chromosomes, bitmasks, parentNumber, masks, |masks|)
    ensures forall k :: 0 <= k < |chromosomes| ==>
      children.individual[k].Snapshot() == MatedChild(t, v, chromosomes, bitmasks, parentNumber, masks, k / 2, k % 2 == 1)
  {
    forall k | 0 <= k < |chromosomes|
      ensures children.individual[k].Snapshot() == MatedChild(t, v, chromosomes, bitmasks, parentNumber, masks, k / 2, k % 2 == 1)
    {
      MatedSlot(children, t, v, chromosomes, bitmasks, parentNumber, masks, |masks|, k / 2, k % 2 == 1, k);
    }
  }

  /** After p passes, slot k is child 0 or child 1 of pair q < p as k is 2q or 2q+1. */
  lemma MatedSlot(children: Population, t: Genome, v: nat, chromosomes: seq<seq<Int32>>, bitmasks: seq<Int32>,
                  parentNumber: seq<int>, masks: seq<seq<Int32>>, p: nat, q: nat, second: bool, k: nat)
    requires PairsReady(t, v, chromosomes, bitmasks, parentNumber, masks) && p <= |masks|
    requires MatedUpTo(children, t, v, chromosomes, bitmasks, parentNumber, masks, p)
    requires q < p && k == 2 * q + (if second then 1 else 0)
    ensures children.individual[k].Snapshot() == MatedChild(t, v, chromosomes, bitmasks, parentNumber, masks, q, second)
  {
  }

  /** Pass p of the pair loop: children 2p and 2p+1 are set, the others stay as they were. */
  method MateAt(children: Population, p: nat, v: nat, chromosomes: seq<seq<Int32>>, bitmasks: seq<Int32>,
                parentNumber: seq<int>, masks: seq<seq<Int32>>, ghost t: Genome,
                chromosome0: array<Int32>, chromosome1: array<Int32>)
    requires PairsReady(t, v, chromosomes, bitmasks, parentNumber, masks) && p < |masks|
    requires children.Valid() && chromosome0 != chromosome1 && chromosome0.Length == chromosome1.Length == v
    requires MatedUpTo(children, t, v, chromosomes, bitmasks, parentNumber, masks, p)
    requires 2 * p + 1 < children.individual.Length
    modifies children.individual[2 * p], children.individual[2 * p + 1], chromosome0, chromosome1
    ensures MatedUpTo(children, t, v, chromosomes, bitmasks, parentNumber, masks, p + 1)
  {
    var a, b := parentNumber[2 * p], parentNumber[2 * p + 1];
    var c0, c1 := children.individual[2 * p], children.individual[2 * p + 1];
    MatePair(c0, c1, chromosomes[a], chromosomes[b], bitmasks[a], masks[p], chromosome0, chromosome1);
    forall k | 2 * p + 2 <= k < children.individual.Length
      ensures children.individual[k].Snapshot() == t
    {
      SlotsApart(children, k, 2 * p);
      SlotsApart(children, k, 2 * p + 1);
    }
    assert children.individual[2 * p].Snapshot() == MatedChild(t, v, chromosomes, bitmasks, parentNumber, masks, p, false);
    assert children.individual[2 * p + 1].Snapshot() == MatedChild(t, v, chromosomes, bitmasks, parentNumber, masks, p, true);
    forall q | 0 <= q < p + 1
      ensures children.individual[2 * q].Snapshot() == MatedChild(t, v, chromosomes, bitmasks, parentNumber, masks, q, false)
      ensures children.individual[2 * q + 1].Snapshot() == MatedChild(t, v, chromosomes, bitmasks, parentNumber, masks, q, true)
    {
      if q < p {
        SlotsApart(children, 2 * q, 2 * p);
        SlotsApart(children, 2 * q, 2 * p + 1);
        SlotsApart(children, 2 * q + 1, 2 * p);
        SlotsApart(children, 2 * q + 1, 2 * p + 1);
      }
    }
  }

  /** The pair loop's children are crossover's offspring when it reads the parents' own chromosomes and bitmasks. */
  lemma MatedOffsprings(ps: seq<Genome>, parentNumber: seq<int>, masks: seq<seq<Int32>>,
                        chromosomes: seq<seq<Int32>>, bitmasks: seq<Int32>)
    requires CrossoverReady(ps, parentNumber, masks)
    requires |chromosomes| == |bitmasks| == |ps|
    requires forall l :: 0 <= l < |ps| ==>
      chromosomes[l] == ps[l].chromosome && bitmasks[l] == Bitmask(ps[l].coding.numberOfBits)
    ensures PairsReady(ChildTemplate(ps), |ps[0].variable|, chromosomes, bitmasks, parentNumber, masks)
    ensures MatedChildren(ChildTemplate(ps), |ps[0].variable|, chromosomes, bitmasks, parentNumber, masks)
         == Offsprings(ps, parentNumber, masks)
  {
    var t, v := ChildTemplate(ps), |ps[0].variable|;
    forall i | 0 <= i < |ps|
      ensures MatedChildren(t, v, chromosomes, bitmasks, parentNumber, masks)[i] == Offsprings(ps, parentNumber, masks)[i]
    {
      MatedPairChild(ps, parentNumber, masks, chromosomes, bitmasks, i / 2, i % 2 == 1);
    }
  }

  /** One child of the pair loop is the matching child of crossover's pair. */
  lemma MatedPairChild(ps: seq<Genome>, parentNumber: seq<int>, masks: seq<seq<Int32>>,
                       chromosomes: seq<seq<Int32>>, bitmasks: seq<Int32>, k: nat, second: bool)
    requires CrossoverReady(ps, parentNumber, masks) && k < |masks|
    requires PairsReady(ChildTemplate(ps), |ps[0].variable|, chromosomes, bitmasks, parentNumber, masks)
    requires |chromosomes| == |bitmasks| == |ps|
    requires forall l :: 0 <= l < |ps| ==>
      chromosomes[l] == ps[l].chromosome && bitmasks[l] == Bitmask(ps[l].coding.numberOfBits)
    ensures MatedChild(ChildTemplate(ps), |ps[0].variable|, chromosomes, bitmasks, parentNumber, masks, k, second)
         == PairChild(ps, parentNumber, masks, k, second)
  {
    var a, b := parentNumber[2 * k], parentNumber[2 * k + 1];
    assert chromosomes[a] == ps[a].chromosome && chromosomes[b] == ps[b].chromosome;
    assert bitmasks[a] == Bitmask(ps[a].coding.numberOfBits);
  }

  /**
   * What crossover reads of its parents: parent 0's bit count and shape, and
   * each parent's chromosome and bitmask.
   */
  method ReadParents(parent: Population, ghost ps: seq<Genome>)
    returns (bits: nat, v: nat, m: nat, chromosomes: seq<seq<Int32>>, bitmasks: seq<Int32>)
    requires parent.Full() && ps == parent.Genomes() && |ps| > 0
    requires forall i :: 0 <= i < |ps| ==> ps[i].coding.BinaryCoding?
    ensures ps[0].coding == BinaryCoding(bits) && v == |ps[0].variable| && m == |ps[0].fitness|
    ensures |chromosomes| == |bitmasks| == |ps|
    ensures forall i :: 0 <= i < |ps| ==>
      chromosomes[i] == ps[i].chromosome && bitmasks[i] == Bitmask(ps[i].coding.numberOfBits)
  {
    var n := parent.individual.Length;
    bits := parent.individual[0].coding.numberOfBits;
    v := |parent.individual[0].variable|;
    m := |parent.individual[0].fitness|;
    chromosomes, bitmasks := [], [];
    for i := 0 to n
      invariant |chromosomes| == |bitmasks| == i
      invariant forall l :: 0 <= l < i ==>
        chromosomes[l] == ps[l].chromosome && bitmasks[l] == Bitmask(ps[l].coding.numberOfBits)
    {
      var p := parent.individual[i];
      assert p.Snapshot() == ps[i];
      chromosomes := chromosomes + [p.chromosome];
      bitmasks := bitmasks + [Bitmask(p.coding.numberOfBits)];
    }
  }

  /**
   * crossover(parent, rate): round(n * rate) children, which the pair loop
   * and setVariables force to be exactly n, each set from a pair of shuffled
   * parents by uniform bit-mask crossover.
   */
  method Crossover(parent: Population, rate: real, parentNumber: seq<int>, masks: seq<seq<Int32>>,
                   ghost ps: seq<Genome>) returns (children: Population)
    requires parent.Full() && ps == parent.Genomes() && CrossoverReady(ps, parentNumber, masks)
    requires ChildCount(|ps|, rate) == |ps|
    ensures fresh(children) && fresh(children.individual) && children.Valid()
    ensures children.Genomes() == Offsprings(ps, parentNumber, masks)
  {
    var n := parent.individual.Length;
    var bits, v, m, chromosomes, bitmasks := ReadParents(parent, ps);
    MatedOffsprings(ps, parentNumber, masks, chromosomes, bitmasks);
    children := Breed(ChildCount(n, rate), bits, v, m, chromosomes, bitmasks, parentNumber, masks);
  }

  /**
   * A configuration ConfigGA accepts, with ten individuals and crossover rate
   * 0.8, on which crossover throws: it allocates round(10 * 0.8) = 8 children
   * and the pair loop writes ten, so the precondition of Crossover fails.
   */
  lemma AcceptedRateOverflows()
    ensures CheckGa(8, 1, 10, 0, Some("f"), Some([0.0]), Some([1.0]), Some([0.0]), 0.8, 0.1, 2.0).None?
    ensures ChildCount(10, 0.8) == 8
  {
  }

  /**
   * crossover as its comment describes it: the children array is built from
   * the number of parents and the crossover rate, round(n * rate) slots, and
   * the pair loop stops at the last slot, so every child is the offspring of
   * the pair its slot belongs to (an odd last slot takes the pair's first child).
   */
  method CrossoverRated(parent: Population, rate: real, parentNumber: seq<int>, masks: seq<seq<Int32>>,
                        ghost ps: seq<Genome>) returns (children: Population)
    requires parent.Full() && ps == parent.Genomes() && CrossoverReady(ps, parentNumber, masks)
    requires 0.0 <= rate <= 1.0
    ensures fresh(children) && fresh(children.individual) && children.Valid()
    ensures children.individual.Length == ChildCount(|ps|, rate) <= |ps|
    ensures children.Genomes() == Offsprings(ps, parentNumber, masks)[..ChildCount(|ps|, rate)]
  {
    var n := parent.individual.Length;
    var c := ChildCount(n, rate);
    RoundedWithin(n, rate);
    var bits, v, m, chromosomes, bitmasks := ReadParents(parent, ps);
    MatedOffsprings(ps, parentNumber, masks, chromosomes, bitmasks);
    children := BreedRounded(c, bits, v, m, chromosomes, bitmasks, parentNumber, masks);
  }

  /** The size of the children array, Math.round(n * rate). */
  function ChildCount(n: nat, rate: real): int {
    Round(n as real * rate)
  }

  /** A rate in [0, 1] gives between 0 and n children. */
  lemma RoundedWithin(n: nat, rate: real)
    requires 0.0 <= rate <= 1.0
    ensures 0 <= ChildCount(n, rate) <= n
  {
    assert n as real * rate <= n as real * 1.0;
  }

  /** The corrected children: c zero children of the given shape, then the pair loop stopped at slot c. */
  method BreedRounded(c: nat, bits: nat, v: nat, m: nat, chromosomes: seq<seq<Int32>>, bitmasks: seq<Int32>,
                      parentNumber: seq<int>, masks: seq<seq<Int32>>) returns (children: Population)
    requires c <= |chromosomes|
    requires PairsReady(ZeroGenome(BinaryCoding(bits), v, m), v, chromosomes, bitmasks, parentNumber, masks)
    ensures fresh(children) && fresh(children.individual) && children.Valid()
    ensures children.individual.Length == c
    ensures children.Genomes()
         == MatedChildren(ZeroGenome(BinaryCoding(bits), v, m), v, chromosomes, bitmasks, parentNumber, masks)[..c]
  {
    children := ZeroChildren(c, BinaryCoding(bits), v, m);
    ghost var t := ZeroGenome(BinaryCoding(bits), v, m);
    MateRounded(children, v, chromosomes, bitmasks, parentNumber, masks, t);
    assert forall k :: 0 <= k < c ==>
      children.Genomes()[k] == MatedChildren(t, v, chromosomes, bitmasks, parentNumber, masks)[k];
  }

  /**
   * The pair loop bounded by the children array: whole pairs while both of
   * their slots exist, then, when one slot is left, the first child of the
   * next pair.
   */
  method MateRounded(children: Population, v: nat, chromosomes: seq<seq<Int32>>, bitmasks: seq<Int32>,
                     parentNumber: seq<int>, masks: seq<seq<Int32>>, ghost t: Genome)
    requires PairsReady(t, v, chromosomes, bitmasks, parentNumber, masks)
    requires children.Valid() && children.individual.Length <= |chromosomes|
    requires forall k :: 0 <= k < children.individual.Length ==> children.individual[k].Snapshot() == t
    modifies children.individual[..]
    ensures forall k :: 0 <= k < children.individual.Length ==>
      children.individual[k].Snapshot() == MatedChild(t, v, chromosomes, bitmasks, parentNumber, masks, k / 2, k % 2 == 1)
  {
    var c := children.individual.Length;
    var chromosome0 := new Int32[v];
    var chromosome1 := new Int32[v];
    var p := 0;
    while 2 * p + 1 < c
      invariant 0 <= 2 * p <= c && children.Valid() && children.individual.Length == c
      invariant MatedUpTo(children, t, v, chromosomes, bitmasks, parentNumber, masks, p)
    {
      MateAt(children, p, v, chromosomes, bitmasks, parentNumber, masks, t, chromosome0, chromosome1);
      p := p + 1;
    }
    if 2 * p < c {
      MateLast(children, p, v, chromosomes, bitmasks, parentNumber, masks, t, chromosome0, chromosome1);
    } else {
      MatedBelow(children, t, v, chromosomes, bitmasks, parentNumber, masks, p);
    }
  }

  /** After p passes, the first 2p slots hold their pairs' children. */
  lemma MatedBelow(children: Population, t: Genome, v: nat, chromosomes: seq<seq<Int32>>, bitmasks: seq<Int32>,
                   parentNumber: seq<int>, masks: seq<seq<Int32>>, p: nat)
    requires PairsReady(t, v, chromosomes, bitmasks, parentNumber, masks) && p <= |masks|
    requires MatedUpTo(children, t, v, chromosomes, bitmasks, parentNumber, masks, p)
    ensures forall k :: 0 <= k < 2 * p ==>
      children.individual[k].Snapshot() == MatedChild(t, v, chromosomes, bitmasks, parentNumber, masks, k / 2, k % 2 == 1)
  {
    forall k | 0 <= k < 2 * p
      ensures children.individual[k].Snapshot() == MatedChild(t, v, chromosomes, bitmasks, parentNumber, masks, k / 2, k % 2 == 1)
    {
      MatedSlot(children, t, v, chromosomes, bitmasks, parentNumber, masks, p, k / 2, k % 2 == 1, k);
    }
  }

  /** One child alone: c0 takes the first child's genes crossed from chromosomes a and b. */
  method MateFirst(c0: Individual, a: seq<Int32>, b: seq<Int32>, bitmask: Int32, masks: seq<Int32>,
                   chromosome0: array<Int32>, chromosome1: array<Int32>)
    requires chromosome0 != chromosome1
    requires |masks| == chromosome0.Length == chromosome1.Length && |masks| <= |a| && |masks| <= |b|
    requires c0.coding.BinaryCoding? && c0.coding.numberOfBits >= 1 && |masks| <= |c0.chromosome|
    modifies c0, chromosome0, chromosome1
    ensures c0.Snapshot() == WithChromosome(old(c0.Snapshot()), Child0(masks, a, b, bitmask))
  {
    CrossGenes(masks, a, b, bitmask, chromosome0, chromosome1);
    c0.SetChromosome(chromosome0[..]);
  }

  /** The last, odd slot 2p takes the first child of pair p; the slots before it keep their children. */
  method MateLast(children: Population, p: nat, v: nat, chromosomes: seq<seq<Int32>>, bitmasks: seq<Int32>,
                  parentNumber: seq<int>, masks: seq<seq<Int32>>, ghost t: Genome,
                  chromosome0: array<Int32>, chromosome1: array<Int32>)
    requires PairsReady(t, v, chromosomes, bitmasks, parentNumber, masks) && p < |masks|
    requires children.Valid() && chromosome0 != chromosome1 && chromosome0.Length == chromosome1.Length == v
    requires MatedUpTo(children, t, v, chromosomes, bitmasks, parentNumber, masks, p)
    requires children.individual.Length == 2 * p + 1
    modifies children.individual[2 * p], chromosome0, chromosome1
    ensures forall k :: 0 <= k < children.individual.Length ==>
      children.individual[k].Snapshot() == MatedChild(t, v, chromosomes, bitmasks, parentNumber, masks, k / 2, k % 2 == 1)
  {
    MatedBelow(children, t, v, chromosomes, bitmasks, parentNumber, masks, p);
    var a, b := parentNumber[2 * p], parentNumber[2 * p + 1];
    MateFirst(children.individual[2 * p], chromosomes[a], chromosomes[b], bitmasks[a], masks[p], chromosome0, chromosome1);
    assert children.individual[2 * p].Snapshot() == MatedChild(t, v, chromosomes, bitmasks, parentNumber, masks, p, false);
    forall k | 0 <= k < 2 * p + 1
      ensures children.individual[k].Snapshot() == MatedChild(t, v, chromosomes, bitmasks, parentNumber, masks, k / 2, k % 2 == 1)
    {
      if k < 2 * p {
        SlotsApart(children, k, 2 * p);
      } else {
        assert k / 2 == p && k % 2 == 0;
      }
    }
  }

  /** The children of crossover: n zero children of the given shape, then the pair loop. */
  method Breed(n: nat, bits: nat, v: nat, m: nat, chromosomes: seq<seq<Int32>>, bitmasks: seq<Int32>,
               parentNumber: seq<int>, masks: seq<seq<Int32>>) returns (children: Population)
    requires n == |chromosomes|
    requires PairsReady(ZeroGenome(BinaryCoding(bits), v, m), v, chromosomes, bitmasks, parentNumber, masks)
    ensures fresh(children) && fresh(children.individual) && children.Valid()
    ensures children.Genomes() == MatedChildren(ZeroGenome(BinaryCoding(bits), v, m), v, chromosomes, bitmasks, parentNumber, masks)
  {
    children := ZeroChildren(n, BinaryCoding(bits), v, m);
    ghost var t := ZeroGenome(BinaryCoding(bits), v, m);
    Mate(children, v, chromosomes, bitmasks, parentNumber, masks, t);
    assert forall k :: 0 <= k < n ==>
      children.Genomes()[k] == MatedChildren(t, v, chromosomes, bitmasks, parentNumber, masks)[k];
  }

  /** The children as allocated: n zero binary individuals, their variables set to a zero matrix. */
  method ZeroChildren(n: nat, coding: Coding, v: nat, m: nat) returns (children: Population)
    ensures fresh(children) && fresh(children.individual) && children.Valid()
    ensures children.individual.Length == n
    ensures forall k :: 0 <= k < n ==> fresh(children.individual[k])
    ensures forall k :: 0 <= k < n ==> children.individual[k].Snapshot() == ZeroGenome(coding, v, m)
  {
    children := new Population(n);
    children.Allocate(coding, v, m);
    children.SetRows(Variable, seq(n, _ => Zeros(v)), children.Genomes());
    ZeroRowKeepsZero(coding, v, m);
  }

  // ---------------------------------------------------------------------------
  // mutate(population, rate)
  // ---------------------------------------------------------------------------

  /**
   * The draws of one individual: hit decides whether it mutates, count sets
   * how many genes are expected to change, and pick[j], value[j] are gene j's
   * draws for whether it changes and what it becomes.
   */
  datatype MutationDraw = MutationDraw(hit: real, count: real, pick: seq<real>, value: seq<real>)

  /** geneNum: (int)(length * draw). */
  function GeneCount(length: nat, count: real): Int32 {
    DoubleToInt(length as real * count)
  }

  /** Gene j after the draw: replaced by (int)((2^bits - 1) * value) when pick * length < geneNum. */
  function MutatedGene(gene: Int32, length: nat, geneNum: Int32, pick: real, value: real, bits: nat): Int32 {
    if pick * length as real < geneNum as real then CodeGene(value, bits) else gene
  }

  /** The chromosome after the gene loop, bits being population[0]'s bit count. */
  function MutatedChromosome(c: seq<Int32>, d: MutationDraw, bits: nat): (r: seq<Int32>)
    requires |d.pick| >= |c| && |d.value| >= |c|
    ensures |r| == |c|
  {
    seq(|c|, j requires 0 <= j < |c| => MutatedGene(c[j], |c|, GeneCount(|c|, d.count), d.pick[j], d.value[j], bits))
  }

  /** What a draw fits: a binary individual, and one pick and one value per gene. */
  predicate Mutable(g: Genome, d: MutationDraw) {
    g.coding.BinaryCoding? && g.coding.numberOfBits >= 1 && |d.pick| >= |g.chromosome| && |d.value| >= |g.chromosome|
  }

  /** Individual i after mutate: its genes mutated and decoded when hit < rate, untouched otherwise. */
  function Mutated(g: Genome, d: MutationDraw, rate: real, bits: nat): Genome
    requires Mutable(g, d)
  {
    if d.hit < rate then WithChromosome(g, MutatedChromosome(g.chromosome, d, bits)) else g
  }

  /**
   * A gene changes only when its pick falls below geneNum, and then to a
   * value between 0 and the bitmask of population[0]'s bit count when the
   * value draw lies in [0, 1].
   */
  lemma MutatedGenes(c: seq<Int32>, d: MutationDraw, bits: nat)
    requires |d.pick| >= |c| && |d.value| >= |c|
    ensures forall j :: 0 <= j < |c| && MutatedChromosome(c, d, bits)[j] != c[j] ==>
      d.pick[j] * |c| as real < GeneCount(|c|, d.count) as real && MutatedChromosome(c, d, bits)[j] == CodeGene(d.value[j], bits)
    ensures forall j :: 0 <= j < |c| && 0.0 <= d.value[j] <= 1.0 && 0 <= c[j] <= Bitmask(bits) ==>
      0 <= MutatedChromosome(c, d, bits)[j] <= Bitmask(bits)
  {
    forall j | 0 <= j < |c| && 0.0 <= d.value[j] <= 1.0
      ensures 0 <= CodeGene(d.value[j], bits) <= Bitmask(bits)
    {
      CodeGeneInRange(d.value[j], bits);
    }
  }

  /**
   * A draw of geneNum that is 0 or less (length * draw below 1) changes no
   * gene when the picks are non-negative: the chromosome comes out as it
   * went in, though a hit individual's variables are still decoded from it.
   */
  lemma NoGeneToMutate(g: Genome, d: MutationDraw, rate: real, bits: nat)
    requires Mutable(g, d)
    requires GeneCount(|g.chromosome|, d.count) <= 0
    requires forall j :: 0 <= j < |g.chromosome| ==> d.pick[j] >= 0.0
    ensures Mutated(g, d, rate, bits).chromosome == g.chromosome
    ensures d.hit < rate ==> Mutated(g, d, rate, bits).variable == Decode(g.chromosome, g.coding.numberOfBits)
  {
    var c := g.chromosome;
    NoGeneChanges(c, d, bits);
    WithChromosomeMeaning(g, c);
  }

  lemma NoGeneChanges(c: seq<Int32>, d: MutationDraw, bits: nat)
    requires |d.pick| >= |c| && |d.value| >= |c|
    requires GeneCount(|c|, d.count) <= 0
    requires forall j :: 0 <= j < |c| ==> d.pick[j] >= 0.0
    ensures MutatedChromosome(c, d, bits) == c
  {
    forall j | 0 <= j < |c|
      ensures MutatedChromosome(c, d, bits)[j] == c[j]
    {
      NonNegativeProduct(d.pick[j], |c| as real);
    }
  }

  lemma NonNegativeProduct(x: real, y: real)
    requires x >= 0.0 && y >= 0.0
    ensures x * y >= 0.0
  {
  }

  /** A mutated individual stays coded and keeps its coding, its shape and its fitness. */
  lemma MutatedShape(g: Genome, d: MutationDraw, rate: real, bits: nat)
    requires Mutable(g, d)
    ensures Mutated(g, d, rate, bits).coding == g.coding && Mutated(g, d, rate, bits).fitness == g.fitness
    ensures |Mutated(g, d, rate, bits).chromosome| == |g.chromosome|
    ensures d.hit < rate ==> Coded(Mutated(g, d, rate, bits))
  {
    WithChromosomeMeaning(g, MutatedChromosome(g.chromosome, d, bits));
  }

  /** The gene loop of one individual: mutated genes written into its chromosome, then setChromosome. */
  method MutateIndividual(p: Individual, d: MutationDraw, bits: nat)
    requires Mutable(p.Snapshot(), d)
    modifies p
    ensures p.Snapshot() == WithChromosome(old(p.Snapshot()), MutatedChromosome(old(p.chromosome), d, bits))
  {
    var chromosome := p.chromosome;
    var geneNum := GeneCount(|chromosome|, d.count);
    for j := 0 to |chromosome|
      invariant |chromosome| == |p.chromosome|
      invariant chromosome[..j] == MutatedChromosome(p.chromosome, d, bits)[..j]
      invariant chromosome[j..] == p.chromosome[j..]
    {
      if d.pick[j] * |chromosome| as real < geneNum as real {
        chromosome := chromosome[j := CodeGene(d.value[j], bits)];
      }
    }
    p.SetChromosome(chromosome);
  }

  /**
   * mutate(population, rate): individual i mutates when its hit draw falls
   * below the rate, with population[0]'s bit count for the new genes; the
   * same population comes back.
   */
  method Mutate(population: Population, rate: real, draws: seq<MutationDraw>, ghost gs: seq<Genome>)
    returns (result: Population)
    requires population.Valid() && gs == population.Genomes() && |gs| >= 1 && |draws| == |gs|
    requires gs[0].coding.BinaryCoding?
    requires forall i :: 0 <= i < |gs| ==> Mutable(gs[i], draws[i])
    modifies population.individual[..]
    ensures result == population
    ensures forall i :: 0 <= i < |gs| ==>
      population.individual[i].Snapshot() == Mutated(gs[i], draws[i], rate, gs[0].coding.numberOfBits)
  {
    var numberOfBits := population.individual[0].coding.numberOfBits;
    for i := 0 to population.individual.Length
      invariant forall k :: i <= k < |gs| ==> population.individual[k].Snapshot() == gs[k]
      invariant forall k :: 0 <= k < i ==>
        population.individual[k].Snapshot() == Mutated(gs[k], draws[k], rate, numberOfBits)
    {
      var p := population.individual[i];
      assert p.Snapshot() == gs[i];
      if draws[i].hit < rate {
        MutateIndividual(p, draws[i], numberOfBits);
      }
      assert forall k :: 0 <= k < |gs| && k != i ==> population.individual[k] != p;
    }
    result := population;
  }
}
