/**
 Two kinds of feature lists laid out in memory, on which the walk does not do what it is meant to: a feature with two
 branch blocks, and lists nested as deep as one likes.
 */
module DflInputs {
  import opened DflTree
  import opened DflVector
  import opened DflWalker

  // A header that ends its list, a CSR word with parameters, and branch blocks with one word of data: one with
  // another block after it, and one that is the last.
  const EOL: Word := 0x100_0000_0000
  const WITH_PARAMS: Word := 0x8000_0000
  const BRANCH: Word := 0x10_0000_000c
  const LAST_BRANCH: Word := 0x9_0000_000c

  // ----------------------------------------------------------------------------------------------
  // Two branches
  // ----------------------------------------------------------------------------------------------

  /** A feature at 0 whose two blocks, at 0x28 and 0x38, lead to the features at 0x1000 and 0x2000. */
  function TwoBranches(a: nat): Word
  {
    match a
    case 0 => EOL
    case 0x20 => WITH_PARAMS
    case 0x28 => BRANCH
    case 0x30 => 0x1001
    case 0x38 => LAST_BRANCH
    case 0x40 => 0x2001
    case 0x1000 => EOL
    case 0x2000 => EOL
    case _ => 0
  }

  function TwoBranchTree(): Chain
  {
    Node(0, Block(0x28, Node(0x1000, Absent, Nil), Block(0x38, Node(0x2000, Absent, Nil), Absent)), Nil)
  }

  lemma TwoBranchesIsChain()
    ensures IsChain(TwoBranches, 0, TwoBranchTree())
  {
    assert IsChain(TwoBranches, 0x1000, Node(0x1000, Absent, Nil));
    assert IsChain(TwoBranches, 0x2000, Node(0x2000, Absent, Nil));
    assert IsBlocks(TwoBranches, 0, 0x38, Block(0x38, Node(0x2000, Absent, Nil), Absent));
  }

  lemma TwoBranchBases()
    ensures forall a :: a == 0 || a == 0x1000 || a == 0x2000 ==> BaseAddress(TwoBranches, a) == a
  {
  }

  lemma TwoBranchWalk()
    ensures Parents(TwoBranchTree(), -1, 0) == [-1, 0, 0] && Recorded(TwoBranchTree(), -1, 0) == [-1, 0, 1]
    ensures var v := Visits(TwoBranchTree()); |v| == 3 && v[0].addr == 0 && v[1].addr == 0x1000 && v[2].addr == 0x2000
    ensures Depth(TwoBranchTree()) == 2
  {
    SecondBranchMisrecorded(0, 0x28, 0x38, 0x1000, 0x2000);
    var c1, c2 := Node(0x1000, Absent, Nil), Node(0x2000, Absent, Nil);
    assert Visits(c1) == [Feature(0x1000, Absent)] && Visits(c2) == [Feature(0x2000, Absent)];
    assert BlockVisits(Block(0x38, c2, Absent)) == [Feature(0x2000, Absent)];
  }

  /** The second list belongs to the feature at 0, and is recorded under the feature of the first list. */
  method ScanTwoBranches() returns (parents: seq<int>, bases: seq<nat>)
    ensures IsChain(TwoBranches, 0, TwoBranchTree()) && Parents(TwoBranchTree(), -1, 0) == [-1, 0, 0]
    ensures parents == [-1, 0, 1] && bases == [0, 0x1000, 0x2000]
  {
    TwoBranchesIsChain();
    TwoBranchWalk();
    TwoBranchBases();
    var c := TwoBranchTree();
    var w := new Walker(TwoBranches);
    w.Scan(0, c);
    ghost var v, r := Visits(c), Recorded(c, -1, 0);
    assert EntryIs(Describing(TwoBranches), w.vec.infos, 0, v[0], r[0]);
    assert EntryIs(Describing(TwoBranches), w.vec.infos, 1, v[1], r[1]);
    assert EntryIs(Describing(TwoBranches), w.vec.infos, 2, v[2], r[2]);
    parents := [w.vec.infos[0].parent, w.vec.infos[1].parent, w.vec.infos[2].parent];
    bases := [w.vec.infos[0].base, w.vec.infos[1].base, w.vec.infos[2].base];
  }

  // ----------------------------------------------------------------------------------------------
  // A list with everything
  // ----------------------------------------------------------------------------------------------

  /**
   Two features, at 0x100 and 0x300. The first has a block with two words of data and a branch block that leads, 0x400
   further on, to a third feature at 0x500; the second has a block with one word and a null block. Base addresses are
   relative, absolute and relative.
   */
  function Sample(a: nat): Word
  {
    match a
    case 0x100 => 0x200_0000
    case 0x108 => 0x11
    case 0x110 => 0x22
    case 0x118 => 0x40
    case 0x120 => 0x8005_0003
    case 0x128 => 0x18_0002_0007
    case 0x130 => 0x33
    case 0x138 => 0x44
    case 0x140 => 0x9_0001_000c
    case 0x148 => 0x400
    case 0x300 => EOL
    case 0x308 => 0x55
    case 0x310 => 0x66
    case 0x318 => 0x2001
    case 0x320 => 0x8006_0004
    case 0x328 => 0x10_0004_0009
    case 0x330 => 0x77
    case 0x338 => 0x1_0000_0000
    case 0x500 => EOL
    case 0x508 => 0x88
    case 0x510 => 0x99
    case 0x518 => 0x2000
    case 0x520 => 0x0001_0002
    case _ => 0
  }

  function ThirdFeature(): Chain { Node(0x500, Absent, Nil) }

  function FirstBlocks(): Blocks { Block(0x128, Nil, Block(0x140, ThirdFeature(), Absent)) }

  function SecondBlocks(): Blocks { Block(0x328, Nil, Null) }

  function SampleTree(): Chain
  {
    Node(0x100, FirstBlocks(), Node(0x300, SecondBlocks(), Nil))
  }

  lemma ThirdIsChain()
    ensures IsChain(Sample, 0x500, ThirdFeature())
  {
  }

  lemma SecondIsChain()
    ensures IsChain(Sample, 0x300, Node(0x300, SecondBlocks(), Nil))
  {
    assert IsBlocks(Sample, 0x300, 0x338, Null);
    assert IsBlocks(Sample, 0x300, 0x328, SecondBlocks());
  }

  lemma FirstIsBlocks()
    ensures IsBlocks(Sample, 0x100, 0x128, FirstBlocks())
  {
    ThirdIsChain();
    assert BranchTarget(Sample, 0x100, 0x140) == 0x500;
    assert IsBlocks(Sample, 0x100, 0x140, Block(0x140, ThirdFeature(), Absent));
  }

  lemma FirstHeader()
    ensures !IsEol(Sample(0x100)) && NextDfh(Sample, 0x100) == 0x300
    ensures HasParams(CsrWord(Sample, 0x100)) && FirstBlock(0x100) == 0x128
  {
  }

  /** A feature that is not the last of its list and has blocks. */
  lemma ChainGoesOn(mem: Mem, a: nat, b: Blocks, rest: Chain)
    requires !IsEol(mem(a)) && IsChain(mem, NextDfh(mem, a), rest)
    requires HasParams(CsrWord(mem, a)) && IsBlocks(mem, a, FirstBlock(a), b)
    ensures IsChain(mem, a, Node(a, b, rest))
  {
  }

  lemma SampleIsChain()
    ensures IsChain(Sample, 0x100, SampleTree())
  {
    FirstIsBlocks();
    SecondIsChain();
    FirstHeader();
    ChainGoesOn(Sample, 0x100, FirstBlocks(), Node(0x300, SecondBlocks(), Nil));
  }

  /** What a scan of that list is to leave: pre-order, each entry with its fields and parameters. */
  function SampleRecords(): seq<Record>
  {
    [Record(0x140, 0x11, 0x22, 3, 5, -1, false, false,
            [ParamView(2, 7, 16, [0x33, 0x44]), ParamView(1, 0xc, 8, [0x400])]),
     Record(0x2500, 0x88, 0x99, 2, 1, 0, false, false, []),
     Record(0x2000, 0x55, 0x66, 4, 6, -1, false, false,
            [ParamView(4, 9, 8, [0x77]), ParamView(0, 0, 0, [])])]
  }

  lemma FirstParams()
    ensures ParamsOf(Sample, FirstBlocks()) == [ParamView(2, 7, 16, [0x33, 0x44]), ParamView(1, 0xc, 8, [0x400])]
  {
    assert BlockParam(Sample, 0x128) == ParamView(2, 7, 16, [0x33, 0x44]);
    assert BlockParam(Sample, 0x140) == ParamView(1, 0xc, 8, [0x400]);
  }

  lemma SecondParams()
    ensures ParamsOf(Sample, SecondBlocks()) == [ParamView(4, 9, 8, [0x77]), ParamView(0, 0, 0, [])]
  {
    assert BlockParam(Sample, 0x328) == ParamView(4, 9, 8, [0x77]);
  }

  lemma SampleBases()
    ensures BaseAddress(Sample, 0x100) == 0x140 && BaseAddress(Sample, 0x500) == 0x2500
    ensures BaseAddress(Sample, 0x300) == 0x2000
  {
  }

  lemma SampleIds()
    ensures var csr := CsrWord(Sample, 0x100); InstanceId(csr) == 3 && GroupId(csr) == 5
    ensures var csr := CsrWord(Sample, 0x500); InstanceId(csr) == 2 && GroupId(csr) == 1
    ensures var csr := CsrWord(Sample, 0x300); InstanceId(csr) == 4 && GroupId(csr) == 6
  {
  }

  lemma SampleGuids()
    ensures Sample(Ptr(0x108)) == 0x11 && Sample(Ptr(0x110)) == 0x22
    ensures Sample(Ptr(0x508)) == 0x88 && Sample(Ptr(0x510)) == 0x99
    ensures Sample(Ptr(0x308)) == 0x55 && Sample(Ptr(0x310)) == 0x66
  {
  }

  lemma FirstRecord()
    ensures RecordOf(Sample, Feature(0x100, FirstBlocks()), -1) == SampleRecords()[0]
  {
    FirstParams();
    SampleBases();
    SampleIds();
    SampleGuids();
  }

  lemma ThirdRecord()
    ensures RecordOf(Sample, Feature(0x500, Absent), 0) == SampleRecords()[1]
  {
    SampleBases();
    SampleIds();
    SampleGuids();
  }

  lemma SecondRecord()
    ensures RecordOf(Sample, Feature(0x300, SecondBlocks()), -1) == SampleRecords()[2]
  {
    SecondParams();
    SampleBases();
    SampleIds();
    SampleGuids();
  }

  lemma SampleWalk()
    ensures Visits(SampleTree()) ==
            [Feature(0x100, FirstBlocks()), Feature(0x500, Absent), Feature(0x300, SecondBlocks())]
    ensures Recorded(SampleTree(), -1, 0) == [-1, 0, -1] && Depth(SampleTree()) == 2
  {
    var second := Node(0x300, SecondBlocks(), Nil);
    assert Visits(ThirdFeature()) == [Feature(0x500, Absent)] && Recorded(ThirdFeature(), 0, 1) == [0];
    assert BlockVisits(SecondBlocks()) == [] && BlockRecorded(SecondBlocks(), 2) == [];
    assert Visits(second) == [Feature(0x300, SecondBlocks())] && Recorded(second, -1, 2) == [-1];
    assert BlockVisits(FirstBlocks()) == [Feature(0x500, Absent)] && BlockRecorded(FirstBlocks(), 0) == [0];
  }

  method ScanSample() returns (records: seq<Record>)
    ensures IsChain(Sample, 0x100, SampleTree()) && records == SampleRecords()
  {
    SampleIsChain();
    SampleWalk();
    FirstRecord();
    SecondRecord();
    ThirdRecord();
    var c := SampleTree();
    var w := new Walker(Sample);
    w.Scan(0x100, c);
    ghost var v, r := Visits(c), Recorded(c, -1, 0);
    assert EntryIs(Describing(Sample), w.vec.infos, 0, v[0], r[0]);
    assert EntryIs(Describing(Sample), w.vec.infos, 1, v[1], r[1]);
    assert EntryIs(Describing(Sample), w.vec.infos, 2, v[2], r[2]);
    records := [View(w.vec.infos[0]), View(w.vec.infos[1]), View(w.vec.infos[2])];
  }

  // ----------------------------------------------------------------------------------------------
  // Nested lists
  // ----------------------------------------------------------------------------------------------

  const PAGE: nat := 0x1000

  /** How many lists fit one page apart below the pointers' range. */
  type Levels = d: nat | 0 < d <= 0x10_0000 witness 1

  /** One feature a page; all but the last of `d` have a branch block that leads to the next page. */
  function NestWord(d: Levels, a: nat): Word
  {
    var k := a / PAGE;
    match a % PAGE
    case 0 => EOL
    case 0x20 => if k + 1 < d then WITH_PARAMS else 0
    case 0x28 => LAST_BRANCH
    case 0x30 => if k + 1 < d then PAGE * (k + 1) + 1 else 0
    case _ => 0
  }

  function Nest(d: Levels): Mem
  {
    a => NestWord(d, a)
  }

  function NestTree(d: Levels, k: nat): Chain
    requires k < d
    decreases d - k
  {
    Node(PAGE * k, if k + 1 < d then Block(PAGE * k + 0x28, NestTree(d, k + 1), Absent) else Absent, Nil)
  }

  lemma OnPage(k: nat, o: nat)
    requires o < PAGE
    ensures (PAGE * k + o) / PAGE == k && (PAGE * k + o) % PAGE == o
  {
  }

  lemma NestWords(d: Levels, k: nat)
    ensures var a := PAGE * k;
            && NestWord(d, a) == EOL && NestWord(d, a + 0x28) == LAST_BRANCH
            && NestWord(d, a + 0x20) == (if k + 1 < d then WITH_PARAMS else 0)
            && NestWord(d, a + 0x30) == (if k + 1 < d then PAGE * (k + 1) + 1 else 0)
  {
    OnPage(k, 0);
    OnPage(k, 0x20);
    OnPage(k, 0x28);
    OnPage(k, 0x30);
  }

  lemma InRange(a: nat)
    requires a < PTR_SPAN
    ensures Ptr(a) == a
  {
  }

  lemma BranchDecodes()
    ensures IsEol(EOL) && HasParams(WITH_PARAMS) && !HasParams(0)
    ensures !IsNullBlock(LAST_BRANCH) && IsLastBlock(LAST_BRANCH) && BlockId(LAST_BRANCH) == BRANCH_ID
  {
  }

  lemma OneAboveEight(k: nat)
    ensures (8 * k + 1) % 8 == 1
  {
    var m, q := 8 * k + 1, (8 * k + 1) / 8;
    assert m == 8 * q + m % 8;
  }

  lemma OneAboveTwo(k: nat)
    ensures (2 * k + 1) % 2 == 1
  {
    var m, q := 2 * k + 1, (2 * k + 1) / 2;
    assert m == 2 * q + m % 2;
  }

  lemma OddWord(n: nat, k: nat)
    requires n == 8 * k
    ensures (n + 1) % 2 == 1 && (n + 1) - (n + 1) % 8 == n
  {
    OneAboveEight(k);
    OneAboveTwo(4 * k);
    assert n + 1 == 2 * (4 * k) + 1;
  }

  lemma AbsoluteBranch(mem: Mem, dfh: nat, block: nat, n: nat)
    requires block + 8 < PTR_SPAN && n < PTR_SPAN && n % 8 == 0 && mem(block + 8) == n + 1
    ensures BranchTarget(mem, dfh, block) == n
  {
    InRange(block + 8);
    InRange(n);
    OddWord(n, n / 8);
  }

  lemma NestFeature(d: Levels, k: nat)
    requires k < d
    ensures var mem, a := Nest(d), PAGE * k;
            && IsEol(mem(a)) && FirstBlock(a) == a + 0x28
            && (HasParams(CsrWord(mem, a)) <==> k + 1 < d)
  {
    var a := PAGE * k;
    NestWords(d, k);
    BranchDecodes();
    InRange(a + 0x20);
    InRange(a + 0x28);
  }

  lemma NestBlock(d: Levels, k: nat)
    requires k < d
    ensures var mem, a := Nest(d), PAGE * k + 0x28;
            !IsNullBlock(mem(a)) && IsLastBlock(mem(a)) && BlockId(mem(a)) == BRANCH_ID
  {
    NestWords(d, k);
    BranchDecodes();
  }

  lemma NestBranch(d: Levels, k: nat)
    requires k + 1 < d
    ensures BranchTarget(Nest(d), PAGE * k, PAGE * k + 0x28) == PAGE * (k + 1)
  {
    NestWords(d, k);
    EightDivides(k + 1);
    AbsoluteBranch(Nest(d), PAGE * k, PAGE * k + 0x28, PAGE * (k + 1));
  }

  lemma EightDivides(k: nat)
    ensures PAGE * k % 8 == 0
  {
    assert PAGE * k == 8 * (0x200 * k);
  }

  lemma {:induction false} NestIsChain(d: Levels, k: nat)
    requires k < d
    ensures IsChain(Nest(d), PAGE * k, NestTree(d, k)) && Depth(NestTree(d, k)) == d - k
    decreases d - k
  {
    NestFeature(d, k);
    if k + 1 < d {
      NestBlock(d, k);
      NestBranch(d, k);
      NestIsChain(d, k + 1);
      assert IsBlocks(Nest(d), PAGE * k, PAGE * k + 0x28, NestTree(d, k).blocks);
    }
  }

  /** For every depth there is a list of that depth, and from eight on the walk stores outside its stack. */
  method ScanNested(d: Levels) returns (overran: bool)
    ensures IsChain(Nest(d), 0, NestTree(d, 0)) && Depth(NestTree(d, 0)) == d
    ensures overran <==> d >= STACK_STEP
  {
    NestIsChain(d, 0);
    var w := new Walker(Nest(d));
    w.Scan(0, NestTree(d, 0));
    overran := w.overran;
  }
}
