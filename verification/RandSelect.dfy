/** A flat list of weighted items, as the selector tree must behave. */
module WeightedCells {
  import opened Wrappers

  type Id = nat

  /** A place for an item; an item is there only with a positive weight. */
  datatype Cell = Free | Taken(item: Id, weight: nat)

  function WeightOf(c: Cell): nat {
    if c.Free? then 0 else c.weight
  }

  function Sum(cells: seq<Cell>): nat {
    if cells == [] then 0 else WeightOf(cells[0]) + Sum(cells[1..])
  }

  function Count(cells: seq<Cell>): nat {
    if cells == [] then 0 else (if cells[0].Free? then 0 else 1) + Count(cells[1..])
  }

  function Blank(n: nat): (cells: seq<Cell>)
    ensures |cells| == n
  {
    seq(n, _ => Free)
  }

  /** The item that a value below the sum falls on. */
  function Pick(cells: seq<Cell>, val: nat): (i: nat)
    requires val < Sum(cells)
    ensures i < |cells|
  {
    if val < WeightOf(cells[0]) then 0 else 1 + Pick(cells[1..], val - WeightOf(cells[0]))
  }

  lemma {:induction false} Appended(a: seq<Cell>, b: seq<Cell>)
    ensures Sum(a + b) == Sum(a) + Sum(b) && Count(a + b) == Count(a) + Count(b)
    decreases |a|
  {
    if a == [] {
      assert a + b == b;
    } else {
      Appended(a[1..], b);
      assert (a + b)[1..] == a[1..] + b;
    }
  }

  lemma {:induction false} PickAppended(a: seq<Cell>, b: seq<Cell>, val: nat)
    requires val < Sum(a + b)
    ensures Sum(a + b) == Sum(a) + Sum(b)
    ensures Pick(a + b, val) == if val < Sum(a) then Pick(a, val) else |a| + Pick(b, val - Sum(a))
    decreases |a|
  {
    Appended(a, b);
    if a == [] {
      assert a + b == b;
    } else {
      assert (a + b)[1..] == a[1..] + b;
      Appended(a[1..], b);
      if val >= WeightOf(a[0]) {
        PickAppended(a[1..], b, val - WeightOf(a[0]));
      }
    }
  }

  /** The pick has weight, and it is the one whose share of [0, Sum) holds the value. */
  lemma {:induction false} PickIs(cells: seq<Cell>, val: nat, i: nat)
    requires val < Sum(cells) && i < |cells|
    ensures Pick(cells, val) == i <==> Sum(cells[..i]) <= val < Sum(cells[..i]) + WeightOf(cells[i])
    decreases |cells|
  {
    if i == 0 {
      assert cells[..0] == [];
    } else {
      assert cells[..i][1..] == cells[1..][..i - 1];
      if val >= WeightOf(cells[0]) {
        PickIs(cells[1..], val - WeightOf(cells[0]), i - 1);
      }
    }
  }

  /** Exactly weight-many values in [0, Sum) pick an item. */
  lemma PickedOften(cells: seq<Cell>, i: nat)
    requires i < |cells|
    ensures (set val | 0 <= val < Sum(cells) && Pick(cells, val) == i) == Interval(Sum(cells[..i]), WeightOf(cells[i]))
    ensures |set val | 0 <= val < Sum(cells) && Pick(cells, val) == i| == WeightOf(cells[i])
  {
    PrefixFits(cells, i);
    forall val | 0 <= val < Sum(cells) ensures Pick(cells, val) == i <==>
        val in Interval(Sum(cells[..i]), WeightOf(cells[i])) {
      PickIs(cells, val, i);
    }
    assert (set val | 0 <= val < Sum(cells) && Pick(cells, val) == i) == Interval(Sum(cells[..i]), WeightOf(cells[i]));
  }

  function Interval(lo: nat, size: nat): (r: set<nat>)
    ensures |r| == size && forall v :: v in r <==> lo <= v < lo + size
  {
    if size == 0 then {} else Interval(lo, size - 1) + {lo + size - 1}
  }

  lemma PrefixFits(cells: seq<Cell>, i: nat)
    requires i < |cells|
    ensures Sum(cells[..i]) + WeightOf(cells[i]) <= Sum(cells)
  {
    assert cells == cells[..i] + cells[i..];
    Appended(cells[..i], cells[i..]);
  }

  /** What replacing one cell does to sum and count. */
  lemma Replaced(cells: seq<Cell>, i: nat, c: Cell)
    requires i < |cells|
    ensures Sum(cells[i := c]) == Sum(cells) - WeightOf(cells[i]) + WeightOf(c)
    ensures Count(cells[i := c]) == Count(cells) - (if cells[i].Free? then 0 else 1) + (if c.Free? then 0 else 1)
  {
    var a, b := cells[..i], cells[i + 1..];
    assert cells == a + ([cells[i]] + b) && cells[i := c] == a + ([c] + b);
    Appended(a, [cells[i]] + b);
    Appended(a, [c] + b);
    assert ([cells[i]] + b)[1..] == b && ([c] + b)[1..] == b;
  }

  lemma SingleSum(c: Cell)
    ensures Sum([c]) == WeightOf(c)
  {
  }

  lemma {:induction false} BlankIs(n: nat)
    ensures Sum(Blank(n)) == 0 && Count(Blank(n)) == 0
    decreases n
  {
    if n > 0 {
      BlankIs(n - 1);
      assert Blank(n)[1..] == Blank(n - 1);
    }
  }

  /** A list is full exactly when no cell is free. */
  lemma {:induction false} FullIs(cells: seq<Cell>)
    ensures Count(cells) <= |cells|
    ensures Count(cells) == |cells| <==> forall i :: 0 <= i < |cells| ==> !cells[i].Free?
    decreases |cells|
  {
    if cells != [] {
      FullIs(cells[1..]);
      if Count(cells) == |cells| {
        forall i | 0 <= i < |cells| ensures !cells[i].Free? {
          assert i > 0 ==> cells[i] == cells[1..][i - 1];
        }
      }
      if forall i :: 0 <= i < |cells| ==> !cells[i].Free? {
        forall i | 0 <= i < |cells[1..]| ensures !cells[1..][i].Free? {
          assert cells[1..][i] == cells[i + 1];
        }
      }
    }
  }

  // ----- Segments of equal length

  function Concat(segs: seq<seq<Cell>>): seq<Cell> {
    if segs == [] then [] else segs[0] + Concat(segs[1..])
  }

  ghost predicate Even(segs: seq<seq<Cell>>, m: nat) {
    forall i :: 0 <= i < |segs| ==> |segs[i]| == m
  }

  lemma {:induction false} ConcatLength(segs: seq<seq<Cell>>, m: nat)
    requires Even(segs, m)
    ensures |Concat(segs)| == |segs| * m
    decreases |segs|
  {
    if segs != [] {
      ConcatLength(segs[1..], m);
      assert |segs| * m == m + (|segs| - 1) * m;
    }
  }

  lemma {:induction false} ConcatSplits(segs: seq<seq<Cell>>, b: nat)
    requires b <= |segs|
    ensures Concat(segs) == Concat(segs[..b]) + Concat(segs[b..])
    decreases b
  {
    if b == 0 {
      assert segs[..0] == [] && segs[0..] == segs;
    } else {
      ConcatSplits(segs[1..], b - 1);
      assert segs[1..][..b - 1] == segs[..b][1..] && segs[1..][b - 1..] == segs[b..];
    }
  }

  /** A segment within the whole. */
  lemma ConcatAround(segs: seq<seq<Cell>>, b: nat, m: nat)
    requires b < |segs| && Even(segs, m)
    ensures Concat(segs) == Concat(segs[..b]) + segs[b] + Concat(segs[b + 1..])
    ensures |Concat(segs[..b])| == b * m
  {
    ConcatSplits(segs, b);
    assert segs[b..][0] == segs[b] && segs[b..][1..] == segs[b + 1..];
    ConcatLength(segs[..b], m);
    var l, r := Concat(segs[..b]), Concat(segs[b + 1..]);
    assert l + (segs[b] + r) == l + segs[b] + r;
  }

  /** Replacing a cell of a segment replaces it in the whole. */
  lemma ConcatReplace(segs: seq<seq<Cell>>, b: nat, m: nat, j: nat, c: Cell)
    requires b < |segs| && Even(segs, m) && j < m
    ensures b * m + j < |Concat(segs)| && Concat(segs)[b * m + j] == segs[b][j]
    ensures Concat(segs[b := segs[b][j := c]]) == Concat(segs)[b * m + j := c]
  {
    var segs' := segs[b := segs[b][j := c]];
    ConcatAround(segs, b, m);
    ConcatAround(segs', b, m);
    assert segs'[..b] == segs[..b] && segs'[b + 1..] == segs[b + 1..];
    MiddleReplace(Concat(segs[..b]), segs[b], Concat(segs[b + 1..]), j, c);
  }

  lemma MiddleReplace(l: seq<Cell>, s: seq<Cell>, r: seq<Cell>, j: nat, c: Cell)
    requires j < |s|
    ensures l + s[j := c] + r == (l + s + r)[|l| + j := c] && (l + s + r)[|l| + j] == s[j]
  {
  }

  /** The whole is full when every segment is. */
  lemma {:induction false} ConcatFull(segs: seq<seq<Cell>>)
    requires forall i :: 0 <= i < |segs| ==> Count(segs[i]) == |segs[i]|
    ensures Count(Concat(segs)) == |Concat(segs)|
    decreases |segs|
  {
    if segs != [] {
      ConcatFull(segs[1..]);
      Appended(segs[0], Concat(segs[1..]));
    }
  }

  lemma ConcatFirstFree(segs: seq<seq<Cell>>, b: nat, m: nat, j: nat)
    requires b < |segs| && Even(segs, m) && j < m && segs[b][j].Free?
    requires forall k :: 0 <= k < b ==> Count(segs[k]) == m
    requires forall k :: 0 <= k < j ==> !segs[b][k].Free?
    ensures b * m + j < |Concat(segs)| && Concat(segs)[b * m + j].Free?
    ensures forall k :: 0 <= k < b * m + j ==> !Concat(segs)[k].Free?
  {
    ConcatAround(segs, b, m);
    ConcatFull(segs[..b]);
    FullIs(Concat(segs[..b]));
    PrefixTaken(Concat(segs[..b]), segs[b], Concat(segs[b + 1..]), j);
  }

  lemma PrefixTaken(l: seq<Cell>, s: seq<Cell>, r: seq<Cell>, j: nat)
    requires j < |s| && s[j].Free? && (forall k :: 0 <= k < |l| ==> !l[k].Free?) && forall k :: 0 <= k < j ==>
               !s[k].Free?
    ensures (l + s + r)[|l| + j].Free? && forall k :: 0 <= k < |l| + j ==> !(l + s + r)[k].Free?
  {
    assert forall k :: 0 <= k < |l| + j ==> (l + s + r)[k] == if k < |l| then l[k] else s[k - |l|];
  }

  /** A value falls either into the first of the remaining segments or behind it. */
  lemma HeadSegment(segs: seq<seq<Cell>>, i: nat, m: nat, v: nat)
    requires i < |segs| && Even(segs, m) && v < Sum(Concat(segs[i..]))
    ensures v < Sum(segs[i]) ==> Pick(Concat(segs[i..]), v) == Pick(segs[i], v)
    ensures v >= Sum(segs[i]) ==>
              && i + 1 < |segs| && v - Sum(segs[i]) < Sum(Concat(segs[i + 1..]))
              && Pick(Concat(segs[i..]), v) == m + Pick(Concat(segs[i + 1..]), v - Sum(segs[i]))
  {
    assert segs[i..][0] == segs[i] && segs[i..][1..] == segs[i + 1..];
    PickAppended(segs[i], Concat(segs[i + 1..]), v);
  }
}

/** A tree with eight branches per node that keeps sums and counts. */
module SelectTree {
  import opened Wrappers
  import opened WeightedCells

  const BRANCHES := 8

  function Pow8(k: nat): (p: nat)
    ensures p > 0
  {
    if k == 0 then 1 else 8 * Pow8(k - 1)
  }

  datatype Slot = Empty | Leaf(item: Id) | Sub(node: Node)

  datatype Node = Node(items: seq<Slot>, weights: seq<nat>, sumWeight: nat, level: nat, itemCnt: nat, maxItems: nat)

  ghost predicate Shape(n: Node)
    decreases n.level
  {
    && |n.items| == |n.weights| == BRANCHES && n.maxItems == Pow8(n.level + 1)
    && forall i :: 0 <= i < BRANCHES ==> ShapeOfSlot(n, i)
  }

  ghost predicate ShapeOfSlot(n: Node, i: nat)
    requires i < |n.items|
    decreases n.level, 0
  {
    match n.items[i]
    case Empty => true
    case Leaf(_) => n.level == 0
    case Sub(c) => n.level > 0 && c.level == n.level - 1 && Shape(c)
  }

  /** The cells below one branch. */
  ghost function Segment(n: Node, i: nat): (cells: seq<Cell>)
    requires Shape(n) && i < BRANCHES
    ensures |cells| == Pow8(n.level)
    decreases n.level, 0
  {
    assert ShapeOfSlot(n, i);
    match n.items[i]
    case Empty => Blank(Pow8(n.level))
    case Leaf(item) => [Taken(item, n.weights[i])]
    case Sub(c) => Flat(c)
  }

  ghost function Segments(n: Node): (segs: seq<seq<Cell>>)
    requires Shape(n)
    ensures |segs| == BRANCHES && Even(segs, Pow8(n.level))
    ensures forall i :: 0 <= i < BRANCHES ==> segs[i] == Segment(n, i)
    decreases n.level, 1
  {
    seq(BRANCHES, i requires 0 <= i < BRANCHES => Segment(n, i))
  }

  /** The flat list that a tree stands for. */
  ghost function Flat(n: Node): (cells: seq<Cell>)
    requires Shape(n)
    ensures |cells| == n.maxItems
    decreases n.level, 2
  {
    ConcatLength(Segments(n), Pow8(n.level));
    Concat(Segments(n))
  }

  /** Sums and counts are exact at every node. */
  ghost predicate Ok(n: Node)
    decreases n.level
  {
    && Shape(n) && n.sumWeight == Sum(Flat(n)) && n.itemCnt == Count(Flat(n))
    && forall i :: 0 <= i < BRANCHES ==> SlotOk(n, i)
  }

  ghost predicate SlotOk(n: Node, i: nat)
    requires Shape(n) && i < BRANCHES
    decreases n.level, 0
  {
    && n.weights[i] == Sum(Segment(n, i))
    && match n.items[i]
       case Empty => true
       case Leaf(_) => n.weights[i] > 0
       case Sub(c) => n.level > 0 && c.level < n.level && Ok(c)
  }

  /** A new node. */
  function Bare(level: nat): Node {
    Node(seq(BRANCHES, _ => Empty), seq(BRANCHES, _ => 0), 0, level, 0, Pow8(level + 1))
  }

  lemma BareOk(level: nat)
    ensures Ok(Bare(level)) && Flat(Bare(level)) == Blank(Pow8(level + 1))
  {
    var n := Bare(level);
    assert Shape(n) by {
      assert forall i :: 0 <= i < BRANCHES ==> ShapeOfSlot(n, i);
    }
    BlankConcat(Segments(n), Pow8(level));
    BlankIs(Pow8(level + 1));
    BlankIs(Pow8(level));
    assert forall i :: 0 <= i < BRANCHES ==> SlotOk(n, i);
  }

  lemma {:induction false} BlankConcat(segs: seq<seq<Cell>>, m: nat)
    requires forall i :: 0 <= i < |segs| ==> segs[i] == Blank(m)
    ensures Concat(segs) == Blank(|segs| * m)
    decreases |segs|
  {
    if segs != [] {
      BlankConcat(segs[1..], m);
      assert |segs| * m == m + (|segs| - 1) * m;
    }
  }

  /** Two nodes that differ in one branch. */
  ghost predicate SameBut(n: Node, n': Node, b: nat) {
    && n'.level == n.level && n'.maxItems == n.maxItems
    && |n.items| == |n.weights| == |n'.items| == |n'.weights| == BRANCHES
    && forall i :: 0 <= i < BRANCHES && i != b ==> n'.items[i] == n.items[i] && n'.weights[i] == n.weights[i]
  }

  lemma ShapeStays(n: Node, n': Node, b: nat)
    requires Shape(n) && SameBut(n, n', b) && b < BRANCHES && ShapeOfSlot(n', b)
    ensures Shape(n') && Segments(n') == Segments(n)[b := Segment(n', b)]
  {
    forall i | 0 <= i < BRANCHES ensures ShapeOfSlot(n', i) {
      assert ShapeOfSlot(n, i);
    }
    forall i | 0 <= i < BRANCHES && i != b ensures Segment(n', i) == Segment(n, i) {
    }
  }

  lemma SlotStays(n: Node, n': Node, b: nat, i: nat)
    requires Ok(n) && Shape(n') && SameBut(n, n', b) && i < BRANCHES && i != b
    ensures SlotOk(n', i)
  {
    assert SlotOk(n, i);
  }

  /** One branch changes one cell; everything else follows. */
  lemma BranchChanges(n: Node, b: nat, j: nat, c: Cell, n': Node)
    requires Ok(n) && b < BRANCHES && j < Pow8(n.level) && SameBut(n, n', b) && ShapeOfSlot(n', b)
    requires Shape(n') && Segment(n', b) == Segment(n, b)[j := c] && SlotOk(n', b)
    requires n'.sumWeight == n.sumWeight - WeightOf(Segment(n, b)[j]) + WeightOf(c)
    requires n'.itemCnt == n.itemCnt - (if Segment(n, b)[j].Free? then 0 else 1) + (if c.Free? then 0 else 1)
    ensures Ok(n') && b * Pow8(n.level) + j < |Flat(n)| && Flat(n)[b * Pow8(n.level) + j] == Segment(n, b)[j]
    ensures Flat(n') == Flat(n)[b * Pow8(n.level) + j := c]
  {
    hide Concat, Sum, Count, SlotOk, ShapeOfSlot, Segment, Segments, Pow8, SameBut, Shape;
    ShapeStays(n, n', b);
    ConcatReplace(Segments(n), b, Pow8(n.level), j, c);
    Replaced(Flat(n), b * Pow8(n.level) + j, c);
    forall i | 0 <= i < BRANCHES ensures SlotOk(n', i) {
      if i != b { SlotStays(n, n', b, i); }
    }
  }

  lemma SlotIs(n: Node, i: nat)
    requires Ok(n) && i < BRANCHES
    ensures ShapeOfSlot(n, i) && SlotOk(n, i)
  {
  }

  /** While the node is not full, some branch is not, and the search for it stays in range. */
  lemma NotAllFull(n: Node)
    requires Ok(n) && n.itemCnt < n.maxItems
    ensures !forall k :: 0 <= k < BRANCHES ==> Count(Segment(n, k)) == Pow8(n.level)
  {
    if forall k :: 0 <= k < BRANCHES ==> Count(Segment(n, k)) == Pow8(n.level) {
      ConcatFull(Segments(n));
    }
  }

  /** Finds the first branch with room. */
  method FindBranch(n: Node) returns (branch: nat)
    requires Ok(n) && n.itemCnt < n.maxItems
    ensures branch < BRANCHES && forall k :: 0 <= k < branch ==> Count(Segment(n, k)) == Pow8(n.level)
    ensures n.items[branch] == Empty
            || (n.items[branch].Sub? && n.items[branch].node.itemCnt < n.items[branch].node.maxItems)
  {
    branch := 0;
    SlotIs(n, 0);
    NotAllFull(n);
    while n.items[branch] != Empty && (n.level == 0 || n.items[branch].node.itemCnt == n.items[branch].node.maxItems)
      invariant branch < BRANCHES && ShapeOfSlot(n, branch) && SlotOk(n, branch)
      invariant forall k :: 0 <= k < branch ==> Count(Segment(n, k)) == Pow8(n.level)
      decreases BRANCHES - branch
    {
      assert Count(Segment(n, branch)) == Pow8(n.level);
      branch := branch + 1;
      assert branch < BRANCHES;
      SlotIs(n, branch);
    }
    if n.items[branch].Sub? {
      FullIs(Flat(n.items[branch].node));
    }
  }

  /** The cell at a place below a branch is the first free one if it is so within the branch and
      all branches before it are full. */
  lemma FirstFree(n: Node, b: nat, j: nat)
    requires Ok(n) && b < BRANCHES && j < Pow8(n.level) && Segment(n, b)[j].Free?
    requires forall k :: 0 <= k < b ==> Count(Segment(n, k)) == Pow8(n.level)
    requires forall k :: 0 <= k < j ==> !Segment(n, b)[k].Free?
    ensures b * Pow8(n.level) + j < |Flat(n)| && Flat(n)[b * Pow8(n.level) + j].Free?
    ensures forall k :: 0 <= k < b * Pow8(n.level) + j ==> !Flat(n)[k].Free?
  {
    hide Shape, Segment, Pow8, Sum, Count, Concat;
    ConcatFirstFree(Segments(n), b, Pow8(n.level), j);
  }

  /** Inserts an item into the first free cell. */
  method Insert(n: Node, item: Id, weight: nat) returns (n': Node, idx: nat)
    requires Ok(n) && weight > 0 && n.itemCnt < n.maxItems
    ensures Ok(n') && n'.level == n.level
    ensures idx < |Flat(n)| && Flat(n)[idx].Free? && forall k :: 0 <= k < idx ==> !Flat(n)[k].Free?
    ensures Flat(n') == Flat(n)[idx := Taken(item, weight)]
    decreases n.level
  {
    hide Sum, Count, Concat;
    var branch := FindBranch(n);
    SlotIs(n, branch);
    n' := n.(itemCnt := n.itemCnt + 1, sumWeight := n.sumWeight + weight,
             weights := n.weights[branch := n.weights[branch] + weight]);
    if n.level == 0 {
      n' := n'.(items := n.items[branch := Leaf(item)]);
      idx := branch;
      ShapeStays(n, n', branch);
      BlankIs(1);
      SingleSum(Taken(item, weight));
      assert Segment(n', branch) == Segment(n, branch)[0 := Taken(item, weight)];
      FirstFree(n, branch, 0);
      BranchChanges(n, branch, 0, Taken(item, weight), n');
      return;
    }
    var sub := if n.items[branch] == Empty then Bare(n.level - 1) else n.items[branch].node;
    BareOk(n.level - 1);
    assert Flat(sub) == Segment(n, branch);
    BlankIs(Pow8(n.level));
    var sub', subIdx := Insert(sub, item, weight);
    n' := n'.(items := n.items[branch := Sub(sub')]);
    idx := sub.maxItems * branch + subIdx;
    ShapeStays(n, n', branch);
    Replaced(Flat(sub), subIdx, Taken(item, weight));
    FirstFree(n, branch, subIdx);
    BranchChanges(n, branch, subIdx, Taken(item, weight), n');
  }

  /** What a cell becomes when its item gets another weight. */
  function Reweighed(c: Cell, weight: nat): Cell {
    if weight == 0 || c.Free? then Free else Taken(c.item, weight)
  }

  /** The branch and the rest of an index. */
  lemma Locate(idx: nat, m: nat)
    requires m > 0 && idx < 8 * m
    ensures idx / m < 8 && 0 <= idx - idx / m * m < m
  {
    var q := idx / m;
    assert q * m <= idx < q * m + m;
    assert q >= 8 ==> q * m >= 8 * m;
  }

  /** A cell that is taken lies below a branch that is there. */
  lemma TakenBelow(n: Node, b: nat, j: nat)
    requires Ok(n) && b < BRANCHES && j < Pow8(n.level)
    ensures b * Pow8(n.level) + j < |Flat(n)| && Flat(n)[b * Pow8(n.level) + j] == Segment(n, b)[j]
    ensures ShapeOfSlot(n, b) && SlotOk(n, b)
    ensures !Segment(n, b)[j].Free? ==> n.items[b] != Empty
    ensures n.level == 0 && n.items[b].Leaf? ==> Segment(n, b) == [Taken(n.items[b].item, n.weights[b])]
    ensures n.items[b].Sub? ==>
              Segment(n, b) == Flat(n.items[b].node) && Ok(n.items[b].node) && n.items[b].node.level == n.level - 1
  {
    SlotIs(n, b);
    ConcatReplace(Segments(n), b, Pow8(n.level), j, Free);
  }

  /** Gives the item at an index another weight; zero removes it. */
  method SetWeight(n: Node, idx: nat, weight: nat) returns (n': Node, diff: int)
    requires Ok(n) && idx < |Flat(n)| && !Flat(n)[idx].Free?
    ensures Ok(n') && n'.level == n.level
    ensures Flat(n') == Flat(n)[idx := Reweighed(Flat(n)[idx], weight)]
    ensures diff == weight - WeightOf(Flat(n)[idx])
    decreases n.level
  {
    hide Sum, Count, Concat, Shape, Ok, SlotOk, Segment;
    OkMeans(n);
    var c := Reweighed(Flat(n)[idx], weight);
    if n.level == 0 {
      TakenBelow(n, idx, 0);
      EnoughThere(Flat(n), idx);
      diff := weight - n.weights[idx];
      n' := n.(weights := n.weights[idx := weight], sumWeight := n.sumWeight + diff);
      if weight == 0 {
        n' := n'.(items := n.items[idx := Empty], itemCnt := n.itemCnt - 1);
      }
      LeafChanges(n, n', idx, weight);
      return;
    }
    var branchItems := n.maxItems / BRANCHES;
    var branch := idx / branchItems;
    Locate(idx, Pow8(n.level));
    var subIdx := idx - branch * branchItems;
    TakenBelow(n, branch, subIdx);
    EnoughThere(Flat(n), idx);
    EnoughThere(Segment(n, branch), subIdx);
    var sub';
    sub', diff := SetWeight(n.items[branch].node, subIdx, weight);
    n' := n.(items := n.items[branch := Sub(sub')], weights := n.weights[branch := n.weights[branch] + diff],
             sumWeight := n.sumWeight + diff);
    if weight == 0 {
      n' := n'.(itemCnt := n.itemCnt - 1);
    }
    SubChanges(n, n', branch, subIdx, sub', weight);
  }

  lemma EnoughThere(cells: seq<Cell>, i: nat)
    requires i < |cells|
    ensures WeightOf(cells[i]) <= Sum(cells) && (!cells[i].Free? ==> Count(cells) > 0)
  {
    Replaced(cells, i, Free);
  }

  lemma OkMeans(n: Node)
    requires Ok(n)
    ensures n.sumWeight == Sum(Flat(n)) && n.itemCnt == Count(Flat(n))
    ensures forall i :: 0 <= i < BRANCHES ==> n.weights[i] == Sum(Segment(n, i))
    ensures Shape(n) && |n.items| == |n.weights| == BRANCHES && n.maxItems == Pow8(n.level + 1) == |Flat(n)|
            && Pow8(n.level + 1) == 8 * Pow8(n.level)
  {
    forall i | 0 <= i < BRANCHES ensures n.weights[i] == Sum(Segment(n, i)) {
      assert SlotOk(n, i);
    }
  }

  /** The cell at an index of the lowest level changes. */
  lemma LeafChanges(n: Node, n': Node, idx: nat, weight: nat)
    requires Ok(n) && n.level == 0 && idx < BRANCHES && n.items[idx].Leaf?
    requires n.sumWeight + weight >= n.weights[idx] && n.itemCnt > 0
    requires n' == n.(weights := n.weights[idx := weight], sumWeight := n.sumWeight + weight - n.weights[idx],
                      items := if weight == 0 then n.items[idx := Empty] else n.items,
                      itemCnt := if weight == 0 then n.itemCnt - 1 else n.itemCnt)
    ensures Ok(n') && Flat(n') == Flat(n)[idx := Reweighed(Flat(n)[idx], weight)]
  {
    SlotIs(n, idx);
    ShapeStays(n, n', idx);
    SingleSum(Taken(n.items[idx].item, weight));
    BlankIs(1);
    var c := Reweighed(Segment(n, idx)[0], weight);
    assert Segment(n', idx) == Segment(n, idx)[0 := c];
    BranchChanges(n, idx, 0, c, n');
  }

  /** A cell below a branch changes. */
  lemma SubChanges(n: Node, n': Node, b: nat, j: nat, sub': Node, weight: nat)
    requires Ok(n) && b < BRANCHES && n.items[b].Sub? && n.level > 0 && j < Pow8(n.level)
    requires Shape(n.items[b].node) && Segment(n, b) == Flat(n.items[b].node) && !Segment(n, b)[j].Free?
    requires Ok(sub') && sub'.level == n.level - 1
             && Flat(sub') == Segment(n, b)[j := Reweighed(Segment(n, b)[j], weight)]
    requires WeightOf(Segment(n, b)[j]) <= n.weights[b] && WeightOf(Segment(n, b)[j]) <= n.sumWeight && n.itemCnt > 0
    requires var diff := weight - WeightOf(Segment(n, b)[j]);
             n' == n.(items := n.items[b := Sub(sub')], weights := n.weights[b := n.weights[b] + diff],
                      sumWeight := n.sumWeight + diff, itemCnt := if weight == 0 then n.itemCnt - 1 else n.itemCnt)
    ensures Ok(n') && b * Pow8(n.level) + j < |Flat(n)|
    ensures Flat(n') == Flat(n)[b * Pow8(n.level) + j := Reweighed(Segment(n, b)[j], weight)]
  {
    hide Sum, Count, Concat;
    SlotIs(n, b);
    ShapeStays(n, n', b);
    Replaced(Segment(n, b), j, Reweighed(Segment(n, b)[j], weight));
    BranchChanges(n, b, j, Reweighed(Segment(n, b)[j], weight), n');
  }

  /** Having passed the first i branches, the value is at v within the rest. */
  ghost predicate Passed(n: Node, val: nat, i: nat, v: nat)
    requires Shape(n)
  {
    && i < BRANCHES && val < Sum(Flat(n)) && v < Sum(Concat(Segments(n)[i..]))
    && Pick(Flat(n), val) == i * Pow8(n.level) + Pick(Concat(Segments(n)[i..]), v)
  }

  lemma PassNone(n: Node, val: nat)
    requires Ok(n) && val < n.sumWeight
    ensures Passed(n, val, 0, val)
  {
    assert Segments(n)[0..] == Segments(n);
  }

  lemma PassOne(n: Node, val: nat, i: nat, v: nat)
    requires Ok(n) && Passed(n, val, i, v) && v >= Sum(Segment(n, i))
    ensures Passed(n, val, i + 1, v - Sum(Segment(n, i)))
  {
    hide Sum, Concat, Pick, Count, Segment, Pow8, Shape;
    var m := Pow8(n.level);
    HeadSegment(Segments(n), i, m, v);
    assert (i + 1) * m == i * m + m;
  }

  /** The first branch whose weight exceeds what is left holds the pick. */
  lemma PassedTo(n: Node, val: nat, i: nat, v: nat)
    requires Ok(n) && Passed(n, val, i, v) && v < Sum(Segment(n, i))
    ensures Flat(n)[Pick(Flat(n), val)] == Segment(n, i)[Pick(Segment(n, i), v)]
  {
    hide Sum, Concat, Pick, Count, Segment, Pow8, Shape;
    HeadSegment(Segments(n), i, Pow8(n.level), v);
    TakenBelow(n, i, Pick(Segment(n, i), v));
  }

  lemma PickedIsTaken(cells: seq<Cell>, val: nat)
    requires val < Sum(cells)
    ensures cells[Pick(cells, val)].Taken?
  {
    PickIs(cells, val, Pick(cells, val));
  }

  /** The item that a value falls on, with its weight. */
  method Choose(n: Node, val: nat) returns (item: Id, weight: nat)
    requires Ok(n) && val < n.sumWeight
    ensures Flat(n)[Pick(Flat(n), val)] == Taken(item, weight)
    decreases n.level
  {
    hide Sum, Count, Concat, Ok, SlotOk, Segment, Pick, Passed, Pow8, Shape;
    OkMeans(n);
    PassNone(n, val);
    var i, v: nat := 0, val;
    while v >= n.weights[i]
      invariant i < BRANCHES && Passed(n, val, i, v)
      decreases BRANCHES - i
    {
      PassOne(n, val, i, v);
      v, i := v - n.weights[i], i + 1;
      PassedMeans(n, val, i, v);
    }
    PassedTo(n, val, i, v);
    PickedIsTaken(Segment(n, i), v);
    TakenBelow(n, i, Pick(Segment(n, i), v));
    if n.level == 0 {
      item, weight := n.items[i].item, n.weights[i];
    } else {
      OkMeans(n.items[i].node);
      item, weight := Choose(n.items[i].node, v);
    }
  }

  lemma PassedMeans(n: Node, val: nat, i: nat, v: nat)
    requires Shape(n) && Passed(n, val, i, v)
    ensures i < BRANCHES
  {
  }

  /** The root gets a level more; what is there keeps its place. */
  method Grow(root: Node) returns (n: Node)
    requires Ok(root)
    ensures Ok(n) && n.maxItems == BRANCHES * root.maxItems && n.itemCnt == root.itemCnt
    ensures Flat(n) == Flat(root) + Blank(7 * root.maxItems)
  {
    n := Node(Bare(root.level + 1).items[0 := Sub(root)], Bare(root.level + 1).weights[0 := root.sumWeight],
              root.sumWeight, root.level + 1, root.itemCnt, root.maxItems * BRANCHES);
    GrownOk(root, n);
  }

  lemma GrownOk(root: Node, n: Node)
    requires Ok(root)
    requires n == Node(Bare(root.level + 1).items[0 := Sub(root)], Bare(root.level + 1).weights[0 := root.sumWeight],
                       root.sumWeight, root.level + 1, root.itemCnt, root.maxItems * BRANCHES)
    ensures Ok(n) && Flat(n) == Flat(root) + Blank(7 * root.maxItems)
  {
    var bare, m := Bare(root.level + 1), root.maxItems;
    BareOk(root.level + 1);
    ShapeStays(bare, n, 0);
    var segs := Segments(n);
    forall i | 0 <= i < 7 ensures segs[1..][i] == Blank(m) {
      assert ShapeOfSlot(n, i + 1);
    }
    BlankConcat(segs[1..], m);
    BlankIs(7 * m);
    BlankIs(m);
    Appended(Flat(root), Blank(7 * m));
    forall i | 0 <= i < BRANCHES ensures SlotOk(n, i) {
      assert ShapeOfSlot(n, i);
    }
  }
}

/** The selector: a tree that grows at the root and a map from items to places in it. */
module RandSelect {
  import opened Wrappers
  import opened WeightedCells
  import SelectTree

  /** The index map knows where every item is, and the items in the tree are exactly the known. */
  ghost predicate Indexed(cells: seq<Cell>, idx: map<Id, nat>) {
    && (forall x :: x in idx ==>
        idx[x] < |cells| && cells[idx[x]].Taken? && cells[idx[x]].item == x && cells[idx[x]].weight > 0)
    && (forall p :: 0 <= p < |cells| && cells[p].Taken? ==> cells[p].item in idx && idx[cells[p].item] == p)
  }

  /** The weight of every item. */
  ghost function Weights(cells: seq<Cell>, idx: map<Id, nat>): map<Id, nat>
    requires Indexed(cells, idx)
  {
    map x | x in idx :: cells[idx[x]].weight
  }

  /** For each item exactly weight-many of the values below the sum choose it. */
  lemma FairShare(cells: seq<Cell>, idx: map<Id, nat>, x: Id)
    requires Indexed(cells, idx) && x in idx
    ensures |set val | 0 <= val < Sum(cells) && Chosen(cells, val) == Some(x)| == Weights(cells, idx)[x]
  {
    PickedOften(cells, idx[x]);
    forall val | 0 <= val < Sum(cells) ensures Chosen(cells, val) == Some(x) <==> Pick(cells, val) == idx[x] {
      SelectTree.PickedIsTaken(cells, val);
    }
    assert (set val | 0 <= val < Sum(cells) && Chosen(cells, val) == Some(x)) ==
           (set val | 0 <= val < Sum(cells) && Pick(cells, val) == idx[x]);
  }

  ghost function Chosen(cells: seq<Cell>, val: nat): Option<Id> {
    if val < Sum(cells) && cells[Pick(cells, val)].Taken? then Some(cells[Pick(cells, val)].item) else None
  }

  ghost function RowOf(v: nat, b: set<nat>): set<(nat, nat)> {
    set y | y in b :: (v, y)
  }

  ghost function PairsOf(a: set<nat>, b: set<nat>): set<(nat, nat)> {
    set x, y | x in a && y in b :: (x, y)
  }

  lemma {:induction false} PairsCount(a: set<nat>, b: set<nat>)
    ensures |PairsOf(a, b)| == |a| * |b|
    decreases a
  {
    if a == {} {
      assert PairsOf(a, b) == {};
    } else {
      var v :| v in a;
      PairsCount(a - {v}, b);
      RowCount(v, b);
      assert PairsOf(a, b) == RowOf(v, b) + PairsOf(a - {v}, b);
      assert RowOf(v, b) !! PairsOf(a - {v}, b);
      OneRowMore(|a| - 1, |b|);
    }
  }

  lemma OneRowMore(n: nat, m: nat)
    ensures (n + 1) * m == n * m + m
  {
  }

  lemma {:induction false} RowCount(v: nat, b: set<nat>)
    ensures |RowOf(v, b)| == |b|
    decreases b
  {
    if b == {} {
      assert RowOf(v, b) == {};
    } else {
      var w :| w in b;
      RowCount(v, b - {w});
      assert RowOf(v, b) == RowOf(v, b - {w}) + {(v, w)};
      assert (v, w) !in RowOf(v, b - {w});
    }
  }

  /** An item whose weight has fallen from `last` to `weight` is found by the first draw and kept by the
      second in `last * weight` of the `Sum * last` cases: its share is that of its present weight. */
  lemma FairRefusal(cells: seq<Cell>, idx: map<Id, nat>, x: Id, weight: nat)
    requires Indexed(cells, idx) && x in idx && weight <= Weights(cells, idx)[x]
    ensures var last := Weights(cells, idx)[x];
            |set val, roll | 0 <= val < Sum(cells) && 0 <= roll < last && Chosen(cells, val) == Some(x) && roll < weight
               :: (val, roll)| == last * weight
  {
    FairShare(cells, idx, x);
    hide Chosen, Indexed, Weights, Sum;
    var last := Weights(cells, idx)[x];
    var found := set val | 0 <= val < Sum(cells) && Chosen(cells, val) == Some(x);
    var kept := Interval(0, weight);
    PairsCount(found, kept);
    assert (set val, roll | 0 <= val < Sum(cells) && 0 <= roll < last && Chosen(cells, val) == Some(x) && roll < weight
              :: (val, roll)) == PairsOf(found, kept);
  }

  lemma IndexedInsert(cells: seq<Cell>, idx: map<Id, nat>, x: Id, p: nat, weight: nat)
    requires Indexed(cells, idx) && x !in idx && p < |cells| && cells[p].Free? && weight > 0
    ensures Indexed(cells[p := Taken(x, weight)], idx[x := p])
    ensures Weights(cells[p := Taken(x, weight)], idx[x := p]) == Weights(cells, idx)[x := weight]
  {
  }

  lemma IndexedReweigh(cells: seq<Cell>, idx: map<Id, nat>, x: Id, weight: nat)
    requires Indexed(cells, idx) && x in idx
    ensures var cells' := cells[idx[x] := SelectTree.Reweighed(cells[idx[x]], weight)];
            if weight == 0 then Indexed(cells', idx - {x}) && Weights(cells', idx - {x}) == Weights(cells, idx) - {x}
            else Indexed(cells', idx) && Weights(cells', idx) == Weights(cells, idx)[x := weight]
  {
  }

  lemma IndexedGrow(cells: seq<Cell>, idx: map<Id, nat>, n: nat)
    requires Indexed(cells, idx)
    ensures Indexed(cells + Blank(n), idx) && Weights(cells + Blank(n), idx) == Weights(cells, idx)
  {
    var all := cells + Blank(n);
    assert forall p :: |cells| <= p < |all| ==> all[p].Free?;
    assert forall p :: 0 <= p < |cells| ==> all[p] == cells[p];
  }

  /** A round of a choice: the tree and the index, the item that was found, its weight there and the
      weight it has now. */
  datatype Round = Round(cells: seq<Cell>, idx: map<Id, nat>, item: Id, last: nat, weight: nat)

  /** The weights before a round. */
  ghost function Before(r: Round): map<Id, nat>
    requires Indexed(r.cells, r.idx)
  {
    Weights(r.cells, r.idx)
  }

  /** The weights after a round: the item that was found has its present weight. */
  ghost function Behind(r: Round): map<Id, nat>
    requires Indexed(r.cells, r.idx)
  {
    if r.weight == 0 then Before(r) - {r.item} else Before(r)[r.item := r.weight]
  }

  /** The item is kept: its weight has not fallen, or the second draw is below it. */
  ghost predicate Keeps(r: Round, roll: nat) {
    r.weight >= r.last || roll < r.weight
  }

  /** The first draw of the round finds the item. */
  ghost predicate Finds(r: Round, i: nat, draw: (nat, nat) -> nat, current: (Id, nat) -> nat) {
    && Indexed(r.cells, r.idx) && Sum(r.cells) > 0 && Chosen(r.cells, draw(i, Sum(r.cells))) == Some(r.item)
    && r.item in r.idx && r.last == Before(r)[r.item] && r.weight == current(r.item, i)
  }

  /** What was left by the rounds. */
  ghost function LeftBy(rounds: seq<Round>, w: map<Id, nat>): map<Id, nat>
    requires forall i :: 0 <= i < |rounds| ==> Indexed(rounds[i].cells, rounds[i].idx)
  {
    if rounds == [] then w else Behind(rounds[|rounds| - 1])
  }

  /** Every round finds an item by its draw among what the one before has left, and every one but the
      last refuses it. */
  ghost predicate Played(rounds: seq<Round>, w: map<Id, nat>, draw: (nat, nat) -> nat, roll: (nat, nat) -> nat,
                         current: (Id, nat) -> nat)
  {
    && (forall i :: 0 <= i < |rounds| ==> Finds(rounds[i], i, draw, current))
    && (forall i :: 0 <= i < |rounds| ==> Before(rounds[i]) == LeftBy(rounds[..i], w))
    && (forall i :: 0 <= i < |rounds| - 1 ==> !Keeps(rounds[i], roll(i, rounds[i].last)))
  }

  lemma PlayedMore(rounds: seq<Round>, r: Round, w: map<Id, nat>, draw: (nat, nat) -> nat, roll: (nat, nat) -> nat,
                   current: (Id, nat) -> nat)
    requires Played(rounds, w, draw, roll, current) && Finds(r, |rounds|, draw, current)
             && Before(r) == LeftBy(rounds, w)
    requires rounds != [] ==>
               !Keeps(rounds[|rounds| - 1], roll(|rounds| - 1, rounds[|rounds| - 1].last))
    ensures Played(rounds + [r], w, draw, roll, current) && LeftBy(rounds + [r], w) == Behind(r)
  {
    hide Finds, Before, Behind, Keeps, Indexed;
    var all := rounds + [r];
    forall i | 0 <= i < |all| ensures Finds(all[i], i, draw, current) {
    }
    forall i | 0 <= i < |all| ensures Indexed(all[i].cells, all[i].idx) {
      FindsIndexed(all[i], i, draw, current);
    }
    forall i | 0 <= i < |all| ensures Before(all[i]) == LeftBy(all[..i], w) {
      assert all[..i] == rounds[..i];
      assert rounds[..|rounds|] == rounds;
    }
  }

  /** While no weight changes, the first item found is chosen. */
  lemma SteadyOnce(rounds: seq<Round>, w: map<Id, nat>, draw: (nat, nat) -> nat, roll: (nat, nat) -> nat,
                   current: (Id, nat) -> nat)
    requires Played(rounds, w, draw, roll, current) && forall x :: x in w ==> current(x, 0) == w[x]
    ensures |rounds| <= 1
    ensures rounds != [] ==>
              var cells := rounds[0].cells;
              Chosen(cells, draw(0, Sum(cells))) == Some(rounds[0].item) && Behind(rounds[0]) == w
  {
    if rounds != [] {
      assert Finds(rounds[0], 0, draw, current) && Before(rounds[0]) == LeftBy(rounds[..0], w);
      assert rounds[..0] == [];
      hide Chosen, Sum, Indexed, Weights;
      assert w[rounds[0].item] == rounds[0].weight == rounds[0].last;
    }
  }

  lemma FindsIndexed(r: Round, i: nat, draw: (nat, nat) -> nat, current: (Id, nat) -> nat)
    requires Finds(r, i, draw, current)
    ensures Indexed(r.cells, r.idx)
  {
  }

  class WeightedRandomSelect {
    var root: SelectTree.Node
    var idx: map<Id, nat>

    ghost predicate Valid()
      reads this
    {
      SelectTree.Ok(root) && Indexed(SelectTree.Flat(root), idx)
    }

    ghost function Contents(): map<Id, nat>
      requires Valid()
      reads this
    {
      Weights(SelectTree.Flat(root), idx)
    }

    constructor ()
      ensures Valid() && Contents() == map[]
    {
      root, idx := SelectTree.Bare(0), map[];
      SelectTree.BareOk(0);
    }

    /** Gives an item a weight; an item of weight zero is not there. The items that stay keep their
        index, also when the tree grows. */
    method SetWeight(x: Id, weight: nat)
      requires Valid()
      modifies this
      ensures Valid()
      ensures Contents() == if weight == 0 then old(Contents()) - {x} else old(Contents())[x := weight]
      ensures forall y :: y in old(idx) && y in idx ==> idx[y] == old(idx)[y]
      ensures root.sumWeight == old(root.sumWeight) - (if x in old(Contents()) then old(Contents())[x] else 0) + weight
    {
      hide SelectTree.Ok, SelectTree.Shape, SelectTree.Flat, Indexed, Weights, Sum, Count;
      SelectTree.OkMeans(root);
      IndexedMeans(SelectTree.Flat(root), idx);
      if x in idx {
        IndexedReweigh(SelectTree.Flat(root), idx, x, weight);
        Replaced(SelectTree.Flat(root), idx[x], SelectTree.Reweighed(SelectTree.Flat(root)[idx[x]], weight));
        var diff;
        root, diff := SelectTree.SetWeight(root, idx[x], weight);
        if weight == 0 {
          idx := idx - {x};
        }
      } else if weight != 0 {
        if root.itemCnt == root.maxItems {
          IndexedGrow(SelectTree.Flat(root), idx, 7 * root.maxItems);
          BlankIs(7 * root.maxItems);
          Appended(SelectTree.Flat(root), Blank(7 * root.maxItems));
          root := SelectTree.Grow(root);
        }
        SelectTree.OkMeans(root);
        FullIs(SelectTree.Flat(root));
        var p;
        ghost var cells := SelectTree.Flat(root);
        root, p := SelectTree.Insert(root, x, weight);
        IndexedInsert(cells, idx, x, p, weight);
        Replaced(cells, p, Taken(x, weight));
        idx := idx[x := p];
      }
      SelectTree.OkMeans(root);
    }

    /** A round of a choice: finds an item, stores its present weight, and tells whether it is kept. */
    method PlayRound(current: (Id, nat) -> nat, draw: (nat, nat) -> nat, roll: (nat, nat) -> nat, round: nat)
      returns (choice: Id, kept: bool, ghost now: Round)
      requires Valid() && root.sumWeight > 0 && forall i, n: nat :: n > 0 ==> draw(i, n) < n
      modifies this
      ensures Valid() && Finds(now, round, draw, current) && now.item == choice
      ensures Before(now) == old(Contents()) && Contents() == Behind(now) && choice in old(Contents())
      ensures kept == Keeps(now, roll(round, now.last)) && (kept ==> now.weight > 0)
      ensures !kept ==> root.sumWeight < old(root.sumWeight)
    {
      hide SelectTree.Ok, SelectTree.Shape, SelectTree.Flat, Indexed, Weights, Sum, Chosen, Pick;
      SelectTree.OkMeans(root);
      IndexedMeans(SelectTree.Flat(root), idx);
      var val := draw(round, root.sumWeight);
      var last;
      choice, last := SelectTree.Choose(root, val);
      var weight := current(choice, round);
      now := Round(SelectTree.Flat(root), idx, choice, last, weight);
      RoundFinds(now, round, val, draw, current);
      if weight != last {
        SetWeight(choice, weight);
      }
      kept := weight >= last || roll(round, last) < weight;
    }

    /** Chooses an item by its weight. The choice is asked for its weight in every round, and may
        answer differently each time. When its weight differs from the stored one it is stored, and if
        it is lower the choice may be refused, which lowers the sum; so the loop ends. Nothing is
        chosen only when every item has been found without weight. `draw` and `roll` are the random
        numbers of the rounds. */
    method Choose(current: (Id, nat) -> nat, draw: (nat, nat) -> nat, roll: (nat, nat) -> nat)
      returns (r: Option<Id>, ghost rounds: seq<Round>)
      requires Valid() && forall i, n: nat :: n > 0 ==> draw(i, n) < n
      modifies this
      ensures Valid() && Played(rounds, old(Contents()), draw, roll, current) && AllIndexed(rounds)
      ensures Contents() == LeftBy(rounds, old(Contents()))
      ensures Refreshed(old(Contents()), Contents(), current, |rounds|)
      ensures r == None ==> Contents() == map[] && forall x :: x in old(Contents()) ==> Weightless(current, x, |rounds|)
      ensures r != None ==>
                && rounds != [] && r.value == rounds[|rounds| - 1].item
                && Keeps(rounds[|rounds| - 1], roll(|rounds| - 1, rounds[|rounds| - 1].last))
                && r.value in old(Contents()) && r.value in Contents()
                && Contents()[r.value] == current(r.value, |rounds| - 1) > 0
      ensures r == None && rounds != [] ==>
                !Keeps(rounds[|rounds| - 1], roll(|rounds| - 1, rounds[|rounds| - 1].last))
    {
      hide SelectTree.Ok, SelectTree.Shape, SelectTree.Flat, Indexed, Weights, Refreshed, Weightless, Played, LeftBy,
           Sum, Chosen, Keeps;
      RefreshedNone(Contents(), current);
      rounds := [];
      PlayedNone(Contents(), draw, roll, current);
      var round := 0;
      while root.sumWeight > 0
        invariant Valid() && Refreshed(old(Contents()), Contents(), current, |rounds|) && round == |rounds|
        invariant AllIndexed(rounds) && Played(rounds, old(Contents()), draw, roll, current)
        invariant Contents() == LeftBy(rounds, old(Contents()))
        invariant rounds != [] ==> !Keeps(rounds[|rounds| - 1], roll(|rounds| - 1, rounds[|rounds| - 1].last))
        decreases root.sumWeight
      {
        ghost var before, now := Contents(), Round([], map[], 0, 0, 0);
        var choice, kept;
        choice, kept, now := PlayRound(current, draw, roll, round);
        PlayedMore(rounds, now, old(Contents()), draw, roll, current);
        RefreshedRound(old(Contents()), before, Contents(), current, now, |rounds|);
        rounds, round := rounds + [now], round + 1;
        if kept {
          return Some(choice), rounds;
        }
      }
      SelectTree.OkMeans(root);
      NoWeight(SelectTree.Flat(root), idx);
      RefreshedMeans(old(Contents()), Contents(), current, |rounds|);
      r := None;
    }
  }

  lemma RefreshedRound(w0: map<Id, nat>, w: map<Id, nat>, w': map<Id, nat>, current: (Id, nat) -> nat, now: Round,
                       round: nat)
    requires Refreshed(w0, w, current, round) && now.item in w && now.weight == current(now.item, round)
    requires w' == if now.weight == 0 then w - {now.item} else w[now.item := now.weight]
    ensures Refreshed(w0, w', current, round + 1) && now.item in w0
    ensures now.weight > 0 ==> now.item in w' && w'[now.item] == now.weight
  {
    hide Refreshed;
    RefreshedMeans(w0, w, current, round);
    RefreshedLater(w0, w, current, round);
    RefreshedOne(w0, w, w', current, now.item, round);
  }

  ghost predicate AllIndexed(rounds: seq<Round>) {
    forall i :: 0 <= i < |rounds| ==> Indexed(rounds[i].cells, rounds[i].idx)
  }

  lemma PlayedNone(w: map<Id, nat>, draw: (nat, nat) -> nat, roll: (nat, nat) -> nat, current: (Id, nat) -> nat)
    ensures Played([], w, draw, roll, current) && LeftBy([], w) == w
  {
  }

  lemma RoundFinds(r: Round, i: nat, val: nat, draw: (nat, nat) -> nat, current: (Id, nat) -> nat)
    requires Indexed(r.cells, r.idx) && Sum(r.cells) > 0 && val == draw(i, Sum(r.cells)) < Sum(r.cells)
    requires r.cells[Pick(r.cells, val)] == Taken(r.item, r.last) && r.weight == current(r.item, i)
    ensures Finds(r, i, draw, current)
  {
  }

  /** The item said in one of the rounds that it has no weight. */
  ghost predicate Weightless(current: (Id, nat) -> nat, x: Id, rounds: nat) {
    exists i :: 0 <= i < rounds && current(x, i) == 0
  }

  /** Every weight is the old one or what the item said in one of the rounds, and only items that
      were found without weight are gone. */
  ghost predicate Refreshed(before: map<Id, nat>, after: map<Id, nat>, current: (Id, nat) -> nat, rounds: nat) {
    && (forall x :: x in after ==>
        x in before && (after[x] == before[x] || exists i :: 0 <= i < rounds && after[x] == current(x, i)))
    && (forall x :: x in before && x !in after ==> Weightless(current, x, rounds))
  }

  lemma RefreshedNone(w: map<Id, nat>, current: (Id, nat) -> nat)
    ensures Refreshed(w, w, current, 0)
  {
  }

  lemma RefreshedLater(w0: map<Id, nat>, w: map<Id, nat>, current: (Id, nat) -> nat, rounds: nat)
    requires Refreshed(w0, w, current, rounds)
    ensures Refreshed(w0, w, current, rounds + 1)
  {
  }

  lemma RefreshedOne(w0: map<Id, nat>, w: map<Id, nat>, w': map<Id, nat>, current: (Id, nat) -> nat, x: Id, round: nat)
    requires Refreshed(w0, w, current, round + 1) && x in w
    requires w' == if current(x, round) == 0 then w - {x} else w[x := current(x, round)]
    ensures Refreshed(w0, w', current, round + 1)
  {
  }

  lemma RefreshedMeans(w0: map<Id, nat>, w: map<Id, nat>, current: (Id, nat) -> nat, rounds: nat)
    requires Refreshed(w0, w, current, rounds)
    ensures w.Keys <= w0.Keys && (w == map[] ==> forall x :: x in w0 ==> Weightless(current, x, rounds))
  {
  }

  lemma NoWeight(cells: seq<Cell>, idx: map<Id, nat>)
    requires Indexed(cells, idx) && Sum(cells) == 0
    ensures Weights(cells, idx) == map[]
  {
    forall x | x in idx ensures false {
      SelectTree.EnoughThere(cells, idx[x]);
    }
  }

  lemma IndexedMeans(cells: seq<Cell>, idx: map<Id, nat>)
    requires Indexed(cells, idx)
    ensures Weights(cells, idx).Keys == idx.Keys
    ensures forall x :: x in idx ==>
              idx[x] < |cells| && !cells[idx[x]].Free? && cells[idx[x]] == Taken(x, Weights(cells, idx)[x])
                && Weights(cells, idx)[x] > 0
    ensures forall p :: 0 <= p < |cells| && cells[p].Taken? ==> cells[p].item in idx && idx[cells[p].item] == p
  {
  }
}
