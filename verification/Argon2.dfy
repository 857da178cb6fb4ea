/** Argon2's block indexing (section 3.4 of RFC 9106), and why the lanes of a slice can be filled in any order. */
module Argon2 {
  import opened Words

  /** Lanes of four segments each. */
  datatype Shape = Shape(lanes: nat, seg: nat) {
    function LaneSize(): nat { 4 * seg }

    /** At least two blocks per segment, and the whole area counted in 32 bits. */
    ghost predicate Ok() {
      lanes >= 1 && seg >= 2 && lanes * LaneSize() < 0x1_0000_0000
    }
  }

  /** From nb_blocks >= 8 * nb_lanes. */
  function ShapeOf(nbBlocks: u32, nbLanes: u32): Shape
    requires nbLanes > 0
  {
    Shape(nbLanes, nbBlocks / nbLanes / 4)
  }

  lemma ShapeIsOk(nbBlocks: u32, nbLanes: u32)
    requires nbLanes > 0 && nbBlocks >= 8 * nbLanes
    ensures ShapeOf(nbBlocks, nbLanes).Ok()
    ensures ShapeOf(nbBlocks, nbLanes).lanes * ShapeOf(nbBlocks, nbLanes).LaneSize() <= nbBlocks
  {
    var n: int, l: int := nbBlocks, nbLanes;
    var q := n / l;
    assert n == q * l + n % l;
    MulMono(q + 1, 8, l);
    assert (q + 1) * l == q * l + l;
    MulMono(4 * (q / 4), q, l);
    Commute(l, 4 * (q / 4));
  }

  lemma MulMono(a: int, b: int, m: nat)
    ensures a <= b ==> a * m <= b * m
  {
  }

  /** slice * segment_size */
  function Offset(c: Shape, slice: nat): nat
    requires slice < 4
  {
    if slice == 0 then 0 else if slice == 1 then c.seg else if slice == 2 then 2 * c.seg else 3 * c.seg
  }

  /** Where the first free block of a segment is: the first two of each lane are given. */
  function FirstBlock(pass: nat, slice: nat): nat {
    if pass == 0 && slice == 0 then 2 else 0
  }

  /** The position before the current one in its lane; the lane's last block for its first. */
  function Previous(c: Shape, slice: nat, block: nat): int
    requires slice < 4
  {
    if block == 0 && Offset(c, slice) == 0 then c.LaneSize() - 1 else Offset(c, slice) + block - 1
  }

  // ---------- The reference block ----------

  function RefLane(c: Shape, pass: nat, slice: nat, segment: nat, seed: u64): nat
    requires c.lanes > 0
  {
    if pass == 0 && slice == 0 then segment else seed as int / 0x1_0000_0000 % c.lanes
  }

  /** The number of blocks to choose from, in 32-bit arithmetic. */
  function WindowSize(c: Shape, pass: nat, slice: nat, segment: nat, block: nat, lane: nat): nat
    requires slice < 4
  {
    var segments := if pass == 0 then Offset(c, slice) else 3 * c.seg;
    var extra := if lane == segment then (block - 1) % 0x1_0000_0000 else if block == 0 then 0xFFFF_FFFF else 0;
    (segments + extra) % 0x1_0000_0000
  }

  function WindowStart(c: Shape, pass: nat, slice: nat): nat
    requires slice < 4
  {
    if pass == 0 then 0 else Offset(c, (slice + 1) % 4)
  }

  /** y, the part of the window the seed skips from its end. */
  function Skip(window: nat, seed: u64): nat {
    var j1 := seed as int % 0x1_0000_0000;
    var x := j1 * j1 / 0x1_0000_0000;
    window * x / 0x1_0000_0000
  }

  lemma SkipBound(window: nat, seed: u64)
    requires window > 0
    ensures 0 <= Skip(window, seed) < window
  {
    var j1 := seed as int % 0x1_0000_0000;
    MulBound(j1, 0xFFFF_FFFF, j1, 0xFFFF_FFFF);
    var x := j1 * j1 / 0x1_0000_0000;
    assert 0 <= x < 0x1_0000_0000;
    ScaledBound(window, x);
  }

  lemma ScaledBound(window: nat, x: nat)
    requires window > 0 && x < 0x1_0000_0000
    ensures 0 <= window * x / 0x1_0000_0000 < window
  {
    assert window * x <= window * 0xFFFF_FFFF;
  }

  /** The position in its lane, from z counted back from the end of the window. */
  function RefPos(c: Shape, pass: nat, slice: nat, segment: nat, block: nat, lane: nat, seed: u64): nat
    requires slice < 4 && c.seg > 0
  {
    var window := WindowSize(c, pass, slice, segment, block, lane);
    var z := window - 1 - Skip(window, seed);
    (WindowStart(c, pass, slice) + z) % c.LaneSize()
  }

  /** The positions that have content when block of a segment is next and the lanes go one after the other: those of
      earlier slices, of earlier lanes in this slice and of earlier blocks in this segment; after the first pass,
      all. */
  predicate Filled(c: Shape, pass: nat, slice: nat, segment: nat, block: nat, lane: nat, pos: nat)
    requires slice < 4
  {
    var next := if lane < segment then c.seg else if lane == segment then block else FirstBlock(pass, slice);
    pass > 0 || pos < Offset(c, slice) + next
  }

  predicate InSlice(c: Shape, slice: nat, pos: nat)
    requires slice < 4
  {
    Offset(c, slice) <= pos < Offset(c, slice) + c.seg
  }

  /** A block that is next in its segment. */
  ghost predicate IsNext(c: Shape, pass: nat, slice: nat, segment: nat, block: nat) {
    c.Ok() && slice < 4 && segment < c.lanes && FirstBlock(pass, slice) <= block < c.seg
  }

  lemma WindowFits(c: Shape, pass: nat, slice: nat, segment: nat, block: nat, lane: nat)
    requires IsNext(c, pass, slice, segment, block) && lane < c.lanes && (pass == 0 && slice == 0 ==> lane == segment)
    ensures var base := if pass == 0 then Offset(c, slice) else 3 * c.seg;
            WindowSize(c, pass, slice, segment, block, lane) ==
              (if lane == segment then base + block - 1 else if block == 0 then base - 1 else base) >= 1
  {
    SegFits(c);
    WindowArith(if pass == 0 then Offset(c, slice) else 3 * c.seg, block);
  }

  lemma SegFits(c: Shape)
    requires c.Ok()
    ensures 4 * c.seg < 0x1_0000_0000
  {
    MulMono(1, c.lanes, c.LaneSize());
  }

  lemma WindowArith(base: nat, block: nat)
    requires base + block < 0x1_0000_0000
    ensures base + block >= 1 ==> (base + (block - 1) % 0x1_0000_0000) % 0x1_0000_0000 == base + block - 1
    ensures base >= 1 ==> (base + 0xFFFF_FFFF) % 0x1_0000_0000 == base - 1
    ensures (base + 0) % 0x1_0000_0000 == base
  {
  }

  /** The reference block exists, has been filled, is neither the current nor the previous block, and in another lane is
      never part of the current slice. */
  lemma RefOk(c: Shape, pass: nat, slice: nat, segment: nat, block: nat, seed: u64)
    requires IsNext(c, pass, slice, segment, block)
    ensures var lane := RefLane(c, pass, slice, segment, seed);
            var pos := RefPos(c, pass, slice, segment, block, lane, seed);
            && lane < c.lanes && pos < c.LaneSize()
            && Filled(c, pass, slice, segment, block, lane, pos)
            && Filled(c, pass, slice, segment, block, segment, Previous(c, slice, block))
            && (lane == segment ==> pos != Offset(c, slice) + block && pos != Previous(c, slice, block))
            && (lane != segment ==> !InSlice(c, slice, pos))
            && (lane == segment && InSlice(c, slice, pos) ==> pos < Offset(c, slice) + block)
  {
    var lane := RefLane(c, pass, slice, segment, seed);
    WindowFits(c, pass, slice, segment, block, lane);
    var window := WindowSize(c, pass, slice, segment, block, lane);
    SkipBound(window, seed);
    RefPosMeans(c, pass, slice, window - 1 - Skip(window, seed));
  }

  lemma RefPosMeans(c: Shape, pass: nat, slice: nat, z: nat)
    requires c.seg > 0 && slice < 4 && z < c.LaneSize()
    ensures var pos := (WindowStart(c, pass, slice) + z) % c.LaneSize();
            pos == if WindowStart(c, pass, slice) + z < c.LaneSize() then WindowStart(c, pass, slice) + z
                   else WindowStart(c, pass, slice) + z - c.LaneSize()
  {
    WrapOnce(WindowStart(c, pass, slice) + z, c.LaneSize());
  }

  lemma WrapOnce(x: nat, m: nat)
    requires 0 <= x < 2 * m
    ensures x % m == if x < m then x else x - m
  {
    if x < m { ModUnique(x, 0, m, x); } else { ModUnique(x, 1, m, x - m); }
  }

  // ---------- The reference set ----------

  function Positions(from: nat, n: nat): (s: seq<nat>)
    ensures |s| == n && forall i :: 0 <= i < n ==> s[i] == from + i
  {
    seq(n, i requires 0 <= i < n => from + i)
  }

  /** The blocks of one of the four segments of a lane. */
  function SegmentOf(c: Shape, k: nat): (s: seq<nat>)
    ensures |s| == c.seg && forall i :: 0 <= i < c.seg ==> s[i] == k * c.seg + i
  {
    Positions(k * c.seg, c.seg)
  }

  /** The segments of a lane that were finished last, oldest first, at most three. */
  function FinishedSegments(c: Shape, pass: nat, slice: nat): seq<nat>
    requires slice < 4
  {
    if pass > 0 then
      SegmentOf(c, (slice + 1) % 4) + SegmentOf(c, (slice + 2) % 4) + SegmentOf(c, (slice + 3) % 4)
    else if slice == 0 then []
    else if slice == 1 then SegmentOf(c, 0)
    else if slice == 2 then SegmentOf(c, 0) + SegmentOf(c, 1)
    else SegmentOf(c, 0) + SegmentOf(c, 1) + SegmentOf(c, 2)
  }

  /** The set W of section 3.4.2 of RFC 9106, oldest first: the finished segments and, in the current lane, the current
      one so far, without the previous block; for the first block of a segment, without the last block of any lane. */
  function Candidates(c: Shape, pass: nat, slice: nat, block: nat, same: bool): seq<nat>
    requires slice < 4
  {
    var all := FinishedSegments(c, pass, slice) + if same then Positions(slice * c.seg, block) else [];
    if (same || block == 0) && all != [] then all[..|all| - 1] else all
  }

  lemma SliceStart(c: Shape, slice: nat)
    requires slice < 4
    ensures Offset(c, slice) == slice * c.seg
  {
  }

  lemma ThreeSegments(c: Shape, i: nat, j: nat, k: nat, z: nat)
    requires z < 3 * c.seg
    ensures var all := SegmentOf(c, i) + SegmentOf(c, j) + SegmentOf(c, k);
            |all| == 3 * c.seg && all[z] == if z < c.seg then i * c.seg + z
                                            else if z < 2 * c.seg then j * c.seg + (z - c.seg)
                                            else k * c.seg + (z - 2 * c.seg)
  {
  }

  lemma FinishedAt(c: Shape, pass: nat, slice: nat, z: nat)
    requires c.seg > 0 && slice < 4 && z < |FinishedSegments(c, pass, slice)|
    ensures FinishedSegments(c, pass, slice)[z] == (WindowStart(c, pass, slice) + z) % c.LaneSize()
  {
    RefPosMeans(c, pass, slice, z);
    if pass > 0 {
      var i, j, k := (slice + 1) % 4, (slice + 2) % 4, (slice + 3) % 4;
      SliceStart(c, i);
      ThreeSegments(c, i, j, k, z);
      AroundLane(c, i, j, k, z);
    } else {
      FirstPass(c, slice, z);
    }
  }

  lemma FirstPass(c: Shape, slice: nat, z: nat)
    requires slice < 4 && z < |FinishedSegments(c, 0, slice)|
    ensures FinishedSegments(c, 0, slice)[z] == z && z < 3 * c.seg
  {
    if slice == 3 { ThreeSegments(c, 0, 1, 2, z); }
  }

  lemma AroundLane(c: Shape, i: nat, j: nat, k: nat, z: nat)
    requires z < 3 * c.seg && i < 4 && j == (i + 1) % 4 && k == (i + 2) % 4
    ensures var pos := if z < c.seg then i * c.seg + z else if z < 2 * c.seg then j * c.seg + (z - c.seg)
                       else k * c.seg + (z - 2 * c.seg);
            pos == if i * c.seg + z < 4 * c.seg then i * c.seg + z else i * c.seg + z - 4 * c.seg
  {
    match i { case 0 => case 1 => case 2 => case _ => }
  }

  /** Element z of the list is z places on from its start, around the lane. */
  lemma CandidateAt(c: Shape, pass: nat, slice: nat, block: nat, same: bool, z: nat)
    requires c.seg > 0 && slice < 4 && block < c.seg && z < |Candidates(c, pass, slice, block, same)|
    ensures Candidates(c, pass, slice, block, same)[z] == (WindowStart(c, pass, slice) + z) % c.LaneSize()
  {
    var finished := FinishedSegments(c, pass, slice);
    if z < |finished| {
      FinishedAt(c, pass, slice, z);
    } else {
      SliceStart(c, slice);
      RefPosMeans(c, pass, slice, z);
      assert Candidates(c, pass, slice, block, same)[z] == slice * c.seg + (z - |finished|);
    }
  }

  /** The lane of the reference block: the upper half of the seed modulo the number of lanes. */
  lemma RefLaneIs(c: Shape, pass: nat, slice: nat, segment: nat, j1: nat, j2: nat)
    requires c.lanes > 0 && j1 < 0x1_0000_0000 && j2 < 0x1_0000_0000
    ensures RefLane(c, pass, slice, segment, j1 + 0x1_0000_0000 * j2) ==
            if pass == 0 && slice == 0 then segment else j2 % c.lanes
  {
    SeedHalves(j1, j2, 0);
  }

  /** Its position: the block the lower half picks from the reference set, counted from its end. */
  lemma RefPosIs(c: Shape, pass: nat, slice: nat, segment: nat, block: nat, lane: nat, j1: nat, j2: nat)
    returns (k: nat)
    requires IsNext(c, pass, slice, segment, block) && j1 < 0x1_0000_0000 && j2 < 0x1_0000_0000
    requires lane < c.lanes && (pass == 0 && slice == 0 ==> lane == segment)
    ensures var w := Candidates(c, pass, slice, block, lane == segment);
            && k < |w| && k == |w| - 1 - |w| * (j1 * j1 / 0x1_0000_0000) / 0x1_0000_0000
            && RefPos(c, pass, slice, segment, block, lane, j1 + 0x1_0000_0000 * j2) == w[k]
  {
    SeedHalves(j1, j2, |Candidates(c, pass, slice, block, lane == segment)|);
    k := RefPicks(c, pass, slice, segment, block, lane, j1 + 0x1_0000_0000 * j2);
  }

  lemma SeedHalves(j1: nat, j2: nat, n: nat)
    requires j1 < 0x1_0000_0000 && j2 < 0x1_0000_0000
    ensures var seed: u64 := j1 + 0x1_0000_0000 * j2;
            seed as int / 0x1_0000_0000 == j2 && Skip(n, seed) == n * (j1 * j1 / 0x1_0000_0000) / 0x1_0000_0000
  {
    ModUnique(j1 + 0x1_0000_0000 * j2, j2, 0x1_0000_0000, j1);
  }

  lemma RefPicks(c: Shape, pass: nat, slice: nat, segment: nat, block: nat, lane: nat, seed: u64) returns (k: nat)
    requires IsNext(c, pass, slice, segment, block) && lane < c.lanes && (pass == 0 && slice == 0 ==> lane == segment)
    ensures var w := Candidates(c, pass, slice, block, lane == segment);
            k < |w| && k == |w| - 1 - Skip(|w|, seed) && RefPos(c, pass, slice, segment, block, lane, seed) == w[k]
  {
    var w := Candidates(c, pass, slice, block, lane == segment);
    WindowCounts(c, pass, slice, segment, block, lane);
    SkipBound(|w|, seed);
    k := |w| - 1 - Skip(|w|, seed);
    CandidateAt(c, pass, slice, block, lane == segment, k);
  }

  lemma WindowCounts(c: Shape, pass: nat, slice: nat, segment: nat, block: nat, lane: nat)
    requires IsNext(c, pass, slice, segment, block) && lane < c.lanes && (pass == 0 && slice == 0 ==> lane == segment)
    ensures WindowSize(c, pass, slice, segment, block, lane) == |Candidates(c, pass, slice, block, lane == segment)| > 0
  {
    WindowFits(c, pass, slice, segment, block, lane);
    CandidateCount(c, pass, slice, block, lane == segment);
  }

  lemma CandidateCount(c: Shape, pass: nat, slice: nat, block: nat, same: bool)
    requires c.seg >= 2 && slice < 4 && block < c.seg && (pass == 0 && slice == 0 ==> same && block >= 2)
    ensures var base := if pass == 0 then Offset(c, slice) else 3 * c.seg;
            |Candidates(c, pass, slice, block, same)| ==
              if same then base + block - 1 else if block == 0 then base - 1 else base
  {
  }

  // ---------- Memory ----------

  /** What the algorithm does with blocks: the index seed (which may read the previous block), and the new content of
      the current block from the previous and the reference block, and after the first pass also from its old
      content. */
  datatype Rounds<!B> = Rounds(seed: (nat, nat, nat, nat, B) -> u64, fill: (B, B) -> B, refill: (B, B, B) -> B)

  /** Position pos of a lane in the work area. */
  function At(c: Shape, lane: nat, pos: nat): nat {
    lane * c.LaneSize() + pos
  }

  lemma AtBound(c: Shape, lane: nat, pos: nat)
    requires lane < c.lanes && pos < c.LaneSize()
    ensures At(c, lane, pos) < c.lanes * c.LaneSize()
  {
    MulMono(lane + 1, c.lanes, c.LaneSize());
    assert (lane + 1) * c.LaneSize() == lane * c.LaneSize() + c.LaneSize();
  }

  lemma AtUnique(c: Shape, lane: nat, pos: nat, k: nat)
    requires pos < c.LaneSize() && k == At(c, lane, pos)
    ensures k / c.LaneSize() == lane && k % c.LaneSize() == pos
  {
    ModUnique(k, lane, c.LaneSize(), pos);
  }

  /** Every place of the area is a position of a lane. */
  lemma AtSplit(c: Shape, k: nat) returns (lane: nat, pos: nat)
    requires c.seg > 0 && k < c.lanes * c.LaneSize()
    ensures lane < c.lanes && pos < c.LaneSize() && At(c, lane, pos) == k
  {
    lane, pos := SplitBy(k, c.LaneSize());
    MulMono(c.lanes, lane, c.LaneSize());
  }

  lemma SplitBy(k: nat, m: nat) returns (q: nat, r: nat)
    requires m > 0
    ensures r < m && q * m + r == k
  {
    q, r := k / m, k % m;
  }

  ghost predicate Fits<B>(c: Shape, mem: seq<B>) {
    c.Ok() && |mem| == c.lanes * c.LaneSize()
  }

  /** The content of a position. */
  function Get<B>(c: Shape, mem: seq<B>, lane: nat, pos: nat): B
    requires Fits(c, mem) && lane < c.lanes && pos < c.LaneSize()
  {
    AtBound(c, lane, pos);
    mem[At(c, lane, pos)]
  }

  function Set<B>(c: Shape, mem: seq<B>, lane: nat, pos: nat, b: B): (r: seq<B>)
    requires Fits(c, mem) && lane < c.lanes && pos < c.LaneSize()
    ensures Fits(c, r)
  {
    AtBound(c, lane, pos);
    mem[At(c, lane, pos) := b]
  }

  lemma GetSet<B>(c: Shape, mem: seq<B>, lane: nat, pos: nat, b: B, lane2: nat, pos2: nat)
    requires Fits(c, mem) && lane < c.lanes && pos < c.LaneSize() && lane2 < c.lanes && pos2 < c.LaneSize()
    ensures Get(c, Set(c, mem, lane, pos, b), lane2, pos2) ==
            if lane == lane2 && pos == pos2 then b else Get(c, mem, lane2, pos2)
  {
    AtBound(c, lane, pos);
    AtBound(c, lane2, pos2);
    AtUnique(c, lane, pos, At(c, lane, pos));
    AtUnique(c, lane2, pos2, At(c, lane2, pos2));
  }

  // ---------- Filling one block ----------

  /** What goes into the current block. */
  function NewBlock<B>(c: Shape, g: Rounds<B>, mem: seq<B>, pass: nat, slice: nat, segment: nat, block: nat): B
    requires Fits(c, mem) && IsNext(c, pass, slice, segment, block)
  {
    var prev := Get(c, mem, segment, Previous(c, slice, block));
    var seed := g.seed(pass, slice, segment, block, prev);
    var lane := RefLane(c, pass, slice, segment, seed);
    RefOk(c, pass, slice, segment, block, seed);
    var ref := Get(c, mem, lane, RefPos(c, pass, slice, segment, block, lane, seed));
    if pass == 0 then g.fill(prev, ref) else g.refill(Get(c, mem, segment, Offset(c, slice) + block), prev, ref)
  }

  function FillBlock<B>(c: Shape, g: Rounds<B>, mem: seq<B>, pass: nat, slice: nat, segment: nat,
                        block: nat): (r: seq<B>)
    requires Fits(c, mem) && IsNext(c, pass, slice, segment, block)
    ensures Fits(c, r)
  {
    Set(c, mem, segment, Offset(c, slice) + block, NewBlock(c, g, mem, pass, slice, segment, block))
  }

  lemma PreviousIs(c: Shape, slice: nat, block: nat)
    requires c.seg > 0 && slice < 4 && block < c.seg
    ensures Previous(c, slice, block) == (slice * c.seg + block + c.LaneSize() - 1) % c.LaneSize()
  {
    SliceStart(c, slice);
    WrapOnce(slice * c.seg + block + c.LaneSize() - 1, c.LaneSize());
  }

  /** The rule of section 3.2 of RFC 9106, steps 5 and 6, in places of the work area: the block at slice * seg + block
      of its lane is made from the one before it in the lane, the reference block and, after the first pass, itself. */
  lemma BlockRule<B>(c: Shape, g: Rounds<B>, mem: seq<B>, pass: nat, slice: nat, segment: nat, block: nat, lane: nat,
                     pos: nat)
    returns (at: nat, before: nat, from: nat)
    requires Fits(c, mem) && IsNext(c, pass, slice, segment, block)
    ensures at == segment * c.LaneSize() + (slice * c.seg + block) < |mem|
    ensures before == segment * c.LaneSize() + (slice * c.seg + block + c.LaneSize() - 1) % c.LaneSize() < |mem|
    ensures var seed := g.seed(pass, slice, segment, block, mem[before]);
            lane == RefLane(c, pass, slice, segment, seed)
            && pos == RefPos(c, pass, slice, segment, block, lane, seed) ==>
              && from == lane * c.LaneSize() + pos < |mem|
              && FillBlock(c, g, mem, pass, slice, segment, block) ==
                 mem[at := if pass == 0 then g.fill(mem[before], mem[from])
                           else g.refill(mem[at], mem[before], mem[from])]
  {
    SliceStart(c, slice);
    PreviousIs(c, slice, block);
    at, before := At(c, segment, slice * c.seg + block), At(c, segment, Previous(c, slice, block));
    from := At(c, lane, pos);
    AtBound(c, segment, slice * c.seg + block);
    AtBound(c, segment, Previous(c, slice, block));
    RefOk(c, pass, slice, segment, block, g.seed(pass, slice, segment, block, mem[before]));
    if lane < c.lanes && pos < c.LaneSize() { AtBound(c, lane, pos); }
  }

  /** The memories agree on what the lane may read: all of the lane, and the rest of the area outside the slice. */
  ghost predicate AgreeFor<B>(c: Shape, slice: nat, segment: nat, m1: seq<B>, m2: seq<B>)
    requires Fits(c, m1) && Fits(c, m2) && slice < 4
  {
    forall lane: nat, pos: nat {:trigger Get(c, m1, lane, pos)} ::
        lane < c.lanes && pos < c.LaneSize() && (lane == segment || !InSlice(c, slice, pos)) ==>
      Get(c, m1, lane, pos) == Get(c, m2, lane, pos)
  }

  /** A segment never looks at another lane's part of the current slice. */
  lemma SameBlock<B>(c: Shape, g: Rounds<B>, m1: seq<B>, m2: seq<B>, pass: nat, slice: nat, segment: nat, block: nat)
    requires Fits(c, m1) && Fits(c, m2) && IsNext(c, pass, slice, segment, block) && AgreeFor(c, slice, segment, m1, m2)
    ensures NewBlock(c, g, m1, pass, slice, segment, block) == NewBlock(c, g, m2, pass, slice, segment, block)
  {
    var prev := Get(c, m1, segment, Previous(c, slice, block));
    RefOk(c, pass, slice, segment, block, g.seed(pass, slice, segment, block, prev));
  }

  // ---------- Filling a segment ----------

  /** The area after the lane alone has filled its blocks before block. */
  function Partial<B>(c: Shape, g: Rounds<B>, mem: seq<B>, pass: nat, slice: nat, segment: nat, block: nat): (r: seq<B>)
    requires Fits(c, mem) && c.Ok() && slice < 4 && segment < c.lanes && block <= c.seg
    ensures Fits(c, r)
    decreases block
  {
    if block <= FirstBlock(pass, slice) then mem
    else FillBlock(c, g, Partial(c, g, mem, pass, slice, segment, block - 1), pass, slice, segment, block - 1)
  }

  /** Only the lane's part of the slice changes. */
  lemma {:induction false} PartialElsewhere<B>(c: Shape, g: Rounds<B>, mem: seq<B>, pass: nat, slice: nat, segment: nat,
                                               block: nat, lane: nat, pos: nat)
    requires Fits(c, mem) && slice < 4 && segment < c.lanes && block <= c.seg && lane < c.lanes && pos < c.LaneSize()
    requires lane != segment || !InSlice(c, slice, pos)
    ensures Get(c, Partial(c, g, mem, pass, slice, segment, block), lane, pos) == Get(c, mem, lane, pos)
    decreases block
  {
    if block > FirstBlock(pass, slice) {
      PartialElsewhere(c, g, mem, pass, slice, segment, block - 1, lane, pos);
      var m := Partial(c, g, mem, pass, slice, segment, block - 1);
      var b := NewBlock(c, g, m, pass, slice, segment, block - 1);
      GetSet(c, m, segment, Offset(c, slice) + block - 1, b, lane, pos);
    }
  }

  // ---------- Any interleaving of the lanes ----------

  /** How far each lane has got: the next block of each. */
  ghost predicate Progress(c: Shape, pass: nat, slice: nat, next: seq<nat>) {
    |next| == c.lanes && forall l :: 0 <= l < c.lanes ==> FirstBlock(pass, slice) <= next[l] <= c.seg
  }

  /** Every lane's content is what the lane alone would have made of the area the slice began with. */
  ghost predicate Merged<B>(c: Shape, g: Rounds<B>, start: seq<B>, mem: seq<B>, pass: nat, slice: nat, next: seq<nat>)
    requires Fits(c, start) && Fits(c, mem) && slice < 4 && Progress(c, pass, slice, next)
  {
    forall lane: nat, pos: nat {:trigger Get(c, mem, lane, pos)} :: lane < c.lanes && pos < c.LaneSize() ==>
      Get(c, mem, lane, pos) == Get(c, Partial(c, g, start, pass, slice, lane, next[lane]), lane, pos)
  }

  /** A lane at its turn reads what it would have read alone. */
  lemma TurnAgrees<B>(c: Shape, g: Rounds<B>, start: seq<B>, mem: seq<B>, pass: nat, slice: nat, next: seq<nat>, l: nat)
    requires Fits(c, start) && Fits(c, mem) && slice < 4 && Progress(c, pass, slice, next) && l < c.lanes
    requires Merged(c, g, start, mem, pass, slice, next)
    ensures AgreeFor(c, slice, l, mem, Partial(c, g, start, pass, slice, l, next[l]))
  {
    var own := Partial(c, g, start, pass, slice, l, next[l]);
    forall lane: nat, pos: nat | lane < c.lanes && pos < c.LaneSize() && (lane == l || !InSlice(c, slice, pos))
      ensures Get(c, mem, lane, pos) == Get(c, own, lane, pos)
    {
      if lane != l {
        PartialElsewhere(c, g, start, pass, slice, lane, next[lane], lane, pos);
        PartialElsewhere(c, g, start, pass, slice, l, next[l], lane, pos);
      }
    }
  }

  lemma TurnKeeps<B>(c: Shape, g: Rounds<B>, start: seq<B>, mem: seq<B>, pass: nat, slice: nat, next: seq<nat>, l: nat)
    requires Fits(c, start) && Fits(c, mem) && slice < 4 && Progress(c, pass, slice, next) && l < c.lanes
             && next[l] < c.seg
    requires Merged(c, g, start, mem, pass, slice, next)
    ensures Merged(c, g, start, FillBlock(c, g, mem, pass, slice, l, next[l]), pass, slice, next[l := next[l] + 1])
  {
    var own := Partial(c, g, start, pass, slice, l, next[l]);
    TurnAgrees(c, g, start, mem, pass, slice, next, l);
    SameBlock(c, g, mem, own, pass, slice, l, next[l]);
    var b := NewBlock(c, g, mem, pass, slice, l, next[l]);
    var at := Offset(c, slice) + next[l];
    forall lane: nat, pos: nat | lane < c.lanes && pos < c.LaneSize()
      ensures Get(c, FillBlock(c, g, mem, pass, slice, l, next[l]), lane, pos) ==
              Get(c, Partial(c, g, start, pass, slice, lane, next[l := next[l] + 1][lane]), lane, pos)
    {
      GetSet(c, mem, l, at, b, lane, pos);
      GetSet(c, own, l, at, b, lane, pos);
      assert Get(c, mem, lane, pos) == Get(c, Partial(c, g, start, pass, slice, lane, next[lane]), lane, pos);
    }
  }

  /** A schedule names the lane of each turn. A lane that is done lets its turn pass. */
  function Play<B>(c: Shape, g: Rounds<B>, mem: seq<B>, pass: nat, slice: nat, next: seq<nat>,
                   turns: seq<nat>): (r: (seq<B>, seq<nat>))
    requires Fits(c, mem) && slice < 4 && Progress(c, pass, slice, next)
    ensures Fits(c, r.0) && Progress(c, pass, slice, r.1)
    decreases |turns|
  {
    if turns == [] then (mem, next)
    else
      var l := turns[0];
      if l < c.lanes && next[l] < c.seg then
        Play(c, g, FillBlock(c, g, mem, pass, slice, l, next[l]), pass, slice, next[l := next[l] + 1], turns[1..])
      else Play(c, g, mem, pass, slice, next, turns[1..])
  }

  lemma {:induction false} PlayKeeps<B>(c: Shape, g: Rounds<B>, start: seq<B>, mem: seq<B>, pass: nat, slice: nat,
                                        next: seq<nat>, turns: seq<nat>)
    requires Fits(c, start) && Fits(c, mem) && slice < 4 && Progress(c, pass, slice, next)
    requires Merged(c, g, start, mem, pass, slice, next)
    ensures var r := Play(c, g, mem, pass, slice, next, turns); Merged(c, g, start, r.0, pass, slice, r.1)
    decreases |turns|
  {
    if turns != [] {
      var l := turns[0];
      if l < c.lanes && next[l] < c.seg {
        TurnKeeps(c, g, start, mem, pass, slice, next, l);
        var mem2, next2 := FillBlock(c, g, mem, pass, slice, l, next[l]), next[l := next[l] + 1];
        PlayKeeps(c, g, start, mem2, pass, slice, next2, turns[1..]);
        assert Play(c, g, mem, pass, slice, next, turns) == Play(c, g, mem2, pass, slice, next2, turns[1..]);
      } else {
        PlayKeeps(c, g, start, mem, pass, slice, next, turns[1..]);
      }
    }
  }

  ghost predicate AllDone(c: Shape, next: seq<nat>) {
    |next| == c.lanes && forall l :: 0 <= l < c.lanes ==> next[l] == c.seg
  }

  /** Merged memories that have got equally far are equal. */
  lemma MergedSame<B>(c: Shape, g: Rounds<B>, start: seq<B>, m1: seq<B>, m2: seq<B>, pass: nat, slice: nat,
                      next: seq<nat>)
    requires Fits(c, start) && Fits(c, m1) && Fits(c, m2) && slice < 4 && Progress(c, pass, slice, next)
    requires Merged(c, g, start, m1, pass, slice, next) && Merged(c, g, start, m2, pass, slice, next)
    ensures m1 == m2
  {
    forall k | 0 <= k < |m1| ensures m1[k] == m2[k] {
      var lane, pos := AtSplit(c, k);
      assert Get(c, m1, lane, pos) == Get(c, m2, lane, pos);
    }
  }

  function Beginning(c: Shape, pass: nat, slice: nat): (next: seq<nat>)
    ensures |next| == c.lanes
  {
    seq(c.lanes, _ => FirstBlock(pass, slice))
  }

  lemma BeginsMerged<B>(c: Shape, g: Rounds<B>, start: seq<B>, pass: nat, slice: nat)
    requires Fits(c, start) && slice < 4
    ensures Progress(c, pass, slice, Beginning(c, pass, slice))
            && Merged(c, g, start, start, pass, slice, Beginning(c, pass, slice))
  {
  }

  // ---------- The whole area ----------

  /** The area after the first n lanes have filled their segments of a slice. */
  function Lanes<B>(c: Shape, g: Rounds<B>, mem: seq<B>, pass: nat, slice: nat, n: nat): (r: seq<B>)
    requires Fits(c, mem) && slice < 4 && n <= c.lanes
    ensures Fits(c, r)
    decreases n
  {
    if n == 0 then mem else Partial(c, g, Lanes(c, g, mem, pass, slice, n - 1), pass, slice, n - 1, c.seg)
  }

  /** After the first n slices of a pass. */
  function Slices<B>(c: Shape, g: Rounds<B>, mem: seq<B>, pass: nat, n: nat): (r: seq<B>)
    requires Fits(c, mem) && n <= 4
    ensures Fits(c, r)
    decreases n
  {
    if n == 0 then mem else Lanes(c, g, Slices(c, g, mem, pass, n - 1), pass, n - 1, c.lanes)
  }

  /** After n passes. */
  function Passes<B>(c: Shape, g: Rounds<B>, mem: seq<B>, n: nat): (r: seq<B>)
    requires Fits(c, mem)
    ensures Fits(c, r)
    decreases n
  {
    if n == 0 then mem else Slices(c, g, Passes(c, g, mem, n - 1), n - 1, 4)
  }

  /** The areas agree on what has been filled. */
  ghost predicate Agree<B>(c: Shape, m1: seq<B>, m2: seq<B>, pass: nat, slice: nat, segment: nat, block: nat)
    requires Fits(c, m1) && Fits(c, m2) && slice < 4
  {
    forall lane: nat, pos: nat {:trigger Get(c, m1, lane, pos)} ::
      lane < c.lanes && pos < c.LaneSize() && Filled(c, pass, slice, segment, block, lane, pos) ==>
        Get(c, m1, lane, pos) == Get(c, m2, lane, pos)
  }

  lemma BlockAgrees<B>(c: Shape, g: Rounds<B>, m1: seq<B>, m2: seq<B>, pass: nat, slice: nat, segment: nat, block: nat)
    requires Fits(c, m1) && Fits(c, m2) && IsNext(c, pass, slice, segment, block)
    requires Agree(c, m1, m2, pass, slice, segment, block)
    ensures Agree(c, FillBlock(c, g, m1, pass, slice, segment, block), FillBlock(c, g, m2, pass, slice, segment, block),
                  pass, slice, segment, block + 1)
  {
    var prev := Get(c, m1, segment, Previous(c, slice, block));
    RefOk(c, pass, slice, segment, block, g.seed(pass, slice, segment, block, prev));
    assert prev == Get(c, m2, segment, Previous(c, slice, block));
    var at := Offset(c, slice) + block;
    var b := NewBlock(c, g, m1, pass, slice, segment, block);
    assert pass > 0 ==> Get(c, m1, segment, at) == Get(c, m2, segment, at);
    assert b == NewBlock(c, g, m2, pass, slice, segment, block);
    var r1, r2 := FillBlock(c, g, m1, pass, slice, segment, block), FillBlock(c, g, m2, pass, slice, segment, block);
    forall lane: nat, pos: nat
      | lane < c.lanes && pos < c.LaneSize() && Filled(c, pass, slice, segment, block + 1, lane, pos)
      ensures Get(c, r1, lane, pos) == Get(c, r2, lane, pos)
    {
      GetSet(c, m1, segment, at, b, lane, pos);
      GetSet(c, m2, segment, at, b, lane, pos);
      assert Filled(c, pass, slice, segment, block, lane, pos) ==> Get(c, m1, lane, pos) == Get(c, m2, lane, pos);
    }
  }

  lemma {:induction false} SegmentAgrees<B>(c: Shape, g: Rounds<B>, m1: seq<B>, m2: seq<B>,
                                            pass: nat, slice: nat, segment: nat, block: nat)
    requires Fits(c, m1) && Fits(c, m2) && slice < 4 && segment < c.lanes && FirstBlock(pass, slice) <= block <= c.seg
    requires Agree(c, m1, m2, pass, slice, segment, FirstBlock(pass, slice))
    ensures Agree(c, Partial(c, g, m1, pass, slice, segment, block), Partial(c, g, m2, pass, slice, segment, block),
                  pass, slice, segment, block)
    decreases block
  {
    if block > FirstBlock(pass, slice) {
      SegmentAgrees(c, g, m1, m2, pass, slice, segment, block - 1);
      BlockAgrees(c, g, Partial(c, g, m1, pass, slice, segment, block - 1),
                  Partial(c, g, m2, pass, slice, segment, block - 1), pass, slice, segment, block - 1);
    }
  }

  lemma {:induction false} LanesAgree<B>(c: Shape, g: Rounds<B>, m1: seq<B>, m2: seq<B>, pass: nat, slice: nat, n: nat)
    requires Fits(c, m1) && Fits(c, m2) && slice < 4 && n <= c.lanes
    requires Agree(c, m1, m2, pass, slice, 0, FirstBlock(pass, slice))
    ensures Agree(c, Lanes(c, g, m1, pass, slice, n), Lanes(c, g, m2, pass, slice, n),
                  pass, slice, n, FirstBlock(pass, slice))
    decreases n
  {
    if n > 0 {
      LanesAgree(c, g, m1, m2, pass, slice, n - 1);
      SegmentAgrees(c, g, Lanes(c, g, m1, pass, slice, n - 1), Lanes(c, g, m2, pass, slice, n - 1),
                    pass, slice, n - 1, c.seg);
    }
  }

  /** When a slice is full the next begins, and after the last one a new pass. */
  lemma NextSlice(c: Shape, pass: nat, slice: nat, lane: nat, pos: nat)
    requires c.Ok() && slice < 4 && lane < c.lanes && pos < c.LaneSize()
    ensures slice < 3 ==> (Filled(c, pass, slice, c.lanes, FirstBlock(pass, slice), lane, pos)
                           <==> Filled(c, pass, slice + 1, 0, FirstBlock(pass, slice + 1), lane, pos))
    ensures slice == 3 ==> Filled(c, pass, slice, c.lanes, FirstBlock(pass, slice), lane, pos)
  {
  }

  lemma {:induction false} SlicesAgree<B>(c: Shape, g: Rounds<B>, m1: seq<B>, m2: seq<B>, pass: nat, n: nat)
    requires Fits(c, m1) && Fits(c, m2) && n <= 4 && Agree(c, m1, m2, pass, 0, 0, FirstBlock(pass, 0))
    ensures var r1, r2 := Slices(c, g, m1, pass, n), Slices(c, g, m2, pass, n);
            if n < 4 then Agree(c, r1, r2, pass, n, 0, FirstBlock(pass, n)) else Agree(c, r1, r2, pass + 1, 0, 0, 0)
    decreases n
  {
    if n > 0 {
      SlicesAgree(c, g, m1, m2, pass, n - 1);
      LanesAgree(c, g, Slices(c, g, m1, pass, n - 1), Slices(c, g, m2, pass, n - 1), pass, n - 1, c.lanes);
      forall lane: nat, pos: nat | lane < c.lanes && pos < c.LaneSize()
        ensures n < 4 ==> (Filled(c, pass, n - 1, c.lanes, FirstBlock(pass, n - 1), lane, pos)
                           <==> Filled(c, pass, n, 0, FirstBlock(pass, n), lane, pos))
        ensures n == 4 ==> Filled(c, pass, n - 1, c.lanes, FirstBlock(pass, n - 1), lane, pos)
      {
        NextSlice(c, pass, n - 1, lane, pos);
      }
    }
  }

  /** Nothing but the first two blocks of each lane is ever read before it is written: areas that agree on those end up
      equal, whatever else they held. */
  lemma {:induction false} OnlyFirstBlocksMatter<B>(c: Shape, g: Rounds<B>, m1: seq<B>, m2: seq<B>, n: nat)
    requires Fits(c, m1) && Fits(c, m2) && n > 0
    requires forall lane: nat, pos: nat :: lane < c.lanes && pos < 2 ==> Get(c, m1, lane, pos) == Get(c, m2, lane, pos)
    ensures Passes(c, g, m1, n) == Passes(c, g, m2, n)
    decreases n
  {
    var r1, r2 := Passes(c, g, m1, n - 1), Passes(c, g, m2, n - 1);
    if n > 1 { OnlyFirstBlocksMatter(c, g, m1, m2, n - 1); }
    SlicesAgree(c, g, r1, r2, n - 1, 4);
    AgreeAll(c, Passes(c, g, m1, n), Passes(c, g, m2, n), n);
  }

  lemma AgreeAll<B>(c: Shape, m1: seq<B>, m2: seq<B>, pass: nat)
    requires Fits(c, m1) && Fits(c, m2) && pass > 0 && Agree(c, m1, m2, pass, 0, 0, 0)
    ensures m1 == m2
  {
    forall k | 0 <= k < |m1| ensures m1[k] == m2[k] {
      var lane, pos := AtSplit(c, k);
      assert Get(c, m1, lane, pos) == Get(c, m2, lane, pos);
    }
  }

  // ---------- In place ----------

  /** written holds exactly the positions that have been filled. */
  ghost predicate Exact(c: Shape, written: set<(nat, nat)>, pass: nat, slice: nat, segment: nat, block: nat)
    requires slice < 4
  {
    forall lane: nat, pos: nat {:trigger (lane, pos) in written} :: lane < c.lanes && pos < c.LaneSize() ==>
      ((lane, pos) in written <==> Filled(c, pass, slice, segment, block, lane, pos))
  }

  /** Blocks are read only here, and only after they have been written. */
  method Read<B>(c: Shape, a: array<B>, lane: nat, pos: nat, ghost written: set<(nat, nat)>) returns (b: B)
    requires Fits(c, a[..]) && lane < c.lanes && pos < c.LaneSize() && (lane, pos) in written
    ensures b == Get(c, a[..], lane, pos)
  {
    AtBound(c, lane, pos);
    b := a[lane * c.LaneSize() + pos];
  }

  /** One block of the innermost loop. */
  method FillInPlace<B>(c: Shape, g: Rounds<B>, a: array<B>, pass: nat, slice: nat, segment: nat, block: nat,
                        ghost written: set<(nat, nat)>)
    returns (ghost written': set<(nat, nat)>)
    requires Fits(c, a[..]) && IsNext(c, pass, slice, segment, block) && Exact(c, written, pass, slice, segment, block)
    modifies a
    ensures a[..] == FillBlock(c, g, old(a[..]), pass, slice, segment, block)
    ensures Exact(c, written', pass, slice, segment, block + 1)
  {
    var at := Offset(c, slice) + block;
    ghost var mem := a[..];
    RefOk(c, pass, slice, segment, block, 0);
    var previous := Read(c, a, segment, Previous(c, slice, block), written);
    var seed := g.seed(pass, slice, segment, block, previous);
    RefOk(c, pass, slice, segment, block, seed);
    var lane := RefLane(c, pass, slice, segment, seed);
    var reference := Read(c, a, lane, RefPos(c, pass, slice, segment, block, lane, seed), written);
    var b;
    if pass == 0 {
      b := g.fill(previous, reference);
    } else {
      var current := Read(c, a, segment, at, written);
      b := g.refill(current, previous, reference);
    }
    AtBound(c, segment, at);
    a[segment * c.LaneSize() + at] := b;
    written' := written + {(segment, at)};
    assert a[..] == mem[At(c, segment, at) := b];
  }

  method FillSegment<B>(c: Shape, g: Rounds<B>, a: array<B>, pass: nat, slice: nat, segment: nat,
                        ghost written: set<(nat, nat)>)
    returns (ghost written': set<(nat, nat)>)
    requires Fits(c, a[..]) && slice < 4 && segment < c.lanes
    requires Exact(c, written, pass, slice, segment, FirstBlock(pass, slice))
    modifies a
    ensures a[..] == Partial(c, g, old(a[..]), pass, slice, segment, c.seg)
    ensures Exact(c, written', pass, slice, segment + 1, FirstBlock(pass, slice))
  {
    ghost var mem := a[..];
    written' := written;
    for block := FirstBlock(pass, slice) to c.seg
      invariant Fits(c, a[..]) && a[..] == Partial(c, g, mem, pass, slice, segment, block)
      invariant Exact(c, written', pass, slice, segment, block)
    {
      written' := FillInPlace(c, g, a, pass, slice, segment, block, written');
    }
    forall lane: nat, pos: nat | lane < c.lanes && pos < c.LaneSize()
      ensures (lane, pos) in written' <==> Filled(c, pass, slice, segment + 1, FirstBlock(pass, slice), lane, pos)
    {
      assert (lane, pos) in written' <==> Filled(c, pass, slice, segment, c.seg, lane, pos);
    }
  }

  /** One slice, lane after lane. */
  method FillSlice<B>(c: Shape, g: Rounds<B>, a: array<B>, pass: nat, slice: nat, ghost written: set<(nat, nat)>)
    returns (ghost written': set<(nat, nat)>)
    requires Fits(c, a[..]) && slice < 4 && Exact(c, written, pass, slice, 0, FirstBlock(pass, slice))
    modifies a
    ensures a[..] == Lanes(c, g, old(a[..]), pass, slice, c.lanes)
    ensures Exact(c, written', pass, slice, c.lanes, FirstBlock(pass, slice))
  {
    ghost var mem := a[..];
    written' := written;
    for segment := 0 to c.lanes
      invariant a[..] == Lanes(c, g, mem, pass, slice, segment)
      invariant Exact(c, written', pass, slice, segment, FirstBlock(pass, slice))
    {
      written' := FillLane(c, g, a, mem, pass, slice, segment, written');
    }
  }

  /** The next lane of the slice. */
  method FillLane<B>(c: Shape, g: Rounds<B>, a: array<B>, ghost mem: seq<B>, pass: nat, slice: nat, segment: nat,
                     ghost written: set<(nat, nat)>)
    returns (ghost written': set<(nat, nat)>)
    requires Fits(c, mem) && slice < 4 && segment < c.lanes && a[..] == Lanes(c, g, mem, pass, slice, segment)
    requires Exact(c, written, pass, slice, segment, FirstBlock(pass, slice))
    modifies a
    ensures a[..] == Lanes(c, g, mem, pass, slice, segment + 1)
    ensures Exact(c, written', pass, slice, segment + 1, FirstBlock(pass, slice))
  {
    written' := FillSegment(c, g, a, pass, slice, segment, written);
  }

  method FillPass<B>(c: Shape, g: Rounds<B>, a: array<B>, pass: nat, ghost written: set<(nat, nat)>)
    returns (ghost written': set<(nat, nat)>)
    requires Fits(c, a[..]) && Exact(c, written, pass, 0, 0, FirstBlock(pass, 0))
    modifies a
    ensures a[..] == Slices(c, g, old(a[..]), pass, 4)
    ensures Exact(c, written', pass + 1, 0, 0, 0)
  {
    ghost var mem := a[..];
    written' := written;
    for slice := 0 to 4
      invariant Fits(c, a[..]) && a[..] == Slices(c, g, mem, pass, slice)
      invariant slice < 4 ==> Exact(c, written', pass, slice, 0, FirstBlock(pass, slice))
      invariant slice == 4 ==> Exact(c, written', pass + 1, 0, 0, 0)
    {
      written' := FillSlice(c, g, a, pass, slice, written');
      forall lane: nat, pos: nat | lane < c.lanes && pos < c.LaneSize()
        ensures slice < 3 ==> ((lane, pos) in written' <==>
                Filled(c, pass, slice + 1, 0, FirstBlock(pass, slice + 1), lane, pos))
        ensures slice == 3 ==> (lane, pos) in written'
      {
        NextSlice(c, pass, slice, lane, pos);
      }
    }
  }

  /** All passes, from an area whose first two blocks in each lane have been written. No block is read before it has
      been written, and after one pass all of them have been. */
  method FillArea<B>(c: Shape, g: Rounds<B>, a: array<B>, passes: nat) returns (ghost written: set<(nat, nat)>)
    requires Fits(c, a[..])
    modifies a
    ensures a[..] == Passes(c, g, old(a[..]), passes)
    ensures forall lane: nat, pos: nat :: lane < c.lanes && pos < c.LaneSize() ==>
              ((lane, pos) in written <==> passes > 0 || pos < 2)
  {
    ghost var mem := a[..];
    written := set lane: nat, pos: nat | lane < c.lanes && pos < 2 :: (lane, pos);
    for pass := 0 to passes
      invariant Fits(c, a[..]) && a[..] == Passes(c, g, mem, pass)
      invariant Exact(c, written, pass, 0, 0, FirstBlock(pass, 0))
    {
      written := FillPass(c, g, a, pass, written);
    }
  }

  // ---------- Any schedule ----------

  /** The lanes one after the other are one way to take turns. */
  lemma {:induction false} LanesMerged<B>(c: Shape, g: Rounds<B>, start: seq<B>, pass: nat, slice: nat, n: nat,
                                          next: seq<nat>)
    requires Fits(c, start) && slice < 4 && n <= c.lanes && |next| == c.lanes
    requires forall l :: 0 <= l < c.lanes ==> next[l] == if l < n then c.seg else FirstBlock(pass, slice)
    ensures Progress(c, pass, slice, next) && Merged(c, g, start, Lanes(c, g, start, pass, slice, n), pass, slice, next)
    decreases n
  {
    if n == 0 {
      assert next == Beginning(c, pass, slice);
      BeginsMerged(c, g, start, pass, slice);
    } else {
      var before, mem := next[n - 1 := FirstBlock(pass, slice)], Lanes(c, g, start, pass, slice, n - 1);
      LanesMerged(c, g, start, pass, slice, n - 1, before);
      assert next == before[n - 1 := c.seg];
      LaneMerged(c, g, start, mem, Lanes(c, g, start, pass, slice, n), pass, slice, n - 1, before, next);
    }
  }

  lemma LaneMerged<B>(c: Shape, g: Rounds<B>, start: seq<B>, mem: seq<B>, after: seq<B>, pass: nat, slice: nat, n: nat,
                      before: seq<nat>, next: seq<nat>)
    requires Fits(c, start) && Fits(c, mem) && Fits(c, after) && slice < 4 && n < c.lanes
    requires Progress(c, pass, slice, before) && before[n] == FirstBlock(pass, slice) && next == before[n := c.seg]
    requires Merged(c, g, start, mem, pass, slice, before) && after == Partial(c, g, mem, pass, slice, n, c.seg)
    ensures Progress(c, pass, slice, next) && Merged(c, g, start, after, pass, slice, next)
  {
    SegmentMerged(c, g, start, mem, pass, slice, n, c.seg, before);
  }

  lemma {:induction false} SegmentMerged<B>(c: Shape, g: Rounds<B>, start: seq<B>, mem: seq<B>, pass: nat, slice: nat,
                                            segment: nat, block: nat, next: seq<nat>)
    requires Fits(c, start) && Fits(c, mem) && slice < 4 && segment < c.lanes
             && FirstBlock(pass, slice) <= block <= c.seg
    requires Progress(c, pass, slice, next) && next[segment] == FirstBlock(pass, slice)
    requires Merged(c, g, start, mem, pass, slice, next)
    ensures Progress(c, pass, slice, next[segment := block])
    ensures Merged(c, g, start, Partial(c, g, mem, pass, slice, segment, block), pass, slice, next[segment := block])
    decreases block
  {
    if block > FirstBlock(pass, slice) {
      SegmentMerged(c, g, start, mem, pass, slice, segment, block - 1, next);
      var m := Partial(c, g, mem, pass, slice, segment, block - 1);
      TurnKeeps(c, g, start, m, pass, slice, next[segment := block - 1], segment);
      assert next[segment := block - 1][segment := block] == next[segment := block];
    } else {
      assert next[segment := block] == next;
    }
  }

  /** So the lanes of a slice can be filled in any order, even block by block: every complete schedule leaves what
      filling lane after lane leaves. */
  lemma OrderDoesNotMatter<B>(c: Shape, g: Rounds<B>, start: seq<B>, pass: nat, slice: nat, turns: seq<nat>)
    requires Fits(c, start) && slice < 4 && Progress(c, pass, slice, Beginning(c, pass, slice))
    requires AllDone(c, Play(c, g, start, pass, slice, Beginning(c, pass, slice), turns).1)
    ensures Play(c, g, start, pass, slice, Beginning(c, pass, slice), turns).0 ==
            Lanes(c, g, start, pass, slice, c.lanes)
  {
    var b := Beginning(c, pass, slice);
    BeginsMerged(c, g, start, pass, slice);
    PlayKeeps(c, g, start, start, pass, slice, b, turns);
    var r := Play(c, g, start, pass, slice, b, turns);
    LanesMerged(c, g, start, pass, slice, c.lanes, r.1);
    MergedSame(c, g, start, r.0, Lanes(c, g, start, pass, slice, c.lanes), pass, slice, r.1);
  }
}
