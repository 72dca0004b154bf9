/** The per-thread allocator (src/ssalloc.c): a region handed out from the front, and a ring of freed blocks whose two
    indices are 16-bit unsigned numbers that wrap around. */
module Allocator {
  import opened Counting
  import opened Options

  /** Entries of the ring, and so the modulus of its two uint16_t indices. */
  const RING := 65536

  const SIZE_T := 0x1_0000_0000_0000_0000

  function U16(x: int): (r: nat)
    ensures r < RING
  {
    x % RING
  }

  // ----- what the two calls mean

  /** alloc_next, and the freed blocks from the one freed first. */
  datatype Pool = Pool(next: nat, free: seq<nat>)

  /** A block is reused only while more than two are free; otherwise the region is cut further, if it reaches. */
  function AllocStep(p: Pool, region: nat, base: nat, size: nat): (r: (Pool, Option<nat>)) {
    if |p.free| > 2 then (p.(free := p.free[1..]), Some(p.free[0]))
    else if (p.next + size) % SIZE_T > region then (p, None)
    else (p.(next := (p.next + size) % SIZE_T), Some(base + p.next))
  }

  /** The free that fills the ring takes the counter from 65535 to 0, and with it forgets every free block. */
  function FreeStep(p: Pool, x: nat): Pool {
    p.(free := if |p.free| == RING - 1 then [] else p.free + [x])
  }

  // ----- one allocator

  class Ssalloc {
    const region: nat
    const appMem: nat
    var allocNext: nat
    const freeList: array<nat>
    var freeCur: nat
    var freeNum: nat

    ghost predicate Valid()
      reads this
    {
      freeList.Length == RING && freeCur < RING && freeNum < RING
    }

    /** The i-th of the free blocks, from the one that has been free longest. */
    ghost function FreeBlock(i: nat): nat
      requires Valid()
      reads this, freeList
    {
      freeList[U16(freeCur - freeNum + i)]
    }

    ghost function FreeBlocks(): (q: seq<nat>)
      requires Valid()
      reads this, freeList
      ensures |q| == freeNum && forall i :: 0 <= i < freeNum ==> q[i] == FreeBlock(i)
    {
      seq(freeNum, i requires 0 <= i < freeNum && Valid() reads this, freeList => FreeBlock(i))
    }

    ghost function State(): Pool
      requires Valid()
      reads this, freeList
    {
      Pool(allocNext, FreeBlocks())
    }

    constructor (mem: nat, size: nat)
      ensures Valid() && fresh(freeList) && region == size && appMem == mem && State() == Pool(0, [])
    {
      region, appMem := size, mem;
      allocNext, freeCur, freeNum := 0, 0, 0;
      freeList := new nat[RING];
    }

    /** ssalloc_alloc */
    method Alloc(size: nat) returns (ret: Option<nat>)
      requires Valid()
      modifies this
      ensures Valid() && (State(), ret) == AllocStep(old(State()), region, appMem, size)
    {
      if freeNum > 2 {
        var spot := U16(freeCur - freeNum);
        ret := Some(freeList[spot]);
        freeNum := freeNum - 1;
        assert FreeBlocks() == old(FreeBlocks())[1..];
      } else {
        if (allocNext + size) % SIZE_T > region {
          return None;
        }
        ret := Some(appMem + allocNext);
        allocNext := (allocNext + size) % SIZE_T;
        assert FreeBlocks() == old(FreeBlocks());
      }
    }

    /** ssfree_alloc */
    method Free(ptr: nat)
      requires Valid()
      modifies this, freeList
      ensures Valid() && State() == FreeStep(old(State()), ptr)
      ensures FreeBlocks() == old(FreeBlocks()) + [ptr] <==> old(freeNum) < 65535
    {
      freeNum := U16(freeNum + 1);
      freeList[freeCur] := ptr;
      freeCur := U16(freeCur + 1);
      ghost var was := old(FreeBlocks());
      if |was| < RING - 1 {
        forall i | 0 <= i < |was| + 1 ensures FreeBlock(i) == (was + [ptr])[i] {
          assert i < |was| ==> was[i] == old(FreeBlock(i));
        }
        assert FreeBlocks() == was + [ptr];
      } else {
        assert |was + [ptr]| == RING;
      }
    }
  }

  /** Reuse leaves at least two blocks in the ring, so a block just freed is never the next one handed out. */
  lemma ReuseLeavesTwo(p: Pool, region: nat, base: nat, size: nat)
    ensures var (p', ret) := AllocStep(p, region, base, size);
            p'.free != p.free ==> |p'.free| >= 2 && ret == Some(p.free[0]) && p.free == [p.free[0]] + p'.free
  {
  }

  /** A block cut from the region lies inside it exactly when the sum of the two sizes does not wrap. */
  lemma CutInsideIff(p: Pool, region: nat, base: nat, size: nat)
    requires |p.free| <= 2 && p.next <= region < SIZE_T && size < SIZE_T
    requires AllocStep(p, region, base, size).1.Some?
    ensures base <= AllocStep(p, region, base, size).1.value
    ensures AllocStep(p, region, base, size).1.value + size <= base + region <==> p.next + size < SIZE_T
  {
    if p.next + size >= SIZE_T {
      assert (p.next + size) % SIZE_T == p.next + size - SIZE_T;
    }
  }

  // ----- runs of one allocator with one block size

  /** The blocks in use, and logs of the blocks freed and reused. */
  datatype World = World(pool: Pool, live: seq<nat>, freed: seq<nat>, reused: seq<nat>)

  datatype Config = Config(region: nat, base: nat, size: nat)

  predicate ConfigOk(c: Config) {
    0 < c.size && c.region + c.size < SIZE_T
  }

  datatype Event = DoAlloc | DoFree(i: nat)

  predicate Init(w: World) {
    w == World(Pool(0, []), [], [], [])
  }

  /** The caller frees only what is in use, so no block twice. */
  predicate CanStep(w: World, e: Event) {
    e.DoFree? ==> e.i < |w.live|
  }

  function Step(c: Config, w: World, e: Event): World
    requires CanStep(w, e)
  {
    match e
    case DoAlloc =>
      var (p, ret) := AllocStep(w.pool, c.region, c.base, c.size);
      w.(pool := p,
         live := if ret.Some? then w.live + [ret.value] else w.live,
         reused := if |w.pool.free| > 2 then w.reused + [w.pool.free[0]] else w.reused)
    case DoFree(i) =>
      var x := w.live[i];
      w.(pool := FreeStep(w.pool, x), live := w.live[..i] + w.live[i + 1..], freed := w.freed + [x])
  }

  ghost predicate Next(c: Config, w: World, w': World) {
    exists e :: CanStep(w, e) && w' == Step(c, w, e)
  }

  ghost predicate Run(c: Config, run: seq<World>) {
    run != [] && Init(run[0]) && forall i :: 0 <= i < |run| - 1 ==> Next(c, run[i], run[i + 1])
  }

  /** One of the blocks into which the part of the region handed out so far divides. */
  predicate BlockOf(c: Config, w: World, x: int)
    requires c.size > 0
  {
    x >= c.base && (x - c.base) % c.size == 0 && x + c.size <= c.base + w.pool.next
  }

  predicate AllBlocks(c: Config, w: World, q: seq<nat>)
    requires c.size > 0
  {
    forall i :: 0 <= i < |q| ==> BlockOf(c, w, q[i])
  }

  /** All blocks cut from the region so far. */
  ghost function Blocks(c: Config, w: World): set<int>
    requires c.size > 0
  {
    set x | c.base <= x < c.base + w.pool.next && BlockOf(c, w, x)
  }

  /** Those that are neither in use nor in the ring. */
  ghost function Missing(c: Config, w: World): set<int>
    requires c.size > 0
  {
    set x | x in Blocks(c, w) && x !in w.live && x !in w.pool.free
  }

  ghost predicate Inv(c: Config, w: World)
    requires c.size > 0
  {
    && w.pool.next <= c.region && |w.pool.free| < RING && w.pool.next % c.size == 0
    && Distinct(w.live + w.pool.free) && AllBlocks(c, w, w.live + w.pool.free)
  }

  lemma OneMore(a: nat, d: nat)
    requires d > 0
    ensures (a + d) % d == a % d && (a + d) / d == a / d + 1
  {
    var q, r := a / d, a % d;
    assert a + d == (q + 1) * d + r;
    Unique(a + d, d, q + 1, r);
  }

  lemma Unique(a: nat, d: nat, q: nat, r: nat)
    requires d > 0 && a == q * d + r && r < d
    ensures a / d == q && a % d == r
  {
    var e := a / d - q;
    assert e * d == r - a % d;
    assert e >= 1 ==> e * d >= d;
    assert e <= -1 ==> e * d + d <= 0;
  }

  lemma {:induction false} Ordered(a: nat, b: nat, d: nat)
    requires a <= b
    ensures a * d <= b * d
  {
    if a < b {
      Ordered(a, b - 1, d);
      assert b * d == (b - 1) * d + d;
    }
  }

  lemma MultiplesApart(a: nat, b: nat, d: nat)
    requires a * d < b * d
    ensures a * d + d <= b * d
  {
    if b <= a {
      Ordered(b, a, d);
      assert false;
    } else {
      Ordered(a + 1, b, d);
      assert (a + 1) * d == a * d + d;
    }
  }

  /** Different blocks do not overlap. */
  lemma BlocksApart(c: Config, w: World, x: nat, y: nat)
    requires c.size > 0 && BlockOf(c, w, x) && BlockOf(c, w, y) && x < y
    ensures x + c.size <= y
  {
    MultiplesApart((x - c.base) / c.size, (y - c.base) / c.size, c.size);
  }

  /** A block cut from the region lies behind all others. */
  lemma CutBlocks(c: Config, w: World)
    requires ConfigOk(c) && Inv(c, w) && |w.pool.free| <= 2 && w.pool.next + c.size <= c.region
    ensures var w' := Step(c, w, DoAlloc);
            Distinct(w'.live + w'.pool.free) && AllBlocks(c, w', w'.live + w'.pool.free)
  {
    var w' := Step(c, w, DoAlloc);
    var q, q' := w.live + w.pool.free, w'.live + w'.pool.free;
    var n := |w.live|;
    forall i | 0 <= i < |q'|
      ensures BlockOf(c, w', q'[i]) && (i < n ==> q'[i] == q[i]) && (i > n ==> q'[i] == q[i - 1])
      ensures i != n ==> q'[i] < q'[n]
    {
      assert i != n ==> BlockOf(c, w, q[if i < n then i else i - 1]);
    }
    hide AllBlocks, AllocStep, Step;
    forall i, j | 0 <= i < j < |q'| ensures q'[i] != q'[j] {
      assert i != n && j != n ==> q[if i < n then i else i - 1] != q[if j < n then j else j - 1];
    }
  }

  lemma ReuseInv(c: Config, w: World)
    requires ConfigOk(c) && Inv(c, w) && |w.pool.free| > 2
    ensures Inv(c, Step(c, w, DoAlloc))
  {
    var w' := Step(c, w, DoAlloc);
    assert w'.live + w'.pool.free == w.live + w.pool.free;
    hide Distinct;
  }

  lemma AllocInv(c: Config, w: World)
    requires ConfigOk(c) && Inv(c, w)
    ensures Inv(c, Step(c, w, DoAlloc))
  {
    if |w.pool.free| > 2 {
      ReuseInv(c, w);
    } else if w.pool.next + c.size <= c.region {
      hide Distinct, AllBlocks;
      OneMore(w.pool.next, c.size);
      CutBlocks(c, w);
    }
  }

  /** Where the k-th block, after the i-th in use was freed, was before. */
  function From(w: World, i: nat, k: nat): nat
    requires i < |w.live|
  {
    if k < i then k else if k < |w.live| + |w.pool.free| - 1 then k + 1 else i
  }

  lemma FreeInv(c: Config, w: World, i: nat)
    requires ConfigOk(c) && Inv(c, w) && i < |w.live|
    ensures Inv(c, Step(c, w, DoFree(i)))
  {
    var w' := Step(c, w, DoFree(i));
    var x := w.live[i];
    var q, q' := w.live + w.pool.free, w'.live + w'.pool.free;
    forall k | 0 <= k < |q'| ensures q'[k] == q[From(w, i, k)] {
    }
  }

  // ----- what becomes of a block

  predicate Used(w: World, x: int) {
    x in w.live || x in w.pool.free
  }

  /** Among the multiples of d, those up to n are n and those that end by n. */
  lemma NextMultiple(y: nat, n: nat, d: nat)
    requires d > 0 && n % d == 0
    ensures y % d == 0 && y <= n <==> (y % d == 0 && y + d <= n) || y == n
  {
    if y % d == 0 && y < n {
      MultiplesApart(y / d, n / d, d);
    }
  }

  /** A block after next moved on from next to after is the new one or was one before. */
  lemma CutAdds(c: Config, w: World, w': World, x: int)
    requires c.size > 0 && w.pool.next % c.size == 0 && w'.pool.next == w.pool.next + c.size
    ensures x in Blocks(c, w') <==> x in Blocks(c, w) || x == c.base + w.pool.next
  {
    if x >= c.base {
      NextMultiple(x - c.base, w.pool.next, c.size);
    }
  }

  lemma AllocMissing(c: Config, w: World)
    requires ConfigOk(c) && Inv(c, w)
    ensures Missing(c, Step(c, w, DoAlloc)) == Missing(c, w)
  {
    var w' := Step(c, w, DoAlloc);
    if |w.pool.free| > 2 {
      assert w'.live + w'.pool.free == w.live + w.pool.free;
      forall x: int ensures x in Missing(c, w') <==> x in Missing(c, w) {
        assert x in w'.live + w'.pool.free <==> x in w.live + w.pool.free;
      }
    } else if w.pool.next + c.size <= c.region {
      assert w'.live == w.live + [c.base + w.pool.next];
      forall x ensures x in Missing(c, w') <==> x in Missing(c, w) {
        CutAdds(c, w, w', x);
        assert x == c.base + w.pool.next ==> x !in Blocks(c, w);
      }
    }
  }

  lemma FreeMissing(c: Config, w: World, i: nat)
    requires ConfigOk(c) && Inv(c, w) && i < |w.live|
    ensures var m, m' := Missing(c, w), Missing(c, Step(c, w, DoFree(i)));
            if |w.pool.free| == RING - 1 then m <= m' && m' != {} else m' == m
  {
    var w', x := Step(c, w, DoFree(i)), w.live[i];
    assert w.live == w.live[..i] + [x] + w.live[i + 1..];
    if |w.pool.free| == RING - 1 {
      var q := w.live + w.pool.free;
      assert q[i] == x && BlockOf(c, w, q[i]);
      assert x !in w'.live by {
        forall k | 0 <= k < |w'.live| ensures w'.live[k] != x {
          assert w'.live[k] == q[if k < i then k else k + 1];
        }
      }
      assert x in Missing(c, w');
    } else {
      assert forall y :: Used(w', y) <==> Used(w, y);
    }
  }

  /** As many blocks as fit into what was cut. */
  lemma {:induction false} CountBlocks(c: Config, w: World)
    requires c.size > 0 && w.pool.next % c.size == 0
    ensures |Blocks(c, w)| == w.pool.next / c.size
    decreases w.pool.next
  {
    if w.pool.next == 0 {
      assert Blocks(c, w) == {};
    } else {
      SizeFits(w.pool.next, c.size);
      var less := w.(pool := w.pool.(next := w.pool.next - c.size));
      OneMore(less.pool.next, c.size);
      CountBlocks(c, less);
      forall x ensures x in Blocks(c, w) <==> x in Blocks(c, less) || x == c.base + less.pool.next {
        CutAdds(c, less, w, x);
      }
      hide BlockOf;
      assert Blocks(c, w) == Blocks(c, less) + {c.base + less.pool.next};
    }
  }

  lemma SizeFits(a: nat, d: nat)
    requires d > 0 && a > 0 && a % d == 0
    ensures a >= d && (a - d) % d == 0
  {
    var q := a / d;
    assert a == q * d;
    if q == 0 {
      assert false;
    } else {
      assert a - d == (q - 1) * d;
      Ordered(1, q, d);
      Unique(a - d, d, q - 1, 0);
    }
  }

  lemma {:induction false} DistinctCount(q: seq<int>)
    requires Distinct(q)
    ensures |set x | x in q| == |q|
  {
    var s := set x | x in q;
    if q == [] {
      assert s == {};
    } else {
      var x, q' := q[|q| - 1], q[..|q| - 1];
      assert q == q' + [x];
      DistinctCount(q');
      assert s == (set y | y in q') + {x} && x !in q';
    }
  }

  // ----- over whole runs

  lemma {:induction false} RunInv(c: Config, run: seq<World>, i: nat)
    requires ConfigOk(c) && Run(c, run) && i < |run|
    ensures Inv(c, run[i])
  {
    if i > 0 {
      RunInv(c, run, i - 1);
      assert Next(c, run[i - 1], run[i - 1 + 1]);
      hide Inv, Step, Run;
      var e :| CanStep(run[i - 1], e) && run[i] == Step(c, run[i - 1], e);
      match e
      case DoAlloc => AllocInv(c, run[i - 1]);
      case DoFree(k) => FreeInv(c, run[i - 1], k);
    }
  }

  /** In every run the blocks in use, and those that will be reused, lie inside the region and do not overlap, even
      when the ring has wrapped. */
  lemma BlocksDisjoint(c: Config, run: seq<World>, i: nat, a: nat, b: nat)
    requires ConfigOk(c) && Run(c, run) && i < |run|
    requires a < b < |run[i].live + run[i].pool.free|
    ensures var q := run[i].live + run[i].pool.free;
            && c.base <= q[a] && q[a] + c.size <= c.base + c.region
            && c.base <= q[b] && q[b] + c.size <= c.base + c.region
            && (q[a] + c.size <= q[b] || q[b] + c.size <= q[a])
  {
    RunInv(c, run, i);
    hide Run;
    var q := run[i].live + run[i].pool.free;
    assert BlockOf(c, run[i], q[a]) && BlockOf(c, run[i], q[b]);
    if q[a] < q[b] {
      BlocksApart(c, run[i], q[a], q[b]);
    } else {
      BlocksApart(c, run[i], q[b], q[a]);
    }
  }

  /** Step j of the run is a free that finds 65535 blocks in the ring already. */
  predicate Overfills(run: seq<World>, j: nat)
    requires j + 1 < |run|
  {
    run[j + 1].freed != run[j].freed && |run[j].pool.free| == RING - 1
  }

  predicate NeverOverfilled(run: seq<World>, i: nat)
    requires i < |run|
  {
    forall j: nat :: j < i ==> !Overfills(run, j)
  }

  /** Blocks go missing exactly by a free that makes the count of free blocks 65536, and never come back. */
  lemma {:induction false} ForgottenIff(c: Config, run: seq<World>, i: nat)
    requires ConfigOk(c) && Run(c, run) && i < |run|
    ensures Missing(c, run[i]) == {} <==> NeverOverfilled(run, i)
    ensures i > 0 ==> Missing(c, run[i - 1]) <= Missing(c, run[i])
  {
    if i == 0 {
      assert Blocks(c, run[0]) == {};
    } else {
      ForgottenIff(c, run, i - 1);
      RunInv(c, run, i - 1);
      assert Next(c, run[i - 1], run[i - 1 + 1]);
      var e :| CanStep(run[i - 1], e) && run[i] == Step(c, run[i - 1], e);
      assert Overfills(run, i - 1) <==> e.DoFree? && |run[i - 1].pool.free| == RING - 1 by {
        assert e.DoFree? ==> |run[i].freed| == |run[i - 1].freed| + 1;
      }
      assert NeverOverfilled(run, i) <==> NeverOverfilled(run, i - 1) && !Overfills(run, i - 1);
      hide Inv, Step, Run, Missing, Overfills, NeverOverfilled;
      match e
      case DoAlloc => AllocMissing(c, run[i - 1]);
      case DoFree(k) => FreeMissing(c, run[i - 1], k);
    }
  }

  /** Every block ever cut from the region is in use, in the ring or missing. */
  lemma BlocksAddUp(c: Config, run: seq<World>, i: nat)
    requires ConfigOk(c) && Run(c, run) && i < |run|
    ensures |run[i].live| + |run[i].pool.free| + |Missing(c, run[i])| == run[i].pool.next / c.size
  {
    RunInv(c, run, i);
    hide Run;
    var w := run[i];
    var q := w.live + w.pool.free;
    var used := set x | x in Blocks(c, w) && Used(w, x);
    forall x: int ensures x in used <==> x in q {
      if x in q {
        var k :| 0 <= k < |q| && q[k] == x;
        assert BlockOf(c, w, q[k]);
      }
    }
    DistinctCount(q);
    assert used == set x: int | x in q;
    CountBlocks(c, w);
    assert Blocks(c, w) == used + Missing(c, w) && used !! Missing(c, w);
  }

  /** No further block fits behind n exactly if as many fit into n as into the whole region. */
  lemma FullIff(n: nat, region: nat, d: nat)
    requires d > 0 && n % d == 0 && n <= region
    ensures n + d > region <==> n / d == region / d
  {
    var q, most := n / d, region / d;
    assert n == q * d && most * d <= region < most * d + d;
    assert (q + 1) * d == q * d + d && (most + 1) * d == most * d + d;
    if q < most {
      Ordered(q + 1, most, d);
    } else if q > most {
      Ordered(most + 1, q, d);
    }
  }

  /** In every run alloc returns NULL exactly if at most two blocks are free and the blocks in use, in the ring and
      missing are together all that fit in the region; otherwise it hands out a block that nobody uses. */
  lemma FailsIff(c: Config, run: seq<World>, i: nat)
    requires ConfigOk(c) && Run(c, run) && i < |run|
    ensures var w := run[i];
            var ret := AllocStep(w.pool, c.region, c.base, c.size).1;
            && (ret.None? <==>
                 |w.pool.free| <= 2 && |w.live| + |w.pool.free| + |Missing(c, w)| == c.region / c.size)
            && (ret.Some? ==> ret.value !in w.live && Step(c, w, DoAlloc).live == w.live + [ret.value])
  {
    BlocksAddUp(c, run, i);
    RunInv(c, run, i);
    hide Run;
    var w := run[i];
    FullIff(w.pool.next, c.region, c.size);
    assert w.pool.next + c.size < SIZE_T && (w.pool.next + c.size) % SIZE_T == w.pool.next + c.size;
    var ret := AllocStep(w.pool, c.region, c.base, c.size).1;
    if ret.Some? && ret.value in w.live {
      var k :| 0 <= k < |w.live| && w.live[k] == ret.value;
      NotInUse(c, w, k);
      assert false;
    }
  }

  lemma NotInUse(c: Config, w: World, k: nat)
    requires ConfigOk(c) && Inv(c, w) && k < |w.live| && AllocStep(w.pool, c.region, c.base, c.size).1.Some?
    ensures AllocStep(w.pool, c.region, c.base, c.size).1.value != w.live[k]
  {
    var q := w.live + w.pool.free;
    assert q[k] == w.live[k] && BlockOf(c, w, q[k]);
    if |w.pool.free| > 2 {
      assert q[|w.live|] == w.pool.free[0];
    }
  }

  predicate InOrder(w: World) {
    w.freed == w.reused + w.pool.free && w.reused <= w.freed
  }

  lemma FreeInOrder(c: Config, w: World, k: nat)
    requires InOrder(w) && k < |w.live|
    ensures |Step(c, w, DoFree(k)).freed| == |w.freed| + 1
    ensures |w.pool.free| != RING - 1 ==> InOrder(Step(c, w, DoFree(k)))
  {
    assert w.reused + (w.pool.free + [w.live[k]]) == (w.reused + w.pool.free) + [w.live[k]];
  }

  lemma AllocInOrder(c: Config, w: World)
    requires InOrder(w)
    ensures InOrder(Step(c, w, DoAlloc))
  {
    if |w.pool.free| > 2 {
      var w' := Step(c, w, DoAlloc);
      assert w'.reused + w'.pool.free == w.reused + w.pool.free;
    }
  }

  /** As long as the ring was never overfilled, blocks are reused in the order in which they were freed. */
  lemma {:induction false} FirstFreedFirstReused(c: Config, run: seq<World>, i: nat)
    requires ConfigOk(c) && Run(c, run) && i < |run| && NeverOverfilled(run, i)
    ensures run[i].freed == run[i].reused + run[i].pool.free && run[i].reused <= run[i].freed
  {
    if i > 0 {
      assert NeverOverfilled(run, i - 1);
      FirstFreedFirstReused(c, run, i - 1);
      assert !Overfills(run, i - 1);
      assert Next(c, run[i - 1], run[i - 1 + 1]);
      var w := run[i - 1];
      var e :| CanStep(w, e) && run[i] == Step(c, w, e);
      hide Step, Run;
      match e
      case DoAlloc => AllocInOrder(c, w);
      case DoFree(k) => FreeInOrder(c, w, k);
    }
  }
}
