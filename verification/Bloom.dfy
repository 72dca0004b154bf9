/** The Bloom filter that stands in for the search of the hazard slots (src/bloom.c). */
module Bloom {
  import opened Addresses

  const UINT32 := 0x1_0000_0000

  /** The two murmurhash2 values of an element, from which all probes are made. */
  datatype Hash = Hash(a: nat, b: nat)

  /** (a + i * b) % bits, in unsigned 32-bit arithmetic. */
  function Probe(h: Hash, i: nat, bits: nat): (x: nat)
    requires bits > 0
    ensures x < bits
  {
    ((h.a + i * h.b) % UINT32) % bits
  }

  function Mask(k: nat): bv8
    requires k < 8
  {
    1 as bv8 << k
  }

  predicate BitSet(c: bv8, k: nat)
    requires k < 8
  {
    c & Mask(k) != 0
  }

  /** Setting one bit of a byte sets that bit and no other. */
  lemma SetOne(c: bv8, k: nat, j: nat)
    requires k < 8 && j < 8
    ensures BitSet(c | Mask(k), j) <==> BitSet(c, j) || j == k
  {
    MaskCases(k);
    MaskCases(j);
  }

  lemma MaskCases(k: nat)
    requires k < 8
    ensures Mask(k) == (if k == 0 then 1 else if k == 1 then 2 else if k == 2 then 4 else if k == 3 then 8
                        else if k == 4 then 16 else if k == 5 then 32 else if k == 6 then 64 else 128)
  {
  }

  /** Each of the probes for n is one for some non-NULL slot: what a filter of these slots cannot tell from them. */
  ghost predicate Covered(slots: seq<Node>, bits: nat, hashes: nat, hash: Node -> Hash, n: Node)
    requires bits > 0
  {
    forall i :: 0 <= i < hashes ==> IsProbe(slots, bits, hashes, hash, Probe(hash(n), i, bits))
  }

  ghost predicate IsProbe(slots: seq<Node>, bits: nat, hashes: nat, hash: Node -> Hash, x: nat)
    requires bits > 0
  {
    exists j, k :: 0 <= j < |slots| && slots[j] != 0 && 0 <= k < hashes && x == Probe(hash(slots[j]), k, bits)
  }

  /** What is in a slot is covered; without slots nothing is, if there are probes at all. */
  lemma CoveredCases(slots: seq<Node>, bits: nat, hashes: nat, hash: Node -> Hash, n: Node)
    requires bits > 0
    ensures n != 0 && n in slots ==> Covered(slots, bits, hashes, hash, n)
    ensures (forall j :: 0 <= j < |slots| ==> slots[j] == 0) && hashes > 0 ==> !Covered(slots, bits, hashes, hash, n)
  {
    hide Probe;
    if n != 0 && n in slots {
      var j :| 0 <= j < |slots| && slots[j] == n;
      forall i | 0 <= i < hashes ensures IsProbe(slots, bits, hashes, hash, Probe(hash(n), i, bits)) {
        assert Probe(hash(n), i, bits) == Probe(hash(slots[j]), i, bits);
      }
    }
    if (forall j :: 0 <= j < |slots| ==> slots[j] == 0) && hashes > 0 {
      assert !IsProbe(slots, bits, hashes, hash, Probe(hash(n), 0, bits));
    }
  }

  /** struct bloom after bloom_init; the sizes are parameters. */
  class Filter {
    const bits: nat
    const hashes: nat
    const hash: Node -> Hash
    const bf: array<bv8>

    ghost predicate Valid()
      reads this
    {
      bits > 0 && 8 * bf.Length >= bits
    }

    predicate Bit(x: nat)
      requires bits > 0 && 8 * bf.Length >= bits && x < bits
      reads bf
    {
      BitSet(bf[x / 8], x % 8)
    }

    /** The positions whose bit is set. */
    ghost function Ones(): (ones: set<nat>)
      requires Valid()
      reads this, bf
      ensures forall x: nat :: x in ones <==> x < bits && Bit(x)
    {
      set x: nat | x < bits && Bit(x)
    }

    /** The first k probes for n. */
    ghost function Probes(n: Node, k: nat): set<nat>
      requires bits > 0
    {
      if k == 0 then {} else Probes(n, k - 1) + {Probe(hash(n), k - 1, bits)}
    }

    /** Whether all probes of n hit. */
    ghost predicate Contains(n: Node)
      requires Valid()
      reads this, bf
    {
      Probes(n, hashes) <= Ones()
    }

    /** Whether each of the first k probes hits what was set before, or, when adding, an earlier probe. */
    ghost predicate AllHit(before: set<nat>, n: Node, add: bool, k: nat)
      requires bits > 0
    {
      k > 0 ==> AllHit(before, n, add, k - 1)
                && Probe(hash(n), k - 1, bits) in before + if add then Probes(n, k - 1) else {}
    }

    /** bloom_init, with the sizes it computes given. */
    constructor (bits: nat, hashes: nat, hash: Node -> Hash)
      requires bits > 0
      ensures Valid() && fresh(bf) && Ones() == {}
      ensures this.bits == bits && this.hashes == hashes && this.hash == hash
    {
      this.bits := bits;
      this.hashes := hashes;
      this.hash := hash;
      bf := new bv8[if bits % 8 != 0 then bits / 8 + 1 else bits / 8](_ => 0);
    }

    method SetBit(x: nat)
      requires Valid() && x < bits
      modifies bf
      ensures Ones() == old(Ones()) + {x}
    {
      var byte := x / 8;
      ghost var c := bf[byte];
      bf[byte] := bf[byte] | Mask(x % 8);
      forall y | 0 <= y < bits ensures y in Ones() <==> y in old(Ones()) || y == x {
        if y / 8 == byte {
          SetOne(c, x % 8, y % 8);
        } else {
          assert bf[y / 8] == old(bf[y / 8]);
        }
      }
    }

    method TestBit(x: nat) returns (b: bool)
      requires Valid() && x < bits
      ensures b <==> x in Ones()
    {
      var c := bf[x / 8];
      b := c & Mask(x % 8) != 0;
    }

    /** One probe: does it hit, and if not, set the bit when adding. */
    method TestOrSet(x: nat, add: bool) returns (hit: bool)
      requires Valid() && x < bits
      modifies bf
      ensures hit <==> x in old(Ones())
      ensures Ones() == old(Ones()) + if add then {x} else {}
    {
      hide Bit;
      hit := TestBit(x);
      if !hit && add {
        SetBit(x);
      }
    }

    /** bloom_check_add: the answer is 1 exactly if every probe hits. */
    method CheckAdd(n: Node, add: bool) returns (res: int)
      requires Valid()
      modifies bf
      ensures Ones() == old(Ones()) + if add then Probes(n, hashes) else {}
      ensures res == if AllHit(old(Ones()), n, add, hashes) then 1 else 0
    {
      hide Bit, BitSet, Mask, Probe;
      var hits := 0;
      var i := 0;
      ghost var before := Ones();
      while i < hashes
        invariant 0 <= i <= hashes && 0 <= hits <= i
        invariant Ones() == before + if add then Probes(n, i) else {}
        invariant hits == i <==> AllHit(before, n, add, i)
      {
        var hit := TestOrSet(Probe(hash(n), i, bits), add);
        if hit {
          hits := hits + 1;
        }
        i := i + 1;
      }
      res := if hits == hashes then 1 else 0;
    }

    lemma {:induction false} AllHitMeans(before: set<nat>, n: Node, k: nat)
      requires bits > 0
      ensures AllHit(before, n, false, k) <==> Probes(n, k) <= before
    {
      if k > 0 {
        AllHitMeans(before, n, k - 1);
      }
    }

    /** bloom_add */
    method Add(n: Node) returns (res: int)
      requires Valid()
      modifies bf
      ensures Contains(n) && Ones() == old(Ones()) + Probes(n, hashes)
    {
      hide Bit, BitSet, Mask, Probe, Probes, AllHit;
      res := CheckAdd(n, true);
    }

    /** A probe of one of the non-NULL slots */
    ghost predicate Probed(slots: seq<Node>, x: nat)
      requires bits > 0
    {
      exists j :: 0 <= j < |slots| && slots[j] != 0 && x in Probes(slots[j], hashes)
    }

    lemma ProbedMore(slots: seq<Node>, i: nat, x: nat)
      requires bits > 0 && i < |slots|
      ensures Probed(slots[..i + 1], x) <==> Probed(slots[..i], x) || (slots[i] != 0 && x in Probes(slots[i], hashes))
    {
      hide Probes;
      if j :| 0 <= j < i && slots[..i][j] != 0 && x in Probes(slots[..i][j], hashes) {
        assert slots[..i + 1][j] == slots[..i][j];
      }
      var next := slots[..i + 1];
      if j :| 0 <= j < |next| && next[j] != 0 && x in Probes(next[j], hashes) && j < i {
        assert slots[..i][j] == next[j];
      }
      assert slots[..i + 1][i] == slots[i];
    }

    /** bloom_refresh after bloom_init: add every non-NULL slot. The bits set are those of their probes and no others. */
    method AddAll(slots: array<Node>)
      requires Valid() && slots as object != bf
      modifies bf
      ensures forall x: nat :: x in Ones() <==> x in old(Ones()) || Probed(slots[..], x)
      ensures forall j :: 0 <= j < slots.Length && slots[j] != 0 ==> Contains(slots[j])
    {
      hide Bit, BitSet, Mask, Probe, Probes, AllHit;
      var i := 0;
      while i < slots.Length
        invariant 0 <= i <= slots.Length
        invariant forall x: nat :: x in Ones() <==> x in old(Ones()) || Probed(slots[..i], x)
      {
        ghost var before := Ones();
        if slots[i] != 0 {
          var hit := Add(slots[i]);
        }
        forall x: nat ensures x in Ones() <==> x in old(Ones()) || Probed(slots[..i + 1], x) {
          assert slots[..][..i] == slots[..i] && slots[..][..i + 1] == slots[..i + 1];
          ProbedMore(slots[..], i, x);
          hide Probed;
        }
        i := i + 1;
      }
      assert slots[..i] == slots[..];
    }

    /** The first k probes one by one */
    lemma {:induction false} ProbesIff(n: Node, k: nat, x: nat)
      requires bits > 0
      ensures x in Probes(n, k) <==> exists i :: 0 <= i < k && x == Probe(hash(n), i, bits)
    {
      hide Probe;
      if k > 0 {
        ProbesIff(n, k - 1, x);
      }
    }

    lemma ProbedIff(slots: seq<Node>, x: nat)
      requires bits > 0
      ensures Probed(slots, x) <==> IsProbe(slots, bits, hashes, hash, x)
    {
      hide Probes, Probe;
      if j :| 0 <= j < |slots| && slots[j] != 0 && x in Probes(slots[j], hashes) {
        ProbesIff(slots[j], hashes, x);
      }
      if j, k :| 0 <= j < |slots| && slots[j] != 0 && 0 <= k < hashes && x == Probe(hash(slots[j]), k, bits) {
        ProbesIff(slots[j], hashes, x);
      }
    }

    /** After bloom_refresh a filter contains exactly what the slots cover. */
    lemma ContainsIff(slots: seq<Node>, n: Node)
      requires Valid() && forall x: nat :: x in Ones() <==> Probed(slots, x)
      ensures Contains(n) <==> Covered(slots, bits, hashes, hash, n)
    {
      hide Probes, Probe, Probed, IsProbe, Ones;
      if Contains(n) {
        forall i | 0 <= i < hashes ensures IsProbe(slots, bits, hashes, hash, Probe(hash(n), i, bits)) {
          ProbesIff(n, hashes, Probe(hash(n), i, bits));
          ProbedIff(slots, Probe(hash(n), i, bits));
        }
      }
      if Covered(slots, bits, hashes, hash, n) {
        forall x | x in Probes(n, hashes) ensures x in Ones() {
          ProbesIff(n, hashes, x);
          ProbedIff(slots, x);
        }
      }
    }

    /** bloom_check: the answer is 1 for everything that was added, and for nothing that has a probe on a clear bit. */
    method Check(n: Node) returns (res: int)
      requires Valid()
      modifies bf
      ensures Ones() == old(Ones()) && (res == 1 <==> old(Contains(n))) && (res == 0 || res == 1)
    {
      AllHitMeans(Ones(), n, hashes);
      res := CheckAdd(n, false);
    }
  }
}
