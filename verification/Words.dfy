/** 32-bit words as four byte lanes, and the byte-strobed merge used everywhere a word is written. */
module Words {
  datatype Option<+T> = None | Some(value: T)

  /** Lane 0 is bits 7..0. */
  datatype Word = Word(b0: bv8, b1: bv8, b2: bv8, b3: bv8)

  /** Strobe bit i enables lane i. */
  datatype Strobe = Strobe(s0: bool, s1: bool, s2: bool, s3: bool) {
    function Bit(i: nat): bool
      requires i < 4
    {
      if i == 0 then s0 else if i == 1 then s1 else if i == 2 then s2 else s3
    }
  }

  const ZERO := Word(0, 0, 0, 0)
  const ALL := Strobe(true, true, true, true)
  const NONE := Strobe(false, false, false, false)

  /** Lane selection: the combinational merge of the RTL. */
  function Merge(base: Word, data: Word, s: Strobe): Word {
    Word(if s.s0 then data.b0 else base.b0,
         if s.s1 then data.b1 else base.b1,
         if s.s2 then data.b2 else base.b2,
         if s.s3 then data.b3 else base.b3)
  }

  function Union(s: Strobe, t: Strobe): Strobe {
    Strobe(s.s0 || t.s0, s.s1 || t.s1, s.s2 || t.s2, s.s3 || t.s3)
  }

  /** The lanes not enabled by `s` hold the same bytes in both words. */
  predicate AgreeOutside(a: Word, b: Word, s: Strobe) {
    && (s.s0 || a.b0 == b.b0)
    && (s.s1 || a.b1 == b.b1)
    && (s.s2 || a.b2 == b.b2)
    && (s.s3 || a.b3 == b.b3)
  }

  /** Two merges of the same word give the same result exactly when the bases agree on the other lanes. */
  lemma MergeBases(a: Word, b: Word, data: Word, s: Strobe)
    ensures Merge(a, data, s) == Merge(b, data, s) <==> AgreeOutside(a, b, s)
  {}

  /** Merging in the controller and again on the way into the SRAM is one merge. */
  lemma MergeTwice(base: Word, data: Word, s: Strobe)
    ensures Merge(base, Merge(base, data, s), s) == Merge(base, data, s)
    ensures forall stale: Word :: Merge(stale, Merge(base, data, s), s) == Merge(stale, data, s)
  {}

  /** Two successive strobed writes are one write of the merged data under the union of the strobes. */
  lemma MergeCompose(base: Word, x: Word, s: Strobe, y: Word, t: Strobe)
    ensures Merge(Merge(base, x, s), y, t) == Merge(base, Merge(x, y, t), Union(s, t))
  {}

  // ---- The bit-level view: a word as one 32-bit number ----

  function PackLanes(b0: bv8, b1: bv8, b2: bv8, b3: bv8): bv32 {
    (b0 as bv32) | ((b1 as bv32) << 8) | ((b2 as bv32) << 16) | ((b3 as bv32) << 24)
  }

  function Lane(x: bv32, i: nat): bv8
    requires i < 4
  {
    if i == 0 then (x & 0xFF) as bv8
    else if i == 1 then ((x >> 8) & 0xFF) as bv8
    else if i == 2 then ((x >> 16) & 0xFF) as bv8
    else ((x >> 24) & 0xFF) as bv8
  }

  function Pack(w: Word): bv32 {
    PackLanes(w.b0, w.b1, w.b2, w.b3)
  }

  function Unpack(x: bv32): Word {
    Word(Lane(x, 0), Lane(x, 1), Lane(x, 2), Lane(x, 3))
  }

  lemma UnpackPack(w: Word)
    ensures Unpack(Pack(w)) == w
  {}

  /** The masks 0xFF << (8 * i). */
  function ByteMask(i: nat): bv32
    requires i < 4
  {
    if i == 0 then 0x000000FF else if i == 1 then 0x0000FF00 else if i == 2 then 0x00FF0000 else 0xFF000000
  }

  /** Clear the masked bits of x and take them from y. */
  function TakeMasked(x: bv32, y: bv32, mask: bv32): bv32 {
    (x & !mask) | (y & mask)
  }

  lemma TakeLane0(x: bv32, y: bv32)
    ensures Unpack(TakeMasked(x, y, ByteMask(0))) == Word(Lane(y, 0), Lane(x, 1), Lane(x, 2), Lane(x, 3))
  {}

  lemma TakeLane1(x: bv32, y: bv32)
    ensures Unpack(TakeMasked(x, y, ByteMask(1))) == Word(Lane(x, 0), Lane(y, 1), Lane(x, 2), Lane(x, 3))
  {}

  lemma TakeLane2(x: bv32, y: bv32)
    ensures Unpack(TakeMasked(x, y, ByteMask(2))) == Word(Lane(x, 0), Lane(x, 1), Lane(y, 2), Lane(x, 3))
  {}

  lemma TakeLane3(x: bv32, y: bv32)
    ensures Unpack(TakeMasked(x, y, ByteMask(3))) == Word(Lane(x, 0), Lane(x, 1), Lane(x, 2), Lane(y, 3))
  {}

  function OneLane(i: nat): Strobe {
    Strobe(i == 0, i == 1, i == 2, i == 3)
  }

  lemma TakeLane(x: bv32, y: bv32, i: nat)
    requires i < 4
    ensures Unpack(TakeMasked(x, y, ByteMask(i)))
         == Merge(Unpack(x), Unpack(y), OneLane(i))
  {
    if i == 0 {
      TakeLane0(x, y);
    } else if i == 1 {
      TakeLane1(x, y);
    } else if i == 2 {
      TakeLane2(x, y);
    } else {
      TakeLane3(x, y);
    }
  }

  /** The lanes of `s` below lane k. */
  function Below(s: Strobe, k: nat): Strobe {
    Strobe(k > 0 && s.s0, k > 1 && s.s1, k > 2 && s.s2, k > 3 && s.s3)
  }

  lemma MergeNextLane(base: Word, data: Word, s: Strobe, i: nat)
    requires i < 4
    ensures Merge(base, data, Below(s, i + 1))
         == if s.Bit(i) then Merge(Merge(base, data, Below(s, i)), data, OneLane(i))
            else Merge(base, data, Below(s, i))
  {}

  /**
   * The masking loop shared by the cache (util.py) and the memory (memory.py), on the packed words.
   * It computes the lane selection of the RTL.
   */
  method ApplyWstrb(oldValue: Word, newValue: Word, wstrb: Strobe) returns (merged: Word)
    ensures merged == Merge(oldValue, newValue, wstrb)
  {
    var data := Pack(newValue);
    var result := Pack(oldValue);
    UnpackPack(oldValue);
    UnpackPack(newValue);
    for i := 0 to 4
      invariant Unpack(result) == Merge(oldValue, newValue, Below(wstrb, i))
    {
      MergeNextLane(oldValue, newValue, wstrb, i);
      if wstrb.Bit(i) {
        TakeLane(result, data, i);
        result := TakeMasked(result, data, ByteMask(i));
      }
    }
    merged := Unpack(result);
  }
}
