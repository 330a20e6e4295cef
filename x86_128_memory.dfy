/*
 * The x86_128-inl.h ops that work through small arrays: SetTableIndices
 * (and the TableLookupLanes that consumes it), the portable ScatterIndex and
 * GatherIndex of SSSE3/SSE4, Iota, and the SSSE3 MulEven of int32 lanes.
 *
 * Lanes are numbers (their bits read unsigned), as in X86Compress128.
 */
module X86Memory128 {
  import opened Words
  import opened Lanes
  import opened Digits
  import opened IndexTables
  import opened X86Mask128
  import opened X86Compress128

  // ------------------------------------------------------------ SetTableIndices

  /** The control bytes of lane index i: static_cast<uint8_t>(i * sizeof(T) + b). */
  function LaneControl(size: nat, i: int): (r: seq<nat>)
    ensures |r| == size
  {
    seq(size, b requires 0 <= b < size => (i * size + b) % 256)
  }

  /** The control bytes of the first l lane indices. */
  function Controls(size: nat, idx: seq<int>, l: nat): (r: seq<seq<nat>>)
    requires l <= |idx|
    ensures |r| == l && forall k | 0 <= k < l :: r[k] == LaneControl(size, idx[k])
  {
    seq(l, k requires 0 <= k < l => LaneControl(size, idx[k]))
  }

  /** control[16]: the bytes of the n lane indices in order, zero above them. */
  function TableControl(size: nat, n: nat, idx: seq<int>): (r: seq<nat>)
    requires n <= |idx| && n * size <= 16
    ensures |r| == 16
  {
    ControlsLength(size, idx, n);
    Flatten(Controls(size, idx, n)) + Repeat(0, 16 - n * size)
  }

  /**
   * SetTableIndices(d, idx): byte idx_lane * sizeof(T) + idx_byte of
   * control[16] = {0} becomes idx[idx_lane] * sizeof(T) + idx_byte.
   */
  method SetTableIndices(size: nat, n: nat, idx: seq<int>) returns (control: seq<nat>)
    requires LaneSize(size) && n <= |idx| && n * size <= 16
    ensures control == TableControl(size, n, idx)
  {
    control := seq(16, _ => 0);
    var written: seq<nat> := [];
    OffsetMul(size, n);
    assert Controls(size, idx, 0) == [];
    for l := 0 to n
      invariant written == Flatten(Controls(size, idx, l))
      invariant |written| == Offset(size, l) <= Offset(size, n)
      invariant control == written + Repeat(0, 16 - |written|)
    {
      OffsetBelow(size, l + 1, n);
      ControlsNext(size, idx, l);
      control := AppendLaneControl(control, written, size, idx[l]);
      written := written + LaneControl(size, idx[l]);
    }
  }

  /** One step of the outer loop: the control bytes of lane index i go after those already written. */
  method AppendLaneControl(c: seq<nat>, written: seq<nat>, size: nat, i: int) returns (r: seq<nat>)
    requires |written| + size <= |c| && c == written + Repeat(0, |c| - |written|)
    ensures r == written + LaneControl(size, i) + Repeat(0, |c| - |written| - size)
  {
    ZerosAfter(written, |c| - |written|);
    r := WriteLaneControl(c, |written|, size, i);
    ZerosAfterJoin(r, written + LaneControl(size, i), |c| - |written| - size);
  }

  /**
   * The inner loop of SetTableIndices: the control bytes of lane index i are
   * written over the zeros from c[start] on.
   */
  method WriteLaneControl(c: seq<nat>, start: nat, size: nat, i: int) returns (r: seq<nat>)
    requires start + size <= |c| && c[start..] == Repeat(0, |c| - start)
    ensures |r| == |c| && r[..start + size] == c[..start] + LaneControl(size, i)
    ensures r[start + size..] == Repeat(0, |c| - start - size)
  {
    r := c;
    var pos := start;
    for b := 0 to size
      invariant pos == start + b && |r| == |c|
      invariant r[..pos] == c[..start] + LaneControl(size, i)[..b]
      invariant r[pos..] == Repeat(0, |c| - pos)
    {
      ControlWrite(r, pos, c[..start], LaneControl(size, i), b);
      r := r[pos := (i * size + b) % 256];
      pos := pos + 1;
    }
    assert LaneControl(size, i)[..size] == LaneControl(size, i);
  }

  /** size * l, the first byte of lane l, as a sum of l lane sizes. */
  function Offset(size: nat, l: nat): nat
  {
    if l == 0 then 0 else Offset(size, l - 1) + size
  }

  lemma {:induction false} OffsetMul(size: nat, l: nat)
    ensures Offset(size, l) == l * size
  {
    if l > 0 {
      OffsetMul(size, l - 1);
    }
  }

  lemma {:induction false} OffsetBelow(size: nat, l: nat, n: nat)
    requires l <= n
    ensures Offset(size, l) <= Offset(size, n)
    decreases n
  {
    if l < n {
      OffsetBelow(size, l, n - 1);
    }
  }

  /** Writing byte b of a lane's control over the zero at pos extends the written prefix. */
  lemma ControlWrite(s: seq<nat>, pos: nat, done: seq<nat>, lane: seq<nat>, b: nat)
    requires pos < |s| && b < |lane|
    requires s[..pos] == done + lane[..b] && s[pos..] == Repeat(0, |s| - pos)
    ensures s[pos := lane[b]][..pos + 1] == done + lane[..b + 1]
    ensures s[pos := lane[b]][pos + 1..] == Repeat(0, |s| - pos - 1)
  {
    assert lane[..b + 1] == lane[..b] + [lane[b]];
    assert s[pos := lane[b]][..pos + 1] == s[..pos] + [lane[b]];
    assert s[pos := lane[b]][pos + 1..] == s[pos..][1..];
  }

  lemma ControlStep(size: nat, i: int, b: nat)
    requires b < size
    ensures LaneControl(size, i)[..b + 1] == LaneControl(size, i)[..b] + [(i * size + b) % 256]
  {
  }

  lemma ControlsLength(size: nat, idx: seq<int>, l: nat)
    requires l <= |idx|
    ensures |Flatten(Controls(size, idx, l))| == l * size
  {
    FlattenLength(Controls(size, idx, l), size);
  }

  /** The control bytes of one more lane index are those of the next lane appended. */
  lemma ControlsNext(size: nat, idx: seq<int>, l: nat)
    requires l < |idx|
    ensures Flatten(Controls(size, idx, l + 1)) == Flatten(Controls(size, idx, l)) + LaneControl(size, idx[l])
  {
    assert Controls(size, idx, l + 1) == Controls(size, idx, l) + [LaneControl(size, idx[l])];
    FlattenSnoc(Controls(size, idx, l), LaneControl(size, idx[l]));
  }

  /** A prefix followed by k zeros, split at the end of the prefix. */
  lemma ZerosAfter(p: seq<nat>, k: nat)
    ensures (p + Repeat(0, k))[..|p|] == p && (p + Repeat(0, k))[|p|..] == Repeat(0, k)
  {
  }

  /** A prefix followed by k zeros, joined again. */
  lemma ZerosAfterJoin(c: seq<nat>, p: seq<nat>, k: nat)
    requires |c| == |p| + k && c[..|p|] == p && c[|p|..] == Repeat(0, k)
    ensures c == p + Repeat(0, k)
  {
    assert c == c[..|p|] + c[|p|..];
  }

  /** Byte l * sizeof(T) + b of the control is idx[l] * sizeof(T) + b, truncated to a byte. */
  lemma ControlByte(size: nat, n: nat, idx: seq<int>, l: nat, b: nat)
    requires n <= |idx| && n * size <= 16 && l < n && b < size
    ensures size * l + b < 16
    ensures TableControl(size, n, idx)[size * l + b] == (idx[l] * size + b) % 256
  {
    MulBelow(size, l, n);
    FlattenAt(Controls(size, idx, n), size, l, b);
  }

  /** The bytes above the n lanes stay zero. */
  lemma ControlZero(size: nat, n: nat, idx: seq<int>, j: nat)
    requires n <= |idx| && n * size <= 16 && n * size <= j < 16
    ensures TableControl(size, n, idx)[j] == 0
  {
    FlattenLength(Controls(size, idx, n), size);
  }

  /** The lane indices as naturals. */
  function AsIndices(idx: seq<int>): (r: seq<nat>)
    requires forall k | 0 <= k < |idx| :: idx[k] >= 0
    ensures |r| == |idx| && forall k | 0 <= k < |idx| :: r[k] == idx[k]
  {
    seq(|idx|, k requires 0 <= k < |idx| => idx[k] as nat)
  }

  /** TableLookupLanes of 32-bit lanes: TableLookupBytes with the SetTableIndices control. */
  function TableLookupLanes(v: seq<nat>, control: seq<nat>): seq<nat>
    requires LaneVector(4, v) && |control| == 16
  {
    ShuffleLanes(4, v, control)
  }

  /** With in-range indices, lane index p gives the control bytes of the bytes of lane p. */
  lemma LaneControlSpan(size: nat, p: nat, count: nat)
    requires p < count && count * size <= 16
    ensures LaneControl(size, p) == Span(size * p, size)
  {
    MulBelow(size, p, count);
    forall b | 0 <= b < size
      ensures LaneControl(size, p)[b] == Span(size * p, size)[b]
    {
      assert p * size + b < 256;
    }
  }

  /** With in-range indices, the control bytes are the byte indices of the chosen lanes. */
  lemma {:induction false} ControlPieces(size: nat, idx: seq<int>)
    requires LaneSize(size) && |idx| == LaneCount(size)
    requires forall k | 0 <= k < |idx| :: 0 <= idx[k] < |idx|
    ensures TableControl(size, |idx|, idx) == IndexPieces(AsIndices(idx), size)
  {
    var ps := AsIndices(idx);
    var spans := seq(|ps|, k requires 0 <= k < |ps| => Span(size * ps[k], size));
    forall k | 0 <= k < |idx|
      ensures Controls(size, idx, |idx|)[k] == spans[k]
    {
      LaneControlSpan(size, ps[k], |idx|);
    }
    assert Controls(size, idx, |idx|) == spans;
    assert IndexPieces(ps, size) == Flatten(spans);
    assert 16 - |idx| * size == 0;
    assert TableControl(size, |idx|, idx) == Flatten(spans) + [];
  }

  /**
   * TableLookupLanes(v, SetTableIndices(d, idx)) puts lane idx[i] of v into
   * lane i, for indices 0 <= idx[i] < N.
   */
  lemma {:induction false} TableLookupLanesGathers(v: seq<nat>, idx: seq<int>)
    requires LaneVector(4, v) && |idx| == 4
    requires forall k | 0 <= k < 4 :: 0 <= idx[k] < 4
    ensures |TableControl(4, 4, idx)| == 16
    ensures TableLookupLanes(v, TableControl(4, 4, idx)) == Gather(v, AsIndices(idx))
  {
    ControlPieces(4, idx);
    GatherBytes(4, v, AsIndices(idx));
  }

  // ------------------------------------------------------------ ScatterIndex / GatherIndex

  /** The array after base[index[i]] = lanes[i] for i = 0 .. |v| - 1. */
  function Scattered(base: seq<nat>, v: seq<nat>, index: seq<nat>): (r: seq<nat>)
    requires |index| == |v| && forall i | 0 <= i < |index| :: index[i] < |base|
    ensures |r| == |base|
    decreases |v|
  {
    if |v| == 0 then base
    else Scattered(base, v[..|v| - 1], index[..|v| - 1])[index[|v| - 1] := v[|v| - 1]]
  }

  /** The portable ScatterIndex: stores lane i at base[index[i]], lanes in ascending order. */
  method ScatterIndex(v: seq<nat>, base: array<nat>, index: seq<nat>)
    requires |index| == |v| && forall i | 0 <= i < |index| :: index[i] < base.Length
    modifies base
    ensures base[..] == Scattered(old(base[..]), v, index)
  {
    for i := 0 to |v|
      invariant base[..] == Scattered(old(base[..]), v[..i], index[..i])
    {
      base[index[i]] := v[i];
      assert v[..i + 1][..i] == v[..i] && index[..i + 1][..i] == index[..i];
    }
    assert v[..|v|] == v && index[..|v|] == index;
  }

  /** An element no lane is scattered to keeps its value. */
  lemma {:induction false} ScatteredUntouched(base: seq<nat>, v: seq<nat>, index: seq<nat>, j: nat)
    requires |index| == |v| && forall i | 0 <= i < |index| :: index[i] < |base|
    requires j < |base| && forall i | 0 <= i < |index| :: index[i] != j
    ensures Scattered(base, v, index)[j] == base[j]
    decreases |v|
  {
    if |v| > 0 {
      ScatteredUntouched(base, v[..|v| - 1], index[..|v| - 1], j);
    }
  }

  /** With duplicate indices the last lane wins: lane i lands if no later lane has its index. */
  lemma {:induction false} ScatteredLast(base: seq<nat>, v: seq<nat>, index: seq<nat>, i: nat)
    requires |index| == |v| && forall k | 0 <= k < |index| :: index[k] < |base|
    requires i < |v| && forall k | i < k < |v| :: index[k] != index[i]
    ensures Scattered(base, v, index)[index[i]] == v[i]
    decreases |v|
  {
    if i < |v| - 1 {
      ScatteredLast(base, v[..|v| - 1], index[..|v| - 1], i);
    }
  }

  /** The portable GatherIndex: lane i of the result is base[index[i]]. */
  method GatherIndex(base: array<nat>, index: seq<nat>) returns (r: seq<nat>)
    requires forall i | 0 <= i < |index| :: index[i] < base.Length
    ensures r == Gather(base[..], index)
  {
    var lanes := new nat[|index|];
    for i := 0 to |index|
      invariant forall k | 0 <= k < i :: lanes[k] == base[index[k]]
    {
      lanes[i] := base[index[i]];
    }
    r := lanes[..];
  }

  /** Gathering at distinct indices after scattering there returns the scattered lanes. */
  lemma GatherScattered(base: seq<nat>, v: seq<nat>, index: seq<nat>)
    requires |index| == |v| && forall i | 0 <= i < |index| :: index[i] < |base|
    requires forall i, k | 0 <= i < k < |index| :: index[i] != index[k]
    ensures Gather(Scattered(base, v, index), index) == v
  {
    forall i | 0 <= i < |v|
      ensures Scattered(base, v, index)[index[i]] == v[i]
    {
      ScatteredLast(base, v, index, i);
    }
  }

  // ------------------------------------------------------------ Iota

  /** static_cast<T>(x): the low 8 * sizeof(T) bits of x. */
  function CastLane(size: nat, x: int): (r: nat)
    ensures r < Power(256, size)
  {
    x % Power(256, size)
  }

  /**
   * Iota(d, first): lanes[i] = static_cast<T>(first + i) for every lane of a
   * bytes-wide register of size-byte lanes.
   */
  method Iota(size: nat, count: nat, first: int) returns (r: seq<nat>)
    requires LaneSize(size) && count * size <= 32
    ensures |r| == count
    ensures forall i | 0 <= i < count :: r[i] == CastLane(size, first + i)
  {
    var lanes := new nat[count];
    for i := 0 to count
      invariant forall k | 0 <= k < i :: lanes[k] == CastLane(size, first + k)
    {
      lanes[i] := CastLane(size, first + i);
    }
    r := lanes[..];
  }

  /** Each lane of Iota is one more than the previous one, wrapping in the lane type. */
  lemma IotaStep(size: nat, first: int, i: nat)
    ensures CastLane(size, first + i + 1) == CastLane(size, CastLane(size, first + i) + 1)
  {
    var m := Power(256, size);
    var x := first + i;
    var r := x % m;
    assert x == (x / m) * m + r;
    if r + 1 < m {
      DivModUnique(x + 1, x / m, r + 1, m);
      DivModUnique(r + 1, 0, r + 1, m);
    } else {
      DivModUnique(x + 1, x / m + 1, 0, m);
      DivModUnique(r + 1, 1, 0, m);
    }
  }

  /** When first + i fits the lane, the lane is exactly first + i. */
  lemma IotaExact(size: nat, first: int, i: nat)
    requires 0 <= first + i < Power(256, size)
    ensures CastLane(size, first + i) == first + i
  {
    DivModUnique(first + i, 0, first + i, Power(256, size));
  }

  // ------------------------------------------------------------ MulEven (SSSE3)

  /** int64_t(x) * y for int32 lanes, stored as the bits of an int64 lane. */
  function Product64(x: u32, y: u32): (r: u64)
  {
    (Signed32(x) * Signed32(y)) % 0x1_0000_0000_0000_0000
  }

  /**
   * SSSE3 MulEven of full int32 vectors: the lanes are stored, and
   * mul[0] = a[0] * b[0], mul[1] = a[2] * b[2] are loaded as int64 lanes.
   */
  method MulEvenSsse3(a: seq<u32>, b: seq<u32>) returns (r: seq<u64>)
    requires |a| == 4 && |b| == 4
    ensures |r| == 2
    ensures forall k | 0 <= k < 2 :: Signed64(r[k]) == Signed32(a[2 * k]) * Signed32(b[2 * k])
  {
    var mul := new u64[2];
    mul[0] := Product64(a[0], b[0]);
    mul[1] := Product64(a[2], b[2]);
    ProductFits(a[0], b[0]);
    ProductFits(a[2], b[2]);
    r := mul[..];
  }

  /** The product of two int32 values fits an int64, so the stored bits read back as the product. */
  lemma ProductFits(x: u32, y: u32)
    ensures Signed64(Product64(x, y)) == Signed32(x) * Signed32(y)
  {
    var p := Signed32(x) * Signed32(y);
    ProductBound(Signed32(x), Signed32(y));
    if p < 0 {
      assert p % 0x1_0000_0000_0000_0000 == p + 0x1_0000_0000_0000_0000;
    }
  }

  lemma ProductBound(s: int, t: int)
    requires -0x8000_0000 <= s < 0x8000_0000 && -0x8000_0000 <= t < 0x8000_0000
    ensures -0x4000_0000_0000_0000 <= s * t <= 0x4000_0000_0000_0000
  {
    var sa := if s < 0 then -s else s;
    var ta := if t < 0 then -t else t;
    assert sa <= 0x8000_0000 && ta <= 0x8000_0000;
    MulLe(sa, 0x8000_0000, ta);
    MulLe(ta, 0x8000_0000, 0x8000_0000);
    assert sa * ta == (if (s < 0) == (t < 0) then s * t else -(s * t));
  }

  lemma MulLe(x: nat, y: nat, z: nat)
    requires x <= y
    ensures x * z <= y * z
  {
  }

  /** MulEven of vectors of one or two int32 lanes: Set of the product of lane 0. */
  function MulEvenPartial(a: seq<u32>, b: seq<u32>): (r: seq<u64>)
    requires 1 <= |a| == |b| <= 2
  {
    [Product64(a[0], b[0])]
  }

  /** Both forms agree on the lowest int64 lane. */
  lemma MulEvenPartialLane(a: seq<u32>, b: seq<u32>)
    requires 1 <= |a| == |b| <= 2
    ensures Signed64(MulEvenPartial(a, b)[0]) == Signed32(a[0]) * Signed32(b[0])
  {
    ProductFits(a[0], b[0]);
  }
}
