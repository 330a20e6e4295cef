/*
 * The shared theory of the Compress index tables.  Row m of every table
 * lists, for each output lane, the input lane it reads: the lanes selected
 * by the bits of m in ascending order, then lane 0 for the remaining output
 * lanes (Indices).  The tables store each lane index as a "slot" of several
 * pieces (bytes for PSHUFB, 32-bit halves for VPERMD, nibbles for the packed
 * AVX2 table); a row read as one little-endian number is Packed.
 */
module IndexTables {
  import opened Lanes
  import opened Digits

  /** Lanes j, j+1, ..., j+n-1. */
  function Span(j: nat, n: nat): (r: seq<nat>)
    ensures |r| == n && forall i | 0 <= i < n :: r[i] == j + i
  {
    seq(n, i requires 0 <= i < n => j + i)
  }

  /** The selected lanes among j .. j+n-1 in ascending order, then lane 0 for the rest. */
  function IndicesFrom(j: nat, sel: seq<bool>): (r: seq<nat>)
    ensures |r| == |sel|
  {
    CompressedLength(Span(j, |sel|), sel);
    Compressed(Span(j, |sel|), sel) + Repeat(0, |sel| - Count(sel))
  }

  /** The input lane read by each output lane of Compress. */
  function Indices(sel: seq<bool>): (r: seq<nat>)
    ensures |r| == |sel|
  {
    IndicesFrom(0, sel)
  }

  /** The slot of every lane index: a * p + c. */
  function Slots(a: nat, c: nat, ps: seq<nat>): (r: seq<nat>)
    ensures |r| == |ps| && forall k | 0 <= k < |ps| :: r[k] == a * ps[k] + c
  {
    seq(|ps|, k requires 0 <= k < |ps| => a * ps[k] + c)
  }

  /**
   * The row of mask m for the n lanes starting at lane j, as a number in the
   * given base with one digit per output lane: a selected lane j puts its slot
   * a * j + c at the bottom, an unselected one adds a padding slot c (lane 0)
   * at the top.
   */
  function Packed(a: nat, c: nat, base: nat, j: nat, m: nat, n: nat): nat
    decreases n
  {
    if n == 0 then 0
    else if m % 2 == 1 then (a * j + c) + base * Packed(a, c, base, j + 1, m / 2, n - 1)
    else Packed(a, c, base, j + 1, m / 2, n - 1) + c * Power(base, n - 1)
  }

  /**
   * One step of Packed unrolled: bit 0 of m selects slot at the bottom, or
   * the padding pad (already scaled to the top digit) is added.
   */
  function Place(m: nat, slot: nat, base: nat, pad: nat, rest: nat): nat
  {
    if m % 2 == 1 then slot + base * rest else rest + pad
  }

  /** Concatenation of equally long pieces. */
  function Flatten(xss: seq<seq<nat>>): (r: seq<nat>)
  {
    if |xss| == 0 then [] else xss[0] + Flatten(xss[1..])
  }

  /** The pieces of each lane index p: size * p, size * p + 1, ..., size * p + size - 1. */
  function IndexPieces(ps: seq<nat>, size: nat): (r: seq<nat>)
  {
    Flatten(seq(|ps|, k requires 0 <= k < |ps| => Span(size * ps[k], size)))
  }

  /** A vector of lanes as its pieces (little-endian digits of size each lane). */
  function Pieces(v: seq<nat>, size: nat, digit: nat): (r: seq<nat>)
    requires Base(digit)
  {
    Flatten(seq(|v|, k requires 0 <= k < |v| => ToDigits(v[k], digit, size)))
  }

  /** The lanes whose pieces are ps (a BitCast to lanes of size pieces). */
  function FromPieces(ps: seq<nat>, size: nat, digit: nat): (r: seq<nat>)
    requires size > 0
  {
    if |ps| < size then [] else [FromDigits(ps[..size], digit)] + FromPieces(ps[size..], size, digit)
  }

  /** Piece i of the result is piece ctrl[i] of the source. */
  function Lookup(pieces: seq<nat>, ctrl: seq<nat>): (r: seq<nat>)
    requires forall i | 0 <= i < |ctrl| :: ctrl[i] < |pieces|
    ensures |r| == |ctrl| && forall i | 0 <= i < |ctrl| :: r[i] == pieces[ctrl[i]]
  {
    seq(|ctrl|, i requires 0 <= i < |ctrl| => pieces[ctrl[i]])
  }

  /** Lane k of the result is lane ps[k] of v. */
  function Gather(v: seq<nat>, ps: seq<nat>): (r: seq<nat>)
    requires forall k | 0 <= k < |ps| :: ps[k] < |v|
    ensures |r| == |ps| && forall k | 0 <= k < |ps| :: r[k] == v[ps[k]]
  {
    seq(|ps|, k requires 0 <= k < |ps| => v[ps[k]])
  }

  /** sum over b < size of digit^b: the slot step between lane indices, per unit of size. */
  function Ones(size: nat, digit: nat): nat
  {
    FromDigits(Repeat(1, size), digit)
  }

  /** The slot step between consecutive lane indices: size pieces, each one more. */
  function Stride(size: nat, digit: nat): nat
  {
    size * Ones(size, digit)
  }

  /** The slot of lane 0: the pieces 0, 1, ..., size - 1. */
  function Ramp(size: nat, digit: nat): nat
  {
    FromDigits(Span(0, size), digit)
  }

  // ---------------------------------------------------------------- lemmas

  /** Every entry of Indices(sel) is a lane index of sel. */
  lemma IndicesBound(sel: seq<bool>, j: nat)
    ensures forall k | 0 <= k < |sel| :: j <= IndicesFrom(j, sel)[k] < j + |sel| || IndicesFrom(j, sel)[k] == 0
  {
    var c := Compressed(Span(j, |sel|), sel);
    CompressedLength(Span(j, |sel|), sel);
    forall k | 0 <= k < |sel|
      ensures j <= IndicesFrom(j, sel)[k] < j + |sel| || IndicesFrom(j, sel)[k] == 0
    {
      if k < Count(sel) {
        var i := RankCovers(sel, k);
        CompressedAt(Span(j, |sel|), sel, i);
      }
    }
  }

  /** Compress places the selected lanes first, in order, then lane 0. */
  lemma GatherIndices(v: seq<nat>, sel: seq<bool>)
    requires |v| == |sel| > 0
    ensures forall k | 0 <= k < |sel| :: Indices(sel)[k] < |v|
    ensures Gather(v, Indices(sel)) == Compressed(v, sel) + Repeat(v[0], |sel| - Count(sel))
  {
    IndicesBound(sel, 0);
    var out := Gather(v, Indices(sel));
    CompressedLength(Span(0, |sel|), sel);
    forall j | 0 <= j < |sel| && sel[j]
      ensures out[Rank(sel, j)] == v[j]
    {
      CompressedAt(Span(0, |sel|), sel, j);
    }
    CompressedUnique(v, sel, out, v[0]);
  }

  lemma {:induction false} PackedStep(a: nat, c: nat, base: nat, j: nat, m: nat, n: nat)
    requires n > 0
    ensures IndicesFrom(j, BitsOf(m, n)) ==
      if m % 2 == 1 then [j] + IndicesFrom(j + 1, BitsOf(m / 2, n - 1))
      else IndicesFrom(j + 1, BitsOf(m / 2, n - 1)) + [0]
  {
    var sel := BitsOf(m, n);
    var sel' := BitsOf(m / 2, n - 1);
    var sp := Span(j, n);
    assert sel[0] == (m % 2 == 1) && sel[1..] == sel';
    assert sp[0] == j && sp[1..] == Span(j + 1, n - 1);
    CompressedLength(Span(j + 1, n - 1), sel');
    CompressedLength(sp, sel);
    var c' := Compressed(Span(j + 1, n - 1), sel');
    var pad := Repeat(0, n - 1 - Count(sel'));
    assert Compressed(sp, sel) == (if sel[0] then [j] else []) + c';
    assert Count(sel) == (if sel[0] then 1 else 0) + Count(sel');
    assert IndicesFrom(j + 1, sel') == c' + pad;
    if m % 2 == 1 {
      assert IndicesFrom(j, sel) == [j] + c' + pad;
      assert [j] + c' + pad == [j] + (c' + pad);
    } else {
      assert Repeat(0, n - Count(sel)) == pad + [0];
      assert IndicesFrom(j, sel) == c' + (pad + [0]);
      assert c' + (pad + [0]) == (c' + pad) + [0];
    }
  }

  /** The packed row is the number whose digits are the slots of Indices. */
  lemma {:induction false} PackedDigits(a: nat, c: nat, base: nat, j: nat, m: nat, n: nat)
    ensures Packed(a, c, base, j, m, n) == FromDigits(Slots(a, c, IndicesFrom(j, BitsOf(m, n))), base)
    decreases n
  {
    if n > 0 {
      PackedDigits(a, c, base, j + 1, m / 2, n - 1);
      if m % 2 == 1 {
        PackedSelected(a, c, base, j, m, n);
      } else {
        PackedPadded(a, c, base, j, m, n);
      }
    }
  }

  /** A selected lane j: its slot becomes the lowest digit. */
  lemma PackedSelected(a: nat, c: nat, base: nat, j: nat, m: nat, n: nat)
    requires n > 0 && m % 2 == 1
    requires Packed(a, c, base, j + 1, m / 2, n - 1) == FromDigits(Slots(a, c, IndicesFrom(j + 1, BitsOf(m / 2, n - 1))), base)
    ensures Packed(a, c, base, j, m, n) == FromDigits(Slots(a, c, IndicesFrom(j, BitsOf(m, n))), base)
  {
    PackedStep(a, c, base, j, m, n);
    var rest := IndicesFrom(j + 1, BitsOf(m / 2, n - 1));
    var tail := Packed(a, c, base, j + 1, m / 2, n - 1);
    var s := Slots(a, c, [j] + rest);
    assert s[0] == a * j + c && s[1..] == Slots(a, c, rest);
    assert FromDigits(s, base) == s[0] + base * FromDigits(s[1..], base);
    assert Packed(a, c, base, j, m, n) == (a * j + c) + base * tail;
  }

  /** An unselected lane: a padding slot becomes the highest digit. */
  lemma PackedPadded(a: nat, c: nat, base: nat, j: nat, m: nat, n: nat)
    requires n > 0 && m % 2 == 0
    requires Packed(a, c, base, j + 1, m / 2, n - 1) == FromDigits(Slots(a, c, IndicesFrom(j + 1, BitsOf(m / 2, n - 1))), base)
    ensures Packed(a, c, base, j, m, n) == FromDigits(Slots(a, c, IndicesFrom(j, BitsOf(m, n))), base)
  {
    PackedStep(a, c, base, j, m, n);
    var rest := IndicesFrom(j + 1, BitsOf(m / 2, n - 1));
    var ds := Slots(a, c, rest);
    assert Slots(a, c, rest + [0]) == ds + [c];
    FromDigitsPush(ds, c, base);
    assert |ds| == n - 1;
    assert Packed(a, c, base, j, m, n) == Packed(a, c, base, j + 1, m / 2, n - 1) + c * Power(base, n - 1);
  }

  /** Piece size * k + b of a flattened sequence of size-long pieces. */
  lemma {:induction false} FlattenAt(xss: seq<seq<nat>>, size: nat, k: nat, b: nat)
    requires forall i | 0 <= i < |xss| :: |xss[i]| == size
    requires k < |xss| && b < size
    ensures |Flatten(xss)| == |xss| * size
    ensures var i := size * k + b; i < |Flatten(xss)| && Flatten(xss)[i] == xss[k][b]
  {
    FlattenLength(xss, size);
    if k > 0 {
      var i := size * k + b;
      var i' := size * (k - 1) + b;
      assert i == size + i';
      FlattenAt(xss[1..], size, k - 1, b);
      assert Flatten(xss) == xss[0] + Flatten(xss[1..]);
      assert Flatten(xss)[i] == Flatten(xss[1..])[i'];
    }
  }

  lemma {:induction false} FlattenLength(xss: seq<seq<nat>>, size: nat)
    requires forall i | 0 <= i < |xss| :: |xss[i]| == size
    ensures |Flatten(xss)| == |xss| * size
  {
    if |xss| > 0 {
      FlattenLength(xss[1..], size);
    }
  }

  /** Flattening one more piece appends it. */
  lemma {:induction false} FlattenSnoc(xss: seq<seq<nat>>, x: seq<nat>)
    ensures Flatten(xss + [x]) == Flatten(xss) + x
  {
    if |xss| == 0 {
      assert xss + [x] == [x];
      assert Flatten([x]) == x + Flatten([]);
    } else {
      assert (xss + [x])[1..] == xss[1..] + [x];
      FlattenSnoc(xss[1..], x);
    }
  }

  /** The slot of lane index s, read as a number: s * Ones plus the slot of lane 0. */
  lemma {:induction false} SpanValue(s: nat, n: nat, digit: nat)
    ensures FromDigits(Span(s, n), digit) == s * Ones(n, digit) + Ramp(n, digit)
    decreases n
  {
    if n > 0 {
      SpanValue(s + 1, n - 1, digit);
      SpanValue(1, n - 1, digit);
      assert Span(s, n)[1..] == Span(s + 1, n - 1);
      assert Span(0, n)[1..] == Span(1, n - 1);
      assert Repeat(1, n)[1..] == Repeat(1, n - 1);
      SpanArith(s, digit, Ones(n - 1, digit), Ramp(n - 1, digit));
    }
  }

  lemma SpanArith(s: nat, d: nat, o: nat, z: nat)
    ensures s + d * ((s + 1) * o + z) == s * (1 + d * o) + (0 + d * (1 * o + z))
  {
  }

  lemma IndexPiecesCons(ps: seq<nat>, size: nat)
    requires |ps| > 0
    ensures IndexPieces(ps, size) == Span(size * ps[0], size) + IndexPieces(ps[1..], size)
  {
    var xss := seq(|ps|, k requires 0 <= k < |ps| => Span(size * ps[k], size));
    assert xss[1..] == seq(|ps[1..]|, k requires 0 <= k < |ps[1..]| => Span(size * ps[1..][k], size));
  }

  lemma PiecesCons(v: seq<nat>, size: nat, digit: nat)
    requires Base(digit) && |v| > 0
    ensures Pieces(v, size, digit) == ToDigits(v[0], digit, size) + Pieces(v[1..], size, digit)
  {
    var vss := seq(|v|, k requires 0 <= k < |v| => ToDigits(v[k], digit, size));
    assert vss[1..] == seq(|v[1..]|, k requires 0 <= k < |v[1..]| => ToDigits(v[1..][k], digit, size));
  }

  lemma PiecesLength(v: seq<nat>, size: nat, digit: nat)
    requires Base(digit)
    ensures |Pieces(v, size, digit)| == size * |v|
  {
    var vss := seq(|v|, k requires 0 <= k < |v| => ToDigits(v[k], digit, size));
    FlattenLength(vss, size);
    assert |v| * size == size * |v|;
  }

  /** The pieces of the lane indices ps, read as a number, are the number whose digits are their slots. */
  lemma {:induction false} IndexPiecesValue(ps: seq<nat>, size: nat, digit: nat)
    ensures FromDigits(IndexPieces(ps, size), digit)
         == FromDigits(Slots(Stride(size, digit), Ramp(size, digit), ps), Power(digit, size))
  {
    var a := Stride(size, digit);
    var c := Ramp(size, digit);
    var B := Power(digit, size);
    if |ps| > 0 {
      IndexPiecesValue(ps[1..], size, digit);
      IndexPiecesCons(ps, size);
      var A := FromDigits(Span(size * ps[0], size), digit);
      var R := FromDigits(IndexPieces(ps[1..], size), digit);
      FromDigitsAppend(Span(size * ps[0], size), IndexPieces(ps[1..], size), digit);
      assert FromDigits(IndexPieces(ps, size), digit) == A + B * R;
      SpanValue(size * ps[0], size, digit);
      SlotArith(size, ps[0], Ones(size, digit));
      assert A == a * ps[0] + c;
      var S := Slots(a, c, ps);
      assert S[1..] == Slots(a, c, ps[1..]);
      assert FromDigits(S, B) == S[0] + B * FromDigits(S[1..], B);
    } else {
      assert IndexPieces(ps, size) == [];
    }
  }

  lemma SlotArith(size: nat, p: nat, o: nat)
    ensures (size * p) * o == (size * o) * p
  {
  }

  /** Every piece of lane indices below n is below size * n. */
  lemma {:induction false} IndexPiecesBound(ps: seq<nat>, size: nat, n: nat)
    requires forall k | 0 <= k < |ps| :: ps[k] < n
    ensures |IndexPieces(ps, size)| == |ps| * size
    ensures forall i | 0 <= i < |IndexPieces(ps, size)| :: IndexPieces(ps, size)[i] < size * n
  {
    if |ps| > 0 {
      IndexPiecesCons(ps, size);
      IndexPiecesBound(ps[1..], size, n);
      MulBelow(size, ps[0], n);
      assert (|ps| - 1) * size + size == |ps| * size;
    } else {
      assert IndexPieces(ps, size) == [];
    }
  }

  lemma {:induction false} MulBelow(size: nat, p: nat, n: nat)
    requires p < n
    ensures size * p + size <= size * n
  {
    if p + 1 < n {
      MulBelow(size, p, n - 1);
      assert size * n == size * (n - 1) + size;
    } else {
      assert size * n == size * p + size;
    }
  }

  /** Looking up the pieces of lanes ps gathers those lanes. */
  lemma {:induction false} LookupPieces(v: seq<nat>, ps: seq<nat>, size: nat, digit: nat)
    requires Base(digit) && size > 0
    requires forall k | 0 <= k < |ps| :: ps[k] < |v|
    ensures forall i | 0 <= i < |IndexPieces(ps, size)| :: IndexPieces(ps, size)[i] < |Pieces(v, size, digit)|
    ensures Lookup(Pieces(v, size, digit), IndexPieces(ps, size)) == Pieces(Gather(v, ps), size, digit)
  {
    PiecesLength(v, size, digit);
    IndexPiecesBound(ps, size, |v|);
    var P := Pieces(v, size, digit);
    if |ps| > 0 {
      LookupPieces(v, ps[1..], size, digit);
      IndexPiecesCons(ps, size);
      var g := Gather(v, ps);
      assert g[1..] == Gather(v, ps[1..]);
      PiecesCons(g, size, digit);
      MulBelow(size, ps[0], |v|);
      var head := Lookup(P, Span(size * ps[0], size));
      var vss := seq(|v|, k requires 0 <= k < |v| => ToDigits(v[k], digit, size));
      forall b | 0 <= b < size
        ensures head[b] == ToDigits(v[ps[0]], digit, size)[b]
      {
        FlattenAt(vss, size, ps[0], b);
      }
      assert head == ToDigits(g[0], digit, size);
      assert Lookup(P, IndexPieces(ps, size)) == head + Lookup(P, IndexPieces(ps[1..], size));
    } else {
      assert IndexPieces(ps, size) == [];
      assert Pieces(Gather(v, ps), size, digit) == [];
    }
  }

  /** Reading the pieces of lanes back gives the lanes. */
  lemma {:induction false} FromPiecesPieces(v: seq<nat>, size: nat, digit: nat)
    requires Base(digit) && size > 0
    requires forall k | 0 <= k < |v| :: v[k] < Power(digit, size)
    ensures FromPieces(Pieces(v, size, digit), size, digit) == v
  {
    if |v| > 0 {
      PiecesCons(v, size, digit);
      var P := Pieces(v, size, digit);
      assert P[..size] == ToDigits(v[0], digit, size);
      assert P[size..] == Pieces(v[1..], size, digit);
      FromToDigits(v[0], digit, size);
      FromPiecesPieces(v[1..], size, digit);
    } else {
      assert Pieces(v, size, digit) == [];
    }
  }

  /**
   * A packed row whose slots are the pieces size * p .. size * p + size - 1 of
   * each lane index p, written as n * size digits, is IndexPieces of Indices.
   */
  lemma RowPieces(size: nat, digit: nat, m: nat, n: nat)
    requires Base(digit) && size > 0 && size * n <= digit
    ensures ToDigits(Packed(Stride(size, digit), Ramp(size, digit), Power(digit, size), 0, m, n), digit, n * size)
         == IndexPieces(Indices(BitsOf(m, n)), size)
  {
    var ps := Indices(BitsOf(m, n));
    PackedDigits(Stride(size, digit), Ramp(size, digit), Power(digit, size), 0, m, n);
    IndexPiecesValue(ps, size, digit);
    IndicesBound(BitsOf(m, n), 0);
    assert forall k | 0 <= k < |ps| :: ps[k] < n;
    IndexPiecesBound(ps, size, n);
    ToFromDigits(IndexPieces(ps, size), digit);
  }

  /** A packed row of single-digit slots a * p holds those slots as its digits. */
  lemma RowSlots(a: nat, base: nat, m: nat, n: nat)
    requires Base(base) && a * n <= base
    ensures ToDigits(Packed(a, 0, base, 0, m, n), base, n) == Slots(a, 0, Indices(BitsOf(m, n)))
  {
    var ps := Indices(BitsOf(m, n));
    PackedDigits(a, 0, base, 0, m, n);
    IndicesBound(BitsOf(m, n), 0);
    forall k | 0 <= k < n
      ensures Slots(a, 0, ps)[k] < base
    {
      MulBelow(a, ps[k], n);
    }
    ToFromDigits(Slots(a, 0, ps), base);
  }
}
