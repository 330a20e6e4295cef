# GoatBots / MKM_CT price tools: a verified Dafny model of their core

The repository holds two things.

The first is a set of Python scripts that watch card prices:
- `MKM_CT/mtg_buy_tracker.py` scrapes Cardmarket offers, asks CardTrader for its "Zero" hub price, raises alerts at a target price and keeps a history.
- `GoatBots/Scripts/grafica.py` and `GoatBots/Scripts/functionsVenta.py` log GoatBots prices read by OCR, plot them, and send e-mail and Telegram notices.

The second is the vendored native headers of libvips 8.11. From those, this model covers:
- Highway's SIMD op layer for SSSE3/SSE4 (`x86_128-inl.h`), AVX2/AVX3 (`x86_256-inl.h`) and ARM SVE (`arm_sve-inl.h`);
- Poppler's `POPPLER_CHECK_VERSION`.

## How each part is modelled

**Highway.** A vector is a sequence of lanes.
- Order and arithmetic ops have integer lanes: `u16`/`u32`/`u64` and an explicit signed view.
- Shifts and bit tricks have bit lanes: `bv8`/`bv16`, or `seq<bool>` of any width.
- A mask register is one boolean per lane.

Every intrinsic the composites use is a function with its architectural lane semantics. Examples are `_mm_cmpgt_epi32`, `_mm_shuffle_epi32`, `_mm_movemask_epi8`, `pshufb`, `permutevar8x32`, `svsel_b` and `svuzp1`.

The `#if HWY_TARGET` branches of an op are the cases of one parameter: a `Target` (SSSE3, SSE4, AVX2, AVX3) for the x86 ops, an `sve2` flag for the signed SVE DemoteTo. The SVE AverageRound, whose two branches compute different values, is two functions: the fallback and svrhadd. Each composite op is proved equal to its specification: unsigned min/max, 64-bit compare, arithmetic shift, compress, interleave and so on.

The Compress lookup tables are written out literally, row by row, as they appear in the headers. They are proved equal to a closed form that lists the selected lanes. The loops are methods with loop invariants:
- SetTableIndices;
- the portable ScatterIndex and GatherIndex;
- Iota;
- the SSSE3 MulEven;
- the memory-writing StoreMaskBits and CompressStore.

**Python scripts.**
- Prices are exact reals or integer cents. `float()` is a partial parse function.
- The regular expressions and `str` methods are written out as functions on `seq<char>`.
- The effectful outside world is a set of parameters: pandas' `read_csv`, `strptime`, the OCR text, the scraped offers and the CardTrader reply.
- The loops of `ascii_table`, `check_offers` and `plotear` are methods proved against specification functions.

**Poppler.** The macro is a function. It is proved to be the lexicographic order on version triples.

## Model

| member | source | states |
|---|---|---|
| X86Compare128.Ssse3Eq | GoatBots/Externals/vips-dev-8.11/include/hwy/ops/x86_128-inl.h:662-667 | the SSSE3 u64 `==` (32-bit cmpeq, shuffle 2301, and) sets a lane iff both 32-bit halves of the two lanes are equal |
| X86Compare128.EqU64Lanes | GoatBots/Externals/vips-dev-8.11/include/hwy/ops/x86_128-inl.h:660-671 | on every target, u64 `==` holds in a lane iff the two 64-bit lanes are equal |
| X86Compare128.Ssse3Gt | GoatBots/Externals/vips-dev-8.11/include/hwy/ops/x86_128-inl.h:774-785 | the SSSE3 i64 `>` as written decides by a signed compare of the upper halves, and when they are equal by a signed compare of the lower halves |
| X86Compare128.GtI64Ssse3Decides | GoatBots/Externals/vips-dev-8.11/include/hwy/ops/x86_128-inl.h:774-785 | each lane of the as-written SSSE3 i64 `>` is that upper-then-lower signed decision of the two lanes |
| X86Compare128.Ssse3GtLaneAgrees | GoatBots/Externals/vips-dev-8.11/include/hwy/ops/x86_128-inl.h:774-785 | the as-written decision equals true int64 `>` iff the upper halves differ or the lower halves have the same bit 31 |
| X86Compare128.GtI64AsWrittenOtherTargets | GoatBots/Externals/vips-dev-8.11/include/hwy/ops/x86_128-inl.h:786-787 | on SSE4 and later, `_mm_cmpgt_epi64` gives exactly int64 `>` per lane |
| X86Compare128.GtI64AsWrittenCounterexample | GoatBots/Externals/vips-dev-8.11/include/hwy/ops/x86_128-inl.h:774-785 | for a = 0x8000_0000, b = 0, int64 `>` holds but the as-written SSSE3 `>` is false |
| X86Compare128.GtI64Lanes | GoatBots/Externals/vips-dev-8.11/include/hwy/ops/x86_128-inl.h:771-789 | the corrected i64 `>` (lower halves compared unsigned) is int64 `>` in both lanes on every target |
| X86Compare128.LtI64 | GoatBots/Externals/vips-dev-8.11/include/hwy/ops/x86_128-inl.h:791-795 | i64 `<` (operands of `>` swapped) is int64 `<` in both lanes |
| X86Compare128.MinMax16Lanes | GoatBots/Externals/vips-dev-8.11/include/hwy/ops/x86_128-inl.h:1808-1815 | u16 Min/Max (SSSE3: MinU/MaxU with the MSB flipped; SSE4: minu/maxu) are the lane-wise unsigned minimum and maximum |
| X86Compare128.MinMax32Lanes | GoatBots/Externals/vips-dev-8.11/include/hwy/ops/x86_128-inl.h:1817-1823 | u32 Min/Max, both branches, are the lane-wise unsigned minimum and maximum |
| X86Compare128.MinMax64Lanes | GoatBots/Externals/vips-dev-8.11/include/hwy/ops/x86_128-inl.h:1826-1832 | u64 Min/Max through MinU/MaxU over the corrected i64 `>` are the lane-wise unsigned minimum and maximum |
| X86Compare128.MinU64AsWrittenCounterexample | GoatBots/Externals/vips-dev-8.11/include/hwy/ops/x86_128-inl.h:1789-1797 | on SSSE3, MinU over the as-written i64 `>` returns 0x8000_0000 as the minimum of 0x8000_0000 and 0 |
| X86Compare128.FirstNLanes | GoatBots/Externals/vips-dev-8.11/include/hwy/ops/x86_128-inl.h:823-827 | FirstN(num) sets lane i iff i < num when num fits the signed lane type |
| X86Compare128.FirstNWraps | GoatBots/Externals/vips-dev-8.11/include/hwy/ops/x86_128-inl.h:826 | the cast to the signed lane type makes FirstN(128) on 8-bit lanes set no lane |
| X86Bits128.ShiftLeftU8Lanes | GoatBots/Externals/vips-dev-8.11/include/hwy/ops/x86_128-inl.h:1371-1379 | 8-bit ShiftLeft&lt;k&gt; through a 16-bit shift and the mask `0xFF << k` (and x + x for k = 1) is the per-byte `x << k` mod 256 |
| X86Bits128.ShiftRightU8Lanes | GoatBots/Externals/vips-dev-8.11/include/hwy/ops/x86_128-inl.h:1396-1403 | u8 ShiftRight&lt;k&gt; through a 16-bit shift and the mask `0xFF >> k` is the per-byte `x >> k` |
| X86Bits128.ShiftRightI8Lanes | GoatBots/Externals/vips-dev-8.11/include/hwy/ops/x86_128-inl.h:1414-1421 | i8 ShiftRight&lt;k&gt; as `(s ^ m) - m` with `m = 0x80 >> k` is the per-byte arithmetic shift |
| X86Bits128.SignFix | GoatBots/Externals/vips-dev-8.11/include/hwy/ops/x86_128-inl.h:1418-1420 | for one byte, `((x >> k) ^ m) - m` with `m = 0x80 >> k` is the arithmetic shift of x by k |
| X86Bits128.BroadcastSignBitNegative | GoatBots/Externals/vips-dev-8.11/include/hwy/ops/x86_128-inl.h:1427-1440 | BroadcastSignBit on 8/16/32-bit lanes is all-ones iff the lane is negative, zero otherwise |
| X86Bits128.BroadcastSignBit64Negative | GoatBots/Externals/vips-dev-8.11/include/hwy/ops/x86_128-inl.h:1442-1456 | i64 BroadcastSignBit, both branches, is all-ones iff the lane is negative |
| X86Bits128.BroadcastSignBitSsse3 | GoatBots/Externals/vips-dev-8.11/include/hwy/ops/x86_128-inl.h:1448-1455 | the SSSE3 branch (32-bit arithmetic shift of the upper halves, shuffled 3311) copies bit 63 into every bit of the lane |
| X86Bits128.ShiftRightI64Lanes | GoatBots/Externals/vips-dev-8.11/include/hwy/ops/x86_128-inl.h:1468-1479 | i64 ShiftRight&lt;k&gt; (AVX3 srai, or `right | ShiftLeft<64-k>(sign)`) is the arithmetic shift for every k below 64 |
| X86Bits128.ShrOrSign | GoatBots/Externals/vips-dev-8.11/include/hwy/ops/x86_128-inl.h:1472-1477 | the logical shift OR the broadcast sign shifted left by w - k is the arithmetic shift by k |
| X86Bits128.SignedShrLane | GoatBots/Externals/vips-dev-8.11/include/hwy/ops/x86_128-inl.h:2904-2913 | detail::SignedShr, `((v ^ sign) >> c) ^ sign`, is the arithmetic shift by c |
| X86Bits128.ShrSignedLanes | GoatBots/Externals/vips-dev-8.11/include/hwy/ops/x86_128-inl.h:2918-2939 | i16/i32 `operator>>` by per-lane counts is the lane-wise arithmetic shift |
| X86Bits128.ShrSigned64Lanes | GoatBots/Externals/vips-dev-8.11/include/hwy/ops/x86_128-inl.h:2946-2953 | i64 `operator>>` (AVX3 srav, else SignedShr) is the lane-wise arithmetic shift |
| X86Bits128.TestBitMeans | GoatBots/Externals/vips-dev-8.11/include/hwy/ops/x86_128-inl.h:709-713 | x86 TestBit, `(v & bit) == bit`, holds iff every bit set in `bit` is set in v |
| X86Bits128.IfThenElseSelects | GoatBots/Externals/vips-dev-8.11/include/hwy/ops/x86_128-inl.h:476-494 | for a full mask lane, both the SSSE3 and/andnot/or form and blendv pick `yes` where set and `no` where clear |
| X86Mask128.RawBits | GoatBots/Externals/vips-dev-8.11/include/hwy/ops/x86_128-inl.h:3544-3575 | the per-lane-size movemask (with packs for 16-bit lanes) gives bit i = mask lane i |
| X86Mask128.OnlyActiveKeeps | GoatBots/Externals/vips-dev-8.11/include/hwy/ops/x86_128-inl.h:3578-3582 | OnlyActive keeps exactly the bits of the first N lanes |
| X86Mask128.BitsFromMaskActive | GoatBots/Externals/vips-dev-8.11/include/hwy/ops/x86_128-inl.h:3584-3587 | BitsFromMask is the number whose bit i is lane i, for the N active lanes only |
| X86Mask128.AllFalse | GoatBots/Externals/vips-dev-8.11/include/hwy/ops/x86_128-inl.h:3600-3604 | AllFalse holds iff none of the N active lanes is set |
| X86Mask128.AllTrue | GoatBots/Externals/vips-dev-8.11/include/hwy/ops/x86_128-inl.h:3606-3611 | AllTrue, comparing with OnlyActive of all ones, holds iff all N active lanes are set |
| X86Mask128.CountTrue | GoatBots/Externals/vips-dev-8.11/include/hwy/ops/x86_128-inl.h:3613-3616 | CountTrue, the popcount of BitsFromMask, is the number of set active lanes |
| X86Mask128.StoreMaskBits | GoatBots/Externals/vips-dev-8.11/include/hwy/ops/x86_128-inl.h:3591-3598 | StoreMaskBits writes the (N + 7) / 8 little-endian bytes of BitsFromMask, returns that count, and leaves the rest of p unchanged |
| X86Mask128.StoredMaskBits | GoatBots/Externals/vips-dev-8.11/include/hwy/ops/x86_128-inl.h:3594-3596 | the bytes stored encode the active lanes without loss: reading them back gives the mask bits |
| X86Mask128.BytesHold | GoatBots/Externals/vips-dev-8.11/include/hwy/ops/x86_128-inl.h:3595 | (N + 7) / 8 bytes hold N bits |
| X86Tables128.Idx16x8Bytes | GoatBots/Externals/vips-dev-8.11/include/hwy/ops/x86_128-inl.h:3622-3757 | for all 256 masks, row m of the 16-bit table holds the byte offsets 2j of the selected lanes j in ascending order, then zeros |
| X86Tables128.Idx16x8RowPacked | GoatBots/Externals/vips-dev-8.11/include/hwy/ops/x86_128-inl.h:3622-3757 | every literal row of the 16-bit table equals the closed form built from the mask's set bits |
| X86Tables128.Idx32x4Bytes | GoatBots/Externals/vips-dev-8.11/include/hwy/ops/x86_128-inl.h:3758-3784 | for all 16 masks, the row lists the bytes 4j..4j+3 of each selected 32-bit lane j in order, padded with lane 0's bytes |
| X86Tables128.Idx64x2Bytes | GoatBots/Externals/vips-dev-8.11/include/hwy/ops/x86_128-inl.h:3786-3800 | for all 4 masks, the row lists the bytes 8j..8j+7 of each selected 64-bit lane j in order, padded with lane 0's bytes |
| X86Compress128.Idx16x8Indices | GoatBots/Externals/vips-dev-8.11/include/hwy/ops/x86_128-inl.h:3805-3812 | Idx16x8FromBits (the table row zipped with itself plus 0x0100) is the byte pair 2j, 2j+1 of each selected lane in order |
| X86Compress128.CompressIndicesPieces | GoatBots/Externals/vips-dev-8.11/include/hwy/ops/x86_128-inl.h:3622-3800 | for every lane size, the shuffle control of a mask is the byte span of each selected lane in order |
| X86Compress128.TableCompress | GoatBots/Externals/vips-dev-8.11/include/hwy/ops/x86_128-inl.h:3805-3843 | pshufb with that control puts the selected lanes first in their original order, then copies of lane 0 |
| X86Compress128.DetailCompress | GoatBots/Externals/vips-dev-8.11/include/hwy/ops/x86_128-inl.h:3805-3843 | detail::Compress gives the lanes whose mask bit is set, in order, then lane 0 (table path) or zeros (AVX3 maskz_compress) |
| X86Compress128.MaskSelection | GoatBots/Externals/vips-dev-8.11/include/hwy/ops/x86_128-inl.h:3846-3850 | the lanes selected by BitsFromMask are the set lanes among the first N, and their number is CountTrue |
| X86Compress128.Compress | GoatBots/Externals/vips-dev-8.11/include/hwy/ops/x86_128-inl.h:3846-3850 | Compress(v, mask) places the selected lanes among the first N first, in their original order, followed by copies of lane 0 (table path) or zeros (AVX3) |
| X86Compress128.CompressStore | GoatBots/Externals/vips-dev-8.11/include/hwy/ops/x86_128-inl.h:3854-3861 | CompressStore returns the number of selected lanes, stores them first in order followed by the padding, and changes nothing past the N lanes |
| X86Compress128.StoredLanes | GoatBots/Externals/vips-dev-8.11/include/hwy/ops/x86_128-inl.h:3854-3861 | the first N lanes of the stored vector are the selected lanes, then padding |
| X86Memory128.SetTableIndices | GoatBots/Externals/vips-dev-8.11/include/hwy/ops/x86_128-inl.h:2419-2436 | the nested loops leave control equal to the bytes `idx[l] * sizeof(T) + b` of each lane l < N, then zeros |
| X86Memory128.ControlByte | GoatBots/Externals/vips-dev-8.11/include/hwy/ops/x86_128-inl.h:2430-2432 | control[l * sizeof(T) + b] is `(idx[l] * sizeof(T) + b) mod 256` |
| X86Memory128.ControlZero | GoatBots/Externals/vips-dev-8.11/include/hwy/ops/x86_128-inl.h:2427 | the control bytes past N * sizeof(T) stay 0 |
| X86Memory128.ControlPieces | GoatBots/Externals/vips-dev-8.11/include/hwy/ops/x86_128-inl.h:2419-2436 | for in-range indices over a full vector, control is the byte span of lane idx[l] for each l |
| X86Memory128.TableLookupLanesGathers | GoatBots/Externals/vips-dev-8.11/include/hwy/ops/x86_128-inl.h:2438-2446 | TableLookupLanes with those indices returns lane i = v[idx[i]] |
| X86Memory128.ScatterIndex | GoatBots/Externals/vips-dev-8.11/include/hwy/ops/x86_128-inl.h:2136-2150 | the loop leaves base equal to the stores `base[index[i]] := lane i` for i ascending; the AVX2 portable loop at x86_256-inl.h:1537-1552 is the same with 32 / sizeof(T) lanes |
| X86Memory128.ScatteredUntouched | GoatBots/Externals/vips-dev-8.11/include/hwy/ops/x86_128-inl.h:2147-2149 | an element of base that no index names is unchanged |
| X86Memory128.ScatteredLast | GoatBots/Externals/vips-dev-8.11/include/hwy/ops/x86_128-inl.h:2147-2149 | with duplicate indices, the last lane that names an element wins |
| X86Memory128.GatherIndex | GoatBots/Externals/vips-dev-8.11/include/hwy/ops/x86_128-inl.h:2175-2188 | GatherIndex returns lane i = base[index[i]] and does not change base |
| X86Memory128.GatherScattered | GoatBots/Externals/vips-dev-8.11/include/hwy/ops/x86_128-inl.h:2136-2188 | gathering at distinct indices after scattering to them gives back the scattered lanes |
| X86Memory128.Iota | GoatBots/Externals/vips-dev-8.11/include/hwy/ops/x86_128-inl.h:3527-3533 | the loop fills lane i with `static_cast<T>(first + i)`; the 256-bit loop at x86_256-inl.h:2628-2635 is the same with 32 / sizeof(T) lanes |
| X86Memory128.IotaStep | GoatBots/Externals/vips-dev-8.11/include/hwy/ops/x86_128-inl.h:3530-3532 | each Iota lane is the previous one plus 1, wrapping in the lane type |
| X86Memory128.IotaExact | GoatBots/Externals/vips-dev-8.11/include/hwy/ops/x86_128-inl.h:3530-3532 | when first + i fits the lane type, lane i is exactly first + i |
| X86Memory128.MulEvenSsse3 | GoatBots/Externals/vips-dev-8.11/include/hwy/ops/x86_128-inl.h:1286-1297 | the SSSE3 MulEven stores lanes 0 and 2 of both inputs and returns their exact signed 64-bit products |
| X86Memory128.MulEvenPartialLane | GoatBots/Externals/vips-dev-8.11/include/hwy/ops/x86_128-inl.h:1281-1285 | for one or two lanes, MulEven is the exact signed product of lane 0 |
| X86Arith256.MinMaxU64x4Lanes | GoatBots/Externals/vips-dev-8.11/include/hwy/ops/x86_256-inl.h:599-610 | AVX2 u64 Min/Max (MSB flipped, signed `>`, IfThenElse) and AVX3 min/max_epu64 are the lane-wise unsigned minimum and maximum |
| X86Arith256.GtI64x4 | GoatBots/Externals/vips-dev-8.11/include/hwy/ops/x86_256-inl.h:553-556 | `_mm256_cmpgt_epi64` is the lane-wise signed 64-bit `>` |
| X86Arith256.FirstN256Lanes | GoatBots/Externals/vips-dev-8.11/include/hwy/ops/x86_256-inl.h:693-697 | FirstN(d, n) sets lane i iff i < n when n fits the signed lane type |
| X86Arith256.Knuth | GoatBots/Externals/vips-dev-8.11/include/hwy/ops/x86_256-inl.h:2299-2310 | the Knuth steps on the 32-bit halves never overflow 64 bits, and mulL + 2^64 * mulH is the full product |
| X86Arith256.DoubleWordLane | GoatBots/Externals/vips-dev-8.11/include/hwy/ops/x86_256-inl.h:2287-2310 | the vector steps (MulEven of shuffled halves, masks, shifts, adds) compute in each lane the low and high words of that lane's product |
| X86Arith256.MulEven64 | GoatBots/Externals/vips-dev-8.11/include/hwy/ops/x86_256-inl.h:2285-2311 | each 128-bit block of MulEven is (low 64, high 64) of the product of the block's lower u64 lanes |
| X86Arith256.MulOdd64 | GoatBots/Externals/vips-dev-8.11/include/hwy/ops/x86_256-inl.h:2314-2339 | each 128-bit block of MulOdd is (low 64, high 64) of the product of the block's upper u64 lanes |
| X86Arith256.MulEven64Halves | GoatBots/Externals/vips-dev-8.11/include/hwy/ops/x86_256-inl.h:2285-2311 | lane 2k of MulEven is the product mod 2^64 and lane 2k + 1 the product div 2^64 |
| X86Arith256.MulOdd64Halves | GoatBots/Externals/vips-dev-8.11/include/hwy/ops/x86_256-inl.h:2314-2339 | the same split for MulOdd over the upper lanes |
| X86Mask256.BitsFromMask256 | GoatBots/Externals/vips-dev-8.11/include/hwy/ops/x86_256-inl.h:2641-2691 | BitsFromMask, for every lane size and both 16-bit paths (pext, packs and permute4x64), is the number whose bit i is lane i, below 2^32 |
| X86Mask256.UnsignedMoveMask | GoatBots/Externals/vips-dev-8.11/include/hwy/ops/x86_256-inl.h:2646-2648 | the cast to uint32_t undoes movemask's sign extension, so the 8-bit BitsFromMask is the mask number |
| X86Mask256.MoveMaskSignExtends | GoatBots/Externals/vips-dev-8.11/include/hwy/ops/x86_256-inl.h:2648 | without the cast, a set lane 31 would give a negative int |
| X86Mask256.PextPairs | GoatBots/Externals/vips-dev-8.11/include/hwy/ops/x86_256-inl.h:2654-2658 | `_pext_u64(bits, 0xAAAAAAAA)` keeps one bit per 16-bit lane |
| X86Mask256.PacksPermuted | GoatBots/Externals/vips-dev-8.11/include/hwy/ops/x86_256-inl.h:2659-2668 | packs with zero followed by permute4x64(3,1,2,0) gives the 16-bit lanes' mask bits |
| X86Mask256.StoreMaskBits256 | GoatBots/Externals/vips-dev-8.11/include/hwy/ops/x86_256-inl.h:2696-2703 | StoreMaskBits returns (4 + sizeof(T) - 1) / sizeof(T), which equals ceil(lanes / 8), writes those bytes of the mask bits, and changes nothing else in p |
| X86Mask256.StoredMaskBits256 | GoatBots/Externals/vips-dev-8.11/include/hwy/ops/x86_256-inl.h:2696-2703 | the stored bytes read back as the mask number |
| X86Mask256.AllFalse256 | GoatBots/Externals/vips-dev-8.11/include/hwy/ops/x86_256-inl.h:2705-2709 | AllFalse holds iff no lane is set |
| X86Mask256.AllTrue256 | GoatBots/Externals/vips-dev-8.11/include/hwy/ops/x86_256-inl.h:2711-2715 | AllTrue, comparing with `(1 << (32 / sizeof(T))) - 1`, holds iff every lane is set |
| X86Mask256.CountTrue256 | GoatBots/Externals/vips-dev-8.11/include/hwy/ops/x86_256-inl.h:2717-2720 | CountTrue is the number of set lanes |
| X86Tables256.Idx32x8Nibbles | GoatBots/Externals/vips-dev-8.11/include/hwy/ops/x86_256-inl.h:2726-2779 | for every m < 256, nibble k of packed_array[m] is the index of the k-th set bit of m for k < popcount(m), and 0 above |
| X86Tables256.Idx32x8WordPacked | GoatBots/Externals/vips-dev-8.11/include/hwy/ops/x86_256-inl.h:2726-2779 | every literal word of packed_array equals the closed form built from the mask's set bits |
| X86Tables256.Idx64x4Indices | GoatBots/Externals/vips-dev-8.11/include/hwy/ops/x86_256-inl.h:2789-2807 | row m of the 64-bit table holds the pair 2j, 2j + 1 of each selected lane j in order, padded with 0, 1 |
| X86Compress256.Idx32x8Lane | GoatBots/Externals/vips-dev-8.11/include/hwy/ops/x86_256-inl.h:2784-2786 | shifting the packed word by {0, 4, ..., 28} puts nibble k in lane k, modulo 8 as permutevar8x32 reads it |
| X86Compress256.PermuteCompress32 | GoatBots/Externals/vips-dev-8.11/include/hwy/ops/x86_256-inl.h:2812-2823 | permutevar8x32 with Idx32x8FromBits gives the selected 32-bit lanes in order, then lane 0 |
| X86Compress256.PermuteGather64 | GoatBots/Externals/vips-dev-8.11/include/hwy/ops/x86_256-inl.h:2826-2837 | permutevar8x32 with Idx64x4FromBits gathers the selected 64-bit lanes in order |
| X86Compress256.DetailCompress256 | GoatBots/Externals/vips-dev-8.11/include/hwy/ops/x86_256-inl.h:2812-2837 | detail::Compress for 32- and 64-bit lanes gives the selected lanes in order, then lane 0 (AVX2) or zeros (AVX3) |
| X86Compress256.Compress256 | GoatBots/Externals/vips-dev-8.11/include/hwy/ops/x86_256-inl.h:2900-2903 | Compress keeps the selected lanes first, in order |
| X86Compress256.CompressStore256 | GoatBots/Externals/vips-dev-8.11/include/hwy/ops/x86_256-inl.h:2908-2916 | CompressStore stores the compressed vector, returns popcount(mask), and changes nothing past the vector |
| X86Reduce256.SumOfLanes | GoatBots/Externals/vips-dev-8.11/include/hwy/ops/x86_256-inl.h:3060-3063 | every lane of SumOfLanes is the total of all lanes modulo 2^w |
| X86Reduce256.MinOfLanes | GoatBots/Externals/vips-dev-8.11/include/hwy/ops/x86_256-inl.h:3065-3068 | every lane of MinOfLanes is the same value, which is one of the lanes and at most every lane, as signed or unsigned |
| X86Reduce256.MaxOfLanes | GoatBots/Externals/vips-dev-8.11/include/hwy/ops/x86_256-inl.h:3070-3073 | every lane of MaxOfLanes is the same value, which is one of the lanes and at least every lane |
| X86Reduce256.ReducesAll | GoatBots/Externals/vips-dev-8.11/include/hwy/ops/x86_256-inl.h:3012-3073 | the swap-blocks stage and the in-block shuffle stages combine every lane with every other, so each result lane is the fold of all lanes |
| X86Reduce256.SwapStage | GoatBots/Externals/vips-dev-8.11/include/hwy/ops/x86_256-inl.h:3061-3062 | after combining with ConcatLowerUpper, lane i is the fold of the two lanes i and i ± |v| / 2 |
| X86Reduce256.Shuffle1032Stage | GoatBots/Externals/vips-dev-8.11/include/hwy/ops/x86_256-inl.h:3015-3016 | combining with Shuffle1032 halves the residue classes of 32-bit lanes |
| X86Reduce256.Shuffle0321Stage | GoatBots/Externals/vips-dev-8.11/include/hwy/ops/x86_256-inl.h:3017-3018 | combining with Shuffle0321 then covers all lanes of 32 bits |
| X86Reduce256.Shuffle01Stage | GoatBots/Externals/vips-dev-8.11/include/hwy/ops/x86_256-inl.h:3040-3041 | combining with Shuffle01 covers all lanes of 64 bits |
| X86Reduce256.CombineLaws | GoatBots/Externals/vips-dev-8.11/include/hwy/ops/x86_256-inl.h:3012-3056 | wrapping add, min and max on lane values are commutative and associative and stay in the lane type |
| ArmSve.Not | GoatBots/Externals/vips-dev-8.11/include/hwy/ops/arm_sve-inl.h:553-556 | Not(d, m), svnot_b_z under PTrue, negates every lane |
| ArmSve.And | GoatBots/Externals/vips-dev-8.11/include/hwy/ops/arm_sve-inl.h:557-559 | And, `svand_b_z(b, b, a)`, is the lane-wise a ∧ b |
| ArmSve.AndNot | GoatBots/Externals/vips-dev-8.11/include/hwy/ops/arm_sve-inl.h:560-562 | AndNot, `svbic_b_z(b, b, a)`, is the lane-wise ¬a ∧ b |
| ArmSve.Or | GoatBots/Externals/vips-dev-8.11/include/hwy/ops/arm_sve-inl.h:563-565 | Or, `svsel_b(a, a, b)`, is the lane-wise a ∨ b |
| ArmSve.Xor | GoatBots/Externals/vips-dev-8.11/include/hwy/ops/arm_sve-inl.h:566-568 | Xor, `svsel_b(a, svnand_b_z(a, a, b), b)`, is the lane-wise a ⊕ b |
| ArmSve.XorByAndNot | GoatBots/Externals/vips-dev-8.11/include/hwy/ops/arm_sve-inl.h:557-568 | Xor(a, b) equals Or(AndNot(b, a), AndNot(a, b)) |
| ArmSve.AllFalse | GoatBots/Externals/vips-dev-8.11/include/hwy/ops/arm_sve-inl.h:571 | AllFalse, `!svptest_any(m, m)`, holds iff no lane is set |
| ArmSve.AllTrue | GoatBots/Externals/vips-dev-8.11/include/hwy/ops/arm_sve-inl.h:574-577 | AllTrue(d, m) = AllFalse(Not(d, m)) holds iff every lane is set |
| ArmSve.CountTrue | GoatBots/Externals/vips-dev-8.11/include/hwy/ops/arm_sve-inl.h:581-588 | CountTrue, svcntp_b under PTrue, counts the set lanes |
| ArmSve.CountTrueDecides | GoatBots/Externals/vips-dev-8.11/include/hwy/ops/arm_sve-inl.h:570-588 | AllTrue holds iff CountTrue is the lane count, and AllFalse iff it is 0 |
| ArmSve.Gt | GoatBots/Externals/vips-dev-8.11/include/hwy/ops/arm_sve-inl.h:644-647 | Gt(a, b) = Lt(b, a) is the lane-wise a > b |
| ArmSve.TestBit | GoatBots/Externals/vips-dev-8.11/include/hwy/ops/arm_sve-inl.h:653-657 | SVE TestBit, `(a & bit) != 0`, holds iff some bit is set in both |
| ArmSve.TestBitSingleBit | GoatBots/Externals/vips-dev-8.11/include/hwy/ops/arm_sve-inl.h:653-657 | for a single-bit `bit`, SVE TestBit and x86 TestBit agree |
| ArmSve.TestBitTargetsDiffer | GoatBots/Externals/vips-dev-8.11/include/hwy/ops/arm_sve-inl.h:656 | for a multi-bit `bit` they differ: with lane bits 01 and `bit` 11, SVE says true and x86 says false |
| ArmSve.MaskFromVec | GoatBots/Externals/vips-dev-8.11/include/hwy/ops/arm_sve-inl.h:659-663 | MaskFromVec(v) sets a lane iff it is nonzero |
| ArmSve.VecFromMask | GoatBots/Externals/vips-dev-8.11/include/hwy/ops/arm_sve-inl.h:665-671 | VecFromMask (zeroing `0 - 1` of a signed zero, bit-cast) is all-ones where the mask is set and 0 elsewhere |
| ArmSve.MaskVecRoundTrip | GoatBots/Externals/vips-dev-8.11/include/hwy/ops/arm_sve-inl.h:659-671 | MaskFromVec(VecFromMask(m)) == m |
| ArmSve.VecMaskRoundTrip | GoatBots/Externals/vips-dev-8.11/include/hwy/ops/arm_sve-inl.h:659-671 | for a vector of all-ones and zero lanes, VecFromMask(MaskFromVec(v)) == v |
| ArmSve.SaturateU | GoatBots/Externals/vips-dev-8.11/include/hwy/ops/arm_sve-inl.h:886-889 | SaturateU, MinN with LimitsMax&lt;TN&gt;, clamps a non-negative lane to the narrow unsigned range |
| ArmSve.SaturateI | GoatBots/Externals/vips-dev-8.11/include/hwy/ops/arm_sve-inl.h:892-896 | SaturateI, MaxN with LimitsMin then MinN with LimitsMax, clamps to the narrow signed range |
| ArmSve.ClampedLanes | GoatBots/Externals/vips-dev-8.11/include/hwy/ops/arm_sve-inl.h:906 | `BitCast(du, Max(Zero(di), v))` is v clamped below at 0 |
| ArmSve.NarrowKeeps | GoatBots/Externals/vips-dev-8.11/include/hwy/ops/arm_sve-inl.h:908-909 | BitCast to the half width followed by svuzp1 keeps every lane whose value fits the narrow type |
| ArmSve.DemoteToUnsignedHalf | GoatBots/Externals/vips-dev-8.11/include/hwy/ops/arm_sve-inl.h:900-922 | DemoteTo i16→u8 and i32→u16 give `clamp(v, 0, LimitsMax<TN>)` in lane i (and again in the upper half) |
| ArmSve.DemoteToU8FromI32 | GoatBots/Externals/vips-dev-8.11/include/hwy/ops/arm_sve-inl.h:924-936 | DemoteTo i32→u8 gives `clamp(v, 0, 255)` |
| ArmSve.U8FromU32 | GoatBots/Externals/vips-dev-8.11/include/hwy/ops/arm_sve-inl.h:938-947 | U8FromU32 (two svuzp1 steps) keeps the low byte of each lane |
| ArmSve.NarrowSigned | GoatBots/Externals/vips-dev-8.11/include/hwy/ops/arm_sve-inl.h:955-959 | on SVE2 (svqxtnb) and on the other targets (SaturateI, then BitCast), the even narrow lanes of vn hold `clamp(v, LimitsMin<TN>, LimitsMax<TN>)` |
| ArmSve.DemoteToSignedHalf | GoatBots/Externals/vips-dev-8.11/include/hwy/ops/arm_sve-inl.h:951-973 | on either target, DemoteTo i16→i8 and i32→i16 give the saturated vector `clamp(v, LimitsMin<TN>, LimitsMax<TN>)` in the lower half and again in the upper half |
| ArmSve.Cast16 | GoatBots/Externals/vips-dev-8.11/include/hwy/ops/arm_sve-inl.h:980-984 | on SVE2 (svqxtnb twice) and on the other targets (SaturateI), the low byte of each even 16-bit lane of cast16 is the int8 clamp of the lane |
| ArmSve.NarrowBytes | GoatBots/Externals/vips-dev-8.11/include/hwy/ops/arm_sve-inl.h:984-985 | svuzp1_s16, a cast to bytes and svuzp1_s8 leave those low bytes, four times over |
| ArmSve.DemoteToI8FromI32 | GoatBots/Externals/vips-dev-8.11/include/hwy/ops/arm_sve-inl.h:975-987 | on either target, DemoteTo i32→i8 gives `clamp(v, -128, 127)` in each of the four quarters of the result |
| ArmSve.DemoteTargetsAgree | GoatBots/Externals/vips-dev-8.11/include/hwy/ops/arm_sve-inl.h:951-987 | the SVE2 branches of the signed DemoteTo give the same vector as the SaturateI branches |
| ArmSve.OffsetsOf128BitBlocks | GoatBots/Externals/vips-dev-8.11/include/hwy/ops/arm_sve-inl.h:1260-1264 | AndNotN(LanesPerBlock - 1, i) is i with its position inside the block cleared |
| ArmSve.BlockPositions | GoatBots/Externals/vips-dev-8.11/include/hwy/ops/arm_sve-inl.h:1270 | AndN(Iota, LanesPerBlock - 1) is i mod LanesPerBlock, and every block lies inside the register |
| ArmSve.FirstNPerBlock | GoatBots/Externals/vips-dev-8.11/include/hwy/ops/arm_sve-inl.h:1266-1272 | FirstNPerBlock&lt;k&gt; sets lane i iff i mod LanesPerBlock < k (k read as the signed lane type) |
| ArmSve.InterleaveIndices | GoatBots/Externals/vips-dev-8.11/include/hwy/ops/arm_sve-inl.h:1440-1442 | the interleave index of lane i is blockStart(i) + (i mod L) / 2 (+ L / 2 for Upper), inside the register |
| ArmSve.SelectLookups | GoatBots/Externals/vips-dev-8.11/include/hwy/ops/arm_sve-inl.h:1444-1445 | IfThenElse of two TableLookupLanes with the same indices looks up the selected vector |
| ArmSve.InterleaveLower | GoatBots/Externals/vips-dev-8.11/include/hwy/ops/arm_sve-inl.h:1435-1446 | lane i of InterleaveLower is a (i even) or b (i odd) at blockStart(i) + (i mod L) / 2 |
| ArmSve.InterleaveUpper | GoatBots/Externals/vips-dev-8.11/include/hwy/ops/arm_sve-inl.h:1450-1462 | lane i of InterleaveUpper is a or b at blockStart(i) + L / 2 + (i mod L) / 2 |
| ArmSve.InterleaveLowerMatchesAvx2 | GoatBots/Externals/vips-dev-8.11/include/hwy/ops/arm_sve-inl.h:1435-1446 | on four u64 lanes it equals the x86 unpacklo_epi64 InterleaveLower used by MulEven |
| ArmSve.InterleaveUpperMatchesAvx2 | GoatBots/Externals/vips-dev-8.11/include/hwy/ops/arm_sve-inl.h:1450-1462 | on four u64 lanes it equals the x86 unpackhi_epi64 InterleaveUpper |
| ArmSve.Shuffle0123 | GoatBots/Externals/vips-dev-8.11/include/hwy/ops/arm_sve-inl.h:1346-1353 | the lookup at `i xor 3` reverses each group of four 32-bit lanes |
| ArmSve.Shuffle0123Involution | GoatBots/Externals/vips-dev-8.11/include/hwy/ops/arm_sve-inl.h:1346-1353 | Shuffle0123 applied twice is the identity |
| ArmSve.FirstN | GoatBots/Externals/vips-dev-8.11/include/hwy/ops/arm_sve-inl.h:182-189 | FirstN(d, N), svwhilelt from 0, sets lane i iff i < N |
| ArmSve.Compress | GoatBots/Externals/vips-dev-8.11/include/hwy/ops/arm_sve-inl.h:1204-1209 | svcompact puts the selected lanes first, in order, and zeros the rest |
| ArmSve.Compress16 | GoatBots/Externals/vips-dev-8.11/include/hwy/ops/arm_sve-inl.h:1212-1236 | the 16-bit overload (both halves promoted and compacted, each narrowed by svuzp1, spliced after CountTrue of the lower half of the mask) puts the selected lanes first, in order |
| ArmSve.Compress16AsWrittenDoubles | GoatBots/Externals/vips-dev-8.11/include/hwy/ops/arm_sve-inl.h:1227-1235 | as written, with InterleaveEven (svtrn1), lane i below the lower half's count is compacted lane i / 2, so every selected lane of the lower half appears twice |
| ArmSve.Compress16AsWrittenCounterexample | GoatBots/Externals/vips-dev-8.11/include/hwy/ops/arm_sve-inl.h:1212-1236 | u16 lanes [10, 20, 0, ...] with lanes 0 and 1 selected: as written the result starts 10, 10, but the selected lanes are 10, 20 |
| ArmSve.CompressLanes | GoatBots/Externals/vips-dev-8.11/include/hwy/ops/arm_sve-inl.h:1204-1236 | Compress on 16-, 32- and 64-bit lanes puts the selected lanes first, in order |
| ArmSve.CompressStore | GoatBots/Externals/vips-dev-8.11/include/hwy/ops/arm_sve-inl.h:1240-1245 | CompressStore, for 16-, 32- and 64-bit lanes, writes the first Lanes(d) lanes of Compress(v, mask), whose first CountTrue(d, mask) lanes are the selected ones in order; it leaves the rest of aligned unchanged and returns CountTrue(d, mask) |
| ArmSve.StoreMaskBits | GoatBots/Externals/vips-dev-8.11/include/hwy/ops/arm_sve-inl.h:1527-1540 | the stub returns ceil(Lanes(d8) / 8) bytes and writes nothing through p |
| ArmSve.AverageRoundAsWritten | GoatBots/Externals/vips-dev-8.11/include/hwy/ops/arm_sve-inl.h:1520-1523 | without SVE2, AverageRound is `((a + b + 1) mod 2^w) >> 1` lane-wise, so it wraps when a + b + 1 reaches 2^w |
| ArmSve.AverageRoundWraps | GoatBots/Externals/vips-dev-8.11/include/hwy/ops/arm_sve-inl.h:1520-1523 | AverageRound(0xFF, 0xFF) on u8 lanes gives 0x7F, not 0xFF |
| ArmSve.AverageRound | GoatBots/Externals/vips-dev-8.11/include/hwy/ops/arm_sve-inl.h:1516-1518 | the rounding average, as svrhadd computes it, is `(a + b + 1) / 2` and stays in the lane type |
| MtgBuyTracker.Flag | MKM_CT/mtg_buy_tracker.py:71-106 | a flag emoji is the two regional-indicator symbols of the country code |
| MtgBuyTracker.FlagIn | MKM_CT/mtg_buy_tracker.py:203 | `COUNTRY_FLAGS.get(country, "")` is the flag of the first entry with that name, or "" when there is none |
| MtgBuyTracker.CountryCell | MKM_CT/mtg_buy_tracker.py:203-204 | the country cell is `flag + " " + country`: the flag, a space, then the country |
| MtgBuyTracker.Cells | MKM_CT/mtg_buy_tracker.py:205 | a row is seller, quantity, price text, country cell and sales |
| MtgBuyTracker.ColumnWidth | MKM_CT/mtg_buy_tracker.py:206-209 | widths[i] is at least the header and every cell of column i, and equals one of them |
| MtgBuyTracker.MeasureColumns | MKM_CT/mtg_buy_tracker.py:206-209 | the nested width loops compute exactly those widths |
| MtgBuyTracker.RenderLines | MKM_CT/mtg_buy_tracker.py:210-216 | the rendering loop builds sep, header, sep, one line per row, sep |
| MtgBuyTracker.AsciiTable | MKM_CT/mtg_buy_tracker.py:199-217 | ascii_table is the newline join of sep, header, sep, the offer lines in input order, and sep |
| MtgBuyTracker.TableLines | MKM_CT/mtg_buy_tracker.py:210-217 | the table has len(offers) + 4 lines |
| MtgBuyTracker.LineLength | MKM_CT/mtg_buy_tracker.py:210-214 | a separator and every padded line are `sum(widths) + 3 * 5 + 1` long |
| MtgBuyTracker.TableLinesShape | MKM_CT/mtg_buy_tracker.py:210-216 | every line of the table has that same length |
| MtgBuyTracker.TableSplits | MKM_CT/mtg_buy_tracker.py:217 | when no cell holds a newline, splitting the table at newlines gives back its lines |
| MtgBuyTracker.Sanitise | MKM_CT/mtg_buy_tracker.py:110 | the regex deletion and `replace(",", ".")` leave only digits and dots |
| MtgBuyTracker.SanitiseAround | MKM_CT/mtg_buy_tracker.py:110 | a run of digits, commas and dots between non-price text comes out alone, each comma turned into a dot |
| MtgBuyTracker.ParsePrice | MKM_CT/mtg_buy_tracker.py:109-112 | parse_price is a non-negative number iff the sanitised text is a numeral (at least one digit, at most one dot), and None otherwise |
| MtgBuyTracker.ParsePriceOfCents | MKM_CT/mtg_buy_tracker.py:109-112 | a price printed as "<euros>,<cc>" among non-price characters parses back to cents / 100 |
| MtgBuyTracker.ParsePriceThousands | MKM_CT/mtg_buy_tracker.py:110-112 | "1.234,56 €" sanitises to "1.234.56" and gives None |
| MtgBuyTracker.ParsePriceDash | MKM_CT/mtg_buy_tracker.py:110-112 | a dash with no digits gives None |
| MtgBuyTracker.HubProducts | MKM_CT/mtg_buy_tracker.py:173 | the Zero filter keeps exactly the products whose seller can sell via the hub |
| MtgBuyTracker.ZeroLowestPrice | MKM_CT/mtg_buy_tracker.py:172-179 | the Zero price is None iff no product of the blueprint sells via the hub, otherwise the least cents among them divided by 100 |
| MtgBuyTracker.CheapestPrice | MKM_CT/mtg_buy_tracker.py:357-358 | cm_min is None iff no offer has a price, otherwise the least of the offer prices |
| MtgBuyTracker.CheckJob | MKM_CT/mtg_buy_tracker.py:342-371 | a scraped job sends an alert iff notify holds, cm_min is not None and cm_min ≤ target, and adds a history row and a summary entry iff alert_only is false |
| MtgBuyTracker.CheckOffers | MKM_CT/mtg_buy_tracker.py:339-371 | the job loop sends the alerts of the alerting jobs in order, writes the rows of the recorded jobs in order, and builds the summary dict |
| MtgBuyTracker.SummaryDistinct | MKM_CT/mtg_buy_tracker.py:371 | the summary holds each name at most once |
| MtgBuyTracker.SummaryLookup | MKM_CT/mtg_buy_tracker.py:371-375 | the summary entry of a name is the last recorded job of that name |
| MtgBuyTracker.AlertsMeetTarget | MKM_CT/mtg_buy_tracker.py:365-367 | every alert sent has a Cardmarket minimum at or below its target |
| LogPlot.OddIndexed | GoatBots/Scripts/grafica.py:16-19 | the written lines are the input lines at odd indices, in order, floor(n / 2) of them |
| LogPlot.OddLines | GoatBots/Scripts/grafica.py:16-19 | the write loop writes exactly the odd-indexed lines |
| LogPlot.NullMask | GoatBots/Scripts/grafica.py:41 | a row is an error row iff its cell is " null" |
| LogPlot.CollectNulls | GoatBots/Scripts/grafica.py:32-56 | ErrorNormalx1/ErrorNormalx (and the Promo lists) are the timestamps of the null rows in row order, the aux counters track their lengths |
| LogPlot.FFillNearest | GoatBots/Scripts/grafica.py:58-59 | after replace and ffill, each cell holds the nearest earlier non-null value of its column |
| LogPlot.FFillCells | GoatBots/Scripts/grafica.py:58-59 | a non-null cell is kept, a null cell copies the filled cell above, and a cell stays missing iff every cell up to it is null |
| LogPlot.FFillIdempotent | GoatBots/Scripts/grafica.py:59 | forward filling twice is forward filling once |
| LogPlot.FillRows | GoatBots/Scripts/grafica.py:58-59 | the filled table keeps Fecha and Hora and forward-fills Normal and Promo |
| LogPlot.Axes | GoatBots/Scripts/grafica.py:64-72 | horita, ejex, ejeynormal and ejeypromo have one entry per row, in row order |
| LogPlot.MatchErrors | GoatBots/Scripts/grafica.py:79-86 | the nested loops append ejeypromo[j] once for each error timestamp equal to ejex[j], rows in order |
| LogPlot.OccurrencesCompressed | GoatBots/Scripts/grafica.py:79-86 | with distinct timestamps, a row's timestamp occurs in the error list once if the row is null and never otherwise |
| LogPlot.MatchedSelects | GoatBots/Scripts/grafica.py:79-86 | matching then selects exactly the values of the error rows |
| LogPlot.MarkersAtNullRows | GoatBots/Scripts/grafica.py:79-86 | for distinct timestamps, ErrorPromoy and ErrorNormaly hold ejeypromo at the null rows of their column, in order (both read ejeypromo) |
| LogPlot.Plotear | GoatBots/Scripts/functionsVenta.py:121-197 | plotear of functionsVenta.py writes the odd-indexed lines of registroFON.txt and builds the same axes and error markers as grafica.py |
| Text.Strip | GoatBots/Scripts/functionsVenta.py:60-61 | `strip(c)` removes every leading and trailing c and nothing else |
| Text.StripIdempotent | GoatBots/Scripts/functionsVenta.py:60-61 | stripping twice is stripping once |
| Text.ReplaceConcat | GoatBots/Scripts/functionsVenta.py:62 | `str.replace` distributes over a concatenation where no occurrence straddles the join |
| Text.ReplaceAbsent | GoatBots/Scripts/functionsVenta.py:62 | replacing a pattern that does not occur changes nothing |
| Text.SplitJoin | MKM_CT/mtg_buy_tracker.py:217 | splitting a newline join at newlines gives the parts back, when no part holds a newline |
| Text.JoinLength | MKM_CT/mtg_buy_tracker.py:210-211 | a join is as long as its parts plus one separator between each two |
| Text.LJust | MKM_CT/mtg_buy_tracker.py:211 | `ljust(w)` keeps the string and pads it with spaces to length w |
| FunctionsVenta.Cleaned | GoatBots/Scripts/functionsVenta.py:60-62 | the stripped and replaced SVG text S contains no "symbol" |
| FunctionsVenta.NoSymbolLeft | GoatBots/Scripts/functionsVenta.py:62 | `replace("symbol", "svg")` leaves no occurrence of "symbol" in any text |
| FunctionsVenta.GuardarImg | GoatBots/Scripts/functionsVenta.py:58-69 | the text written to image_N.svg is S, len(S) + 27 long, with the attribute at min(41, len(S)); taking the attribute out gives S back |
| FunctionsVenta.Insert | GoatBots/Scripts/functionsVenta.py:64 | `S[:41] + attr + S[41:]` is len(S) + 27 long, keeps S before and after, and has the attribute at min(41, len(S)) |
| FunctionsVenta.InsertInverse | GoatBots/Scripts/functionsVenta.py:64 | removing the attribute from the written text gives S back |
| FunctionsVenta.FirstNumber | GoatBots/Scripts/functionsVenta.py:103 | the leftmost position where `-?\d+\.?\d*` matches, or None when it matches nowhere |
| FunctionsVenta.Lexeme | GoatBots/Scripts/functionsVenta.py:103 | every match of `-?\d+\.?\d*` is a non-empty text that float() accepts |
| FunctionsVenta.TextitoBonito | GoatBots/Scripts/functionsVenta.py:103-108 | textitobonito is "null" iff the OCR text has no match, otherwise float() of the leftmost match |
| FunctionsVenta.ReadsCents | GoatBots/Scripts/functionsVenta.py:103-106 | a price "<euros>.<cc>" in non-digit text is read back as cents / 100 |
| FunctionsVenta.NoDigitsNull | GoatBots/Scripts/functionsVenta.py:105-108 | a text without digits gives "null" |
| FunctionsVenta.FillPlaceholders | GoatBots/Scripts/functionsVenta.py:264-265 | replacing "dinero1" then "dinero2" in a template `head dinero1 middle dinero2 tail` whose pieces hold neither gives `head p1 middle p2 tail` when p1 holds no "dinero2" |
| FunctionsVenta.NotifyBody | GoatBots/Scripts/functionsVenta.py:247-265 | when precio1 holds no "dinero2", the notify_user HTML body has precio1 and precio2 in place of the two placeholders and is otherwise the template |
| FunctionsVenta.TelegramMessage | GoatBots/Scripts/functionsVenta.py:280-282 | the telegram message is `"FON Normal a " + p1 + " TIX\nFON Promo a " + p2 + " TIX"` when p1 holds no "dinero2" |
| Numerals.ParseFloat | MKM_CT/mtg_buy_tracker.py:111 | float() of digits and dots is a number iff the text is a numeral, a leading '-' negating it |
| Numerals.CentsRoundTrip | MKM_CT/mtg_buy_tracker.py:177 | float() of the two-decimal text of c cents is c / 100 |
| Numerals.NatToStringOfDigits | MKM_CT/mtg_buy_tracker.py:172 | str() of the number a digit string without a superfluous leading zero denotes is that string, so `str(blueprint_id)` keys are canonical |
| PopplerFeatures.CheckVersion | GoatBots/Externals/vips-dev-8.11/include/poppler/glib/poppler-features.h:83-86 | POPPLER_CHECK_VERSION(M, m, µ) holds iff (M, m, µ) ≤ (21, 7, 0) lexicographically |
| PopplerFeatures.CheckVersionBoundary | GoatBots/Externals/vips-dev-8.11/include/poppler/glib/poppler-features.h:48-86 | (21, 7, 0) passes; (21, 7, 1), (21, 8, 0) and (22, 0, 0) fail |
| PopplerFeatures.CheckVersionByMajor | GoatBots/Externals/vips-dev-8.11/include/poppler/glib/poppler-features.h:84 | any major below 21 passes and any above fails, whatever minor and micro are |
| PopplerFeatures.CheckVersionDownward | GoatBots/Externals/vips-dev-8.11/include/poppler/glib/poppler-features.h:83-86 | a triple below one that passes passes too |
| PopplerFeatures.AtMostTransitive | GoatBots/Externals/vips-dev-8.11/include/poppler/glib/poppler-features.h:83-86 | the lexicographic order the macro computes is transitive |

## Left out

- Floating-point lanes in all three Highway headers are not modelled: float/double arithmetic, Sqrt, the approximate reciprocals, rounding, f16 conversions, ConvertTo, NearestInt and the float-exponent trick behind variable shifts. Exact real arithmetic would not describe their rounding.
- AESRound and CLMulLower/Upper are crypto instructions and are not modelled.
- Raw Load/Store/Stream, the intrinsic-backed gather/scatter and StoreInterleaved3/4 are plain memory plumbing. Stores are modelled only where an op returns a count: StoreMaskBits and CompressStore.
- GatherOffset/ScatterOffset move raw bytes by byte offsets; only the index forms are modelled.
- X86Memory128.Iota: the source adds `first + static_cast<T2>(i)` in T2 before the cast to the lane type T. The model takes T2 to be an integer type in which that sum does not wrap, and adds exactly. A T2 whose sum wraps, and a floating-point T2, are not covered.
- The AVX2 16-bit Compress (promote, two 32-bit compresses, demote and splice, x86_256-inl.h:2842-2894) is not modelled; the 32- and 64-bit paths are.
- The wrappers that are a single intrinsic with no composition (Add, Sub, shifts by a constant, Set, Zero, BitCast) appear only as the lane functions the composites use.
- ArmSve.Compress16: only the first CountTrue(mask) lanes are stated, which is all Compress promises; the lanes after them are given by the definition alone. The model narrows with svuzp1, the corrected form of the svtrn1 in the source (see Findings); Compress16AsWritten is the code as written.
- ArmSve.CompressStore: its 16-bit lanes are stored from the corrected Compress16, not from the as-written svtrn1 result.
- ArmSve.StoreMaskBits: the source computes `bits` and discards it; the model returns the count and does not write p, as the source does.
- X86Compare128.GtI64: the corrected member compares the lower halves unsigned, which is what the SSE4.2 instruction does; the as-written SSSE3 code is GtI64AsWritten.
- MtgBuyTracker.Sanitise: `\d` in the pattern `[^\d,\.]` is read as the ASCII digits 0-9 only. Python's `\d` also keeps the other Unicode decimal digits (Arabic-Indic, Devanagari, fullwidth and so on), which the model deletes.
- MtgBuyTracker.SanitiseAround: the text around the price must hold no character the model keeps; a non-ASCII decimal digit there counts as non-price text in the model but would be kept by Python's `\d`.
- MtgBuyTracker.ParsePrice: `\d` and `float()` are read as ASCII digits only. Python's float() also accepts the other Unicode decimal digits, so for instance "١٢,٥٠ €" is 12.5 in the source and None in the model.
- MtgBuyTracker.ParsePriceOfCents: a non-ASCII decimal digit in the text before or after the price is deleted by the model but kept by the source, so for such text the lemma's conclusion holds of the model only, not of the source.
- MtgBuyTracker.CheckOffers: requires that a job whose offers were scraped has an alias or at least one offer; otherwise `offers[0]` raises IndexError and ends check_offers, which the model does not follow.
- MtgBuyTracker.CheckOffers: every CardTrader request and every Telegram send is taken to succeed. In the source, an HTTP error status or a time-out raises in get_cardtrader_zero_lowest_price (mtg_buy_tracker.py:168-171), and a failed send raises in send_offers_table. Both calls sit outside any try in check_offers (361-367), so one failure ends the whole run. The model's reply is a map that always answers (JobRun.zeroResponse, read by CtMin), and the loop always reaches the last job.
- The jobs.json load failure, the TOP_N offer limit and the `time.sleep` rate limit of check_offers are not modelled; the job list and the scraped offers are parameters.
- Selenium scraping, the CardTrader HTTP request, the Telegram and SMTP sending, `plot_history` and the history CSV file are I/O; the model returns the alerts, rows and summary instead of sending or writing them.
- `record_history`'s and `send_offers_table`'s float formatting of prices is not modelled.
- In grafica.py and plotear, reading the files, pandas' `read_csv`, `strptime` and matplotlib drawing are I/O: `read_csv` and `strptime` are function parameters, and the model returns the written lines and the plotted series.
- LogPlot.CollectNulls: Fecha and Hora are taken never to be " null", so the ffill does not touch them.
- LogPlot.FillRows: `X["Promo"].apply(float)` is not modelled (floating point); Promo stays text.
- FunctionsVenta.GuardarImg: the write of the text to image_N.svg is left out; GuardarImg returns the text.
- FunctionsVenta.TextitoBonito: the OCR call (pyvips rendering and pytesseract) is a parameter, the OCR text; writing `str(gotdata)` to texto2/3.txt is left out; `\d` is read as ASCII digits only, while Python's `\d` also matches other Unicode decimal digits.
- FunctionsVenta.NotifyBody: the e-mail subject and headers, the SMTP login and sending are left out; only the HTML body is modelled. Its contract covers only a precio1 that holds no "dinero2": otherwise the second replace also rewrites inside precio1, which the model function Fill computes but no contract describes.
- FunctionsVenta.TelegramMessage: its contract covers only a precio1 that holds no "dinero2": otherwise the second replace also rewrites inside precio1, which the model function Fill computes but no contract describes. The `telegram_send` call is left out.
- Numerals.ParseFloat: float() also accepts exponents, underscores, "inf"/"nan" and surrounding whitespace; the model's inputs contain only digits, dots and a leading minus, so those forms never reach it.
- PopplerFeatures.CheckVersion: the macro's arguments are preprocessor integers (intmax_t); the model takes unbounded `int`, so no argument near the intmax_t limits is considered (the macro only compares, so none would behave differently).

## Findings

| source | as written | input that shows it | evidently intended | confidence | as-written member | corrected member |
|---|---|---|---|---|---|---|
| GoatBots/Externals/vips-dev-8.11/include/hwy/ops/x86_128-inl.h:774-785 | the SSSE3 int64 `>` decides equal upper halves by a signed 32-bit compare of the lower halves | a = 0x0000_0000_8000_0000, b = 0: a > b, but the lower halves compare 0x8000_0000 (negative) > 0 as false | compare the lower halves unsigned (flip their bit 31 first) | not executed | X86Compare128.GtI64AsWrittenCounterexample | X86Compare128.GtI64Lanes |
| GoatBots/Externals/vips-dev-8.11/include/hwy/ops/x86_128-inl.h:1826-1832 | SSSE3 u64 Min through detail::MinU uses that int64 `>` | Min(0x8000_0000, 0) returns 0x8000_0000 | the unsigned minimum 0 | not executed | X86Compare128.MinU64AsWrittenCounterexample | X86Compare128.MinMax64Lanes |
| GoatBots/Externals/vips-dev-8.11/include/hwy/ops/arm_sve-inl.h:1520-1523 | without SVE2, AverageRound adds a + b + 1 in the lane type, which wraps | u8 lanes a = b = 0xFF give 0x7F | `(a + b + 1) / 2` = 0xFF, as svrhadd on SVE2 and the x86 avg instructions give | not executed | ArmSve.AverageRoundWraps | ArmSve.AverageRound |
| GoatBots/Externals/vips-dev-8.11/include/hwy/ops/arm_sve-inl.h:1229-1230 | the 16-bit Compress narrows each compacted half with detail::InterleaveEven (svtrn1), which copies the low half of 32-bit lane k into 16-bit lanes 2k and 2k + 1 | eight u16 lanes [10, 20, 0, ...] with lanes 0 and 1 selected give 10, 10, ... instead of 10, 20, ... | narrow with ConcatEven (svuzp1), which packs those low halves into lanes k, so the splice puts the selected lanes first | not executed | ArmSve.Compress16AsWrittenCounterexample | ArmSve.Compress16 |
