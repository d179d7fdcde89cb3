/** The pattern generator: the bytes one overwrite chunk is filled with.

    Dispatch is on the pattern name exactly as given: "zeros", "ones" and
    "alternating" are fixed fills, and every other string selects the random
    branch. The random source is not modelled; the bytes it would return are
    passed in as `entropy`, and the only thing assumed of them is their length.
 */
module Pattern {

  /** `n` copies of the byte `b`. */
  function Fill(b: bv8, n: nat): (r: seq<bv8>)
    ensures |r| == n
    ensures forall i :: 0 <= i < n ==> r[i] == b
  {
    seq(n, _ => b)
  }

  /** True for the three names whose output does not depend on the random source. */
  predicate IsFixed(name: string)
  {
    name == "zeros" || name == "ones" || name == "alternating"
  }

  /** The byte a fixed pattern writes on pass `passNum`. Python's `%` floors;
      for the divisor 2 that agrees with Dafny's Euclidean `%` on every int. */
  function FixedByte(name: string, passNum: int): bv8
    requires IsFixed(name)
  {
    if name == "zeros" then 0x00
    else if name == "ones" then 0xFF
    else if passNum % 2 == 0 then 0xAA
    else 0x55
  }

  /** The bytes for one chunk of `size` bytes on pass `passNum`: "zeros" is all
      0x00 and "ones" all 0xFF on every pass, "alternating" is all 0xAA on even
      passes and all 0x55 on odd ones, and any other name yields the random
      source's bytes unchanged. */
  function PatternBytes(name: string, size: nat, passNum: int, entropy: seq<bv8>): (r: seq<bv8>)
    requires !IsFixed(name) ==> |entropy| == size
    ensures |r| == size
    ensures name == "zeros" ==> forall i :: 0 <= i < size ==> r[i] == 0x00
    ensures name == "ones" ==> forall i :: 0 <= i < size ==> r[i] == 0xFF
    ensures name == "alternating" && passNum % 2 == 0 ==> forall i :: 0 <= i < size ==> r[i] == 0xAA
    ensures name == "alternating" && passNum % 2 == 1 ==> forall i :: 0 <= i < size ==> r[i] == 0x55
    ensures !IsFixed(name) ==> r == entropy
  {
    if IsFixed(name) then Fill(FixedByte(name, passNum), size) else entropy
  }

  /** A slice of a pattern buffer is the pattern buffer for the slice: the bytes
      of a chunk depend only on the pattern, the pass and the chunk's own share
      of the random source, never on any other chunk. */
  lemma PatternSlice(name: string, size: nat, passNum: int, entropy: seq<bv8>, lo: nat, hi: nat)
    requires |entropy| == size
    requires lo <= hi <= size
    ensures PatternBytes(name, size, passNum, entropy)[lo..hi] == PatternBytes(name, hi - lo, passNum, entropy[lo..hi])
  {
    if IsFixed(name) {
      var b := FixedByte(name, passNum);
      assert Fill(b, size)[lo..hi] == Fill(b, hi - lo);
    }
  }

  /** "zeros" and "ones" ignore the pass number; "alternating" has period two
      and differs between consecutive passes on any non-empty buffer. */
  lemma PassDependence(name: string, size: nat, p: int, q: int, entropy: seq<bv8>)
    requires IsFixed(name)
    ensures name != "alternating" ==> PatternBytes(name, size, p, entropy) == PatternBytes(name, size, q, entropy)
    ensures name == "alternating" && p % 2 == q % 2 ==> PatternBytes(name, size, p, entropy) == PatternBytes(name, size, q, entropy)
    ensures name == "alternating" && size > 0 ==> PatternBytes(name, size, p, entropy) != PatternBytes(name, size, p + 1, entropy)
  {
    if name == "alternating" && size > 0 {
      var a := PatternBytes(name, size, p, entropy);
      var b := PatternBytes(name, size, p + 1, entropy);
      assert a[0] != b[0];
    }
  }

  /** Fixed patterns never consult the random source. */
  lemma FixedIgnoresEntropy(name: string, size: nat, passNum: int, e1: seq<bv8>, e2: seq<bv8>)
    requires IsFixed(name)
    ensures PatternBytes(name, size, passNum, e1) == PatternBytes(name, size, passNum, e2)
  {
  }
}
