/**
 * Facts about 32-bit flag words that the stepper validator relies on:
 * single-bit words, masks and the OR of a list of words.
 */
module BitWords {

  /** Zephyr's `IS_POWER_OF_TWO`: non-zero and no two bits set. */
  predicate IsPowerOfTwo(x: bv32) {
    x != 0 && x & (x - 1) == 0
  }

  /** The bitwise OR of a list of words, taken left to right. */
  function OrAll(s: seq<bv32>): bv32
    decreases |s|
  {
    if |s| == 0 then 0 else OrAll(s[..|s| - 1]) | s[|s| - 1]
  }

  /** `x` and `y` have a set bit in common. */
  predicate Meets(x: bv32, y: bv32) {
    x & y != 0
  }

  /** Every bit set in `a` is also set in `m`. */
  predicate Within(a: bv32, m: bv32) {
    a & m == a
  }

  /** Two single-bit words that share a bit are equal. */
  lemma PowersOfTwoOverlap(a: bv32, b: bv32)
    requires IsPowerOfTwo(a) && IsPowerOfTwo(b) && Meets(a, b)
    ensures a == b
  {
  }

  /** Two different single-bit words share no bit. */
  lemma DistinctPowersDisjoint(a: bv32, b: bv32)
    requires IsPowerOfTwo(a) && IsPowerOfTwo(b) && a != b
    ensures !Meets(a, b)
  {
  }

  /** A single-bit word meets itself. */
  lemma PowerOfTwoMeetsItself(a: bv32)
    requires IsPowerOfTwo(a)
    ensures Meets(a, a)
  {
  }

  /** A non-zero masked word lies within the mask and meets it. */
  lemma MaskedWordMeetsMask(flags: bv32, m: bv32)
    requires flags & m != 0
    ensures Within(flags & m, m) && Meets(flags & m, m)
  {
  }

  /** A masked word lies within its mask. */
  lemma MaskedWordWithinMask(w: bv32, m: bv32)
    ensures Within(w & m, m)
  {
  }

  /**
   * For a word `b` within the mask `m`: `b` being non-zero, meeting the masked
   * part `cm` of `c` and being a single bit is the same as being a single bit
   * that `c` holds.
   */
  lemma SingleBitMeetsMaskedPart(b: bv32, c: bv32, m: bv32, cm: bv32)
    requires cm == c & m && Within(b, m)
    ensures (b != 0 && Meets(b, cm) && IsPowerOfTwo(b)) <==> (IsPowerOfTwo(b) && Meets(c, b))
  {
    MeetsWithinMask(b, c, m, cm);
  }

  /** A word that meets the masked part `cm` of `c` meets `c`. */
  lemma MeetsMaskedPart(b: bv32, c: bv32, m: bv32, cm: bv32)
    requires cm == c & m
    ensures Meets(b, cm) ==> Meets(c, b)
  {
  }

  /** Masking `c` first changes nothing for a word that lies within the mask. */
  lemma AndWithinMask(b: bv32, c: bv32, m: bv32)
    requires Within(b, m)
    ensures b & (c & m) == b & c
  {
    calc {
      b & (c & m);
      (b & m) & c;
      b & c;
    }
  }

  /** Sharing a bit is symmetric. */
  lemma MeetsSymmetric(x: bv32, y: bv32)
    ensures Meets(x, y) <==> Meets(y, x)
  {
    assert x & y == y & x;
  }

  /** A word within the mask `m` meets `c` exactly when it meets the masked part `cm` of `c`. */
  lemma MeetsWithinMask(b: bv32, c: bv32, m: bv32, cm: bv32)
    requires cm == c & m && Within(b, m)
    ensures Meets(c, b) <==> Meets(b, cm)
  {
    AndWithinMask(b, c, m);
    MeetsSymmetric(c, b);
  }

  /** The last word of a non-empty list lies within the OR of the list. */
  lemma LastWithinOrAll(s: seq<bv32>)
    requires |s| > 0
    ensures Within(s[|s| - 1], OrAll(s))
  {
  }

  /** A word within the OR of a list lies within the OR of the list extended by one word. */
  lemma WithinOrAllStep(s: seq<bv32>, j: nat)
    requires j < |s| - 1
    requires Within(s[..|s| - 1][j], OrAll(s[..|s| - 1]))
    ensures Within(s[j], OrAll(s))
  {
  }

  /** Every word of a list lies within the OR of the list. */
  lemma {:induction false} WithinOrAll(s: seq<bv32>, j: nat)
    requires j < |s|
    ensures Within(s[j], OrAll(s))
    decreases |s|
  {
    if j == |s| - 1 {
      LastWithinOrAll(s);
    } else {
      WithinOrAll(s[..|s| - 1], j);
      WithinOrAllStep(s, j);
    }
  }

  /** A word meeting the OR of a list meets its last word or the OR of the others. */
  lemma MeetsOrAllStep(s: seq<bv32>, x: bv32)
    requires Meets(x, OrAll(s))
    ensures |s| > 0
    ensures !Meets(x, s[|s| - 1]) ==> Meets(x, OrAll(s[..|s| - 1]))
  {
  }

  /** A word that meets the OR of a list meets some word of the list (the last such one). */
  lemma {:induction false} MeetsSomeWord(s: seq<bv32>, x: bv32) returns (i: nat)
    requires Meets(x, OrAll(s))
    ensures i < |s| && Meets(x, s[i])
    decreases |s|
  {
    MeetsOrAllStep(s, x);
    var n := |s| - 1;
    if Meets(x, s[n]) {
      i := n;
    } else {
      var init := s[..n];
      i := MeetsSomeWord(init, x);
      assert init[i] == s[i];
    }
  }
}
