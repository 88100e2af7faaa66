/** The Internet checksum of raw/main.c: a sum of little-endian words with the carries
    deferred to two folds at the end. */
module Checksum {

  import opened Octets

  const BASE: nat := 0x1_0000
  const ONES: nat := 0xffff

  // ---------------------------------------------------------------- the code

  /** The word a little-endian machine reads from two octets. */
  function Word(low: Byte, high: Byte): (w: nat)
    ensures w <= ONES
  {
    low + 256 * high
  }

  /** The sum with no carry taken, the odd last octet alone in its word. */
  function WordSum(b: seq<Byte>): nat {
    if b == [] then 0
    else if |b| == 1 then b[0]
    else Word(b[0], b[1]) + WordSum(b[2..])
  }

  lemma {:induction false} WordSumBound(b: seq<Byte>)
    ensures 2 * WordSum(b) <= (|b| + 1) * ONES
    ensures |b| % 2 == 0 ==> 2 * WordSum(b) <= |b| * ONES
  {
    if |b| > 1 {
      WordSumBound(b[2..]);
    }
  }

  /** The two folds and the complement cut to 16 bits. */
  function Finish(sum: nat): (answer: nat)
    ensures answer <= ONES
  {
    var once := sum / BASE + sum % BASE;
    var twice := once + once / BASE;
    ONES - twice % BASE
  }

  lemma WordSumStep(data: seq<Byte>, i: nat)
    requires i + 2 <= |data|
    ensures WordSum(data[i..]) == Word(data[i], data[i + 1]) + WordSum(data[i + 2..])
  {
  }

  /** The loop of `csum` and its odd octet, on `bytes` octets from `start` on. */
  method SumWords(buffer: array<Byte>, start: nat, bytes: nat) returns (sum: nat)
    requires start + bytes <= buffer.Length
    ensures sum == WordSum(buffer[start..start + bytes])
  {
    ghost var data: seq<Byte> := buffer[start..start + bytes];
    sum := 0;
    var buf, left := start, bytes;
    while left > 1
      invariant start <= buf && 0 <= left && buf + left == start + bytes
      invariant sum + WordSum(data[buf - start..]) == WordSum(data)
    {
      WordSumStep(data, buf - start);
      sum := sum + Word(buffer[buf], buffer[buf + 1]);
      buf, left := buf + 2, left - 2;
    }
    if left == 1 {
      sum := sum + buffer[buf];
    }
  }

  // ---------------------------------------------------------------- the reference

  /** Ones' complement addition: the carry out of the word is added back at once. */
  function OnesAdd(a: nat, b: nat): (r: nat)
    requires a <= ONES && b <= ONES
    ensures r <= ONES
  {
    if a + b > ONES then a + b - ONES else a + b
  }

  /** Section 1 of RFC 1071 on little-endian words. */
  function OnesSum(b: seq<Byte>): (r: nat)
    ensures r <= ONES
  {
    if b == [] then 0
    else if |b| == 1 then b[0]
    else OnesAdd(Word(b[0], b[1]), OnesSum(b[2..]))
  }

  /** The same on big-endian words, the odd last octet in the high half. */
  function OnesSumNetwork(b: seq<Byte>): (r: nat)
    ensures r <= ONES
  {
    if b == [] then 0
    else if |b| == 1 then Word(0, b[0])
    else OnesAdd(Word(b[1], b[0]), OnesSumNetwork(b[2..]))
  }

  /** The longest buffer whose checksum two folds always get right. */
  const LIMIT: nat := 131076

  // ---------------------------------------------------------------- ones' complement sums

  /** The ones' complement value of a plain sum: 0 for 0, otherwise its residue in
      1..0xffff. */
  function Residue(sum: nat): (r: nat)
    ensures r <= ONES && (r == 0 <==> sum == 0)
  {
    if sum == 0 then 0 else (sum - 1) % ONES + 1
  }

  lemma ResidueUnique(a: nat, q: int, r: nat)
    requires a == q * ONES + r && r <= ONES && (r == 0 <==> a == 0)
    ensures Residue(a) == r
  {
  }

  lemma ResidueAdd(a: nat, b: nat)
    requires a <= ONES
    ensures OnesAdd(a, Residue(b)) == Residue(a + b)
  {
  }

  /** Adding back every carry at once or none until the end gives the same value. */
  lemma {:induction false} OnesSumIsResidue(b: seq<Byte>)
    ensures OnesSum(b) == Residue(WordSum(b))
  {
    if |b| > 1 {
      OnesSumIsResidue(b[2..]);
      ResidueAdd(Word(b[0], b[1]), WordSum(b[2..]));
    }
  }

  /** The longest buffer an `int` length can describe. */
  const INT_MAX: nat := 0x7fff_ffff

  /** The second fold leaves no carry. */
  predicate NoCarry(sum: nat) {
    var once := sum / BASE + sum % BASE;
    once / BASE + once % BASE <= ONES
  }

  lemma LowPart(a: nat, q: nat, r: nat)
    requires a == q * BASE + r && r < BASE
    ensures a % BASE == r
  {
  }

  /** Two folds finish the job exactly when the second leaves no carry; otherwise the result
      is one too many. */
  lemma FinishExactIff(sum: nat)
    requires 2 * sum <= (INT_MAX + 1) * ONES
    ensures Finish(sum) == ONES - Residue(sum) + if NoCarry(sum) then 0 else 1
  {
    var high, low := sum / BASE, sum % BASE;
    var once := high + low;
    var carry, rest := once / BASE, once % BASE;
    var twice := once + carry;
    assert twice == carry * BASE + (carry + rest);
    assert sum == (high + carry) * ONES + (carry + rest);
    assert carry <= 0x4000;
    if carry + rest <= ONES {
      LowPart(twice, carry, carry + rest);
      ResidueUnique(sum, high + carry, carry + rest);
    } else {
      LowPart(twice, carry + 1, carry + rest - BASE);
      ResidueUnique(sum, high + carry + 1, carry + rest - ONES);
    }
  }

  /** The checksum is right: the complement of the ones' complement sum. */
  predicate Exact(b: seq<Byte>) {
    Finish(WordSum(b)) == ONES - OnesSum(b)
  }

  /** Exactness as a caller can check it: no carry left after the second fold. A carry left
      makes the checksum one too many. */
  lemma ExactIffNoCarry(b: seq<Byte>)
    requires |b| <= INT_MAX
    ensures Exact(b) <==> NoCarry(WordSum(b))
    ensures Finish(WordSum(b)) == ONES - OnesSum(b) + if NoCarry(WordSum(b)) then 0 else 1
  {
    OnesSumIsResidue(b);
    WordSumBound(b);
    FinishExactIff(WordSum(b));
  }

  lemma ShortIsExact(b: seq<Byte>)
    requires |b| <= LIMIT
    ensures Exact(b)
  {
    WordSumBound(b);
    ExactIffNoCarry(b);
  }

  /** `csum`: within the bound it is the complement of the ones' complement sum. */
  method Csum(buffer: array<Byte>, start: nat, bytes: nat) returns (answer: nat)
    requires start + bytes <= buffer.Length
    ensures answer == Finish(WordSum(buffer[start..start + bytes]))
    ensures bytes <= LIMIT ==> answer == ONES - OnesSum(buffer[start..start + bytes])
  {
    var sum := SumWords(buffer, start, bytes);
    if bytes <= LIMIT {
      ShortIsExact(buffer[start..start + bytes]);
    }
    sum := sum / BASE + sum % BASE;
    sum := sum + sum / BASE;
    answer := ONES - sum % BASE;
  }

  /** `words` words of 0xffff. */
  function Full(words: nat): (b: seq<Byte>)
    ensures |b| == 2 * words
  {
    if words == 0 then [] else [255, 255] + Full(words - 1)
  }

  function Zeros(n: nat): (b: seq<Byte>)
    ensures |b| == n
  {
    if n == 0 then [] else [0] + Zeros(n - 1)
  }

  lemma {:induction false} ZerosAt(n: nat, i: nat)
    requires i < n
    ensures Zeros(n)[i] == 0
  {
    if i > 0 {
      ZerosAt(n - 1, i - 1);
    }
  }

  lemma {:induction false} ZeroSum(b: seq<Byte>)
    ensures WordSum(b) == 0 <==> forall i :: 0 <= i < |b| ==> b[i] == 0
  {
    if |b| > 1 {
      ZeroSum(b[2..]);
    }
  }

  lemma {:induction false} FullSum(words: nat, rest: seq<Byte>)
    ensures WordSum(Full(words) + rest) == words * ONES + WordSum(rest)
  {
    if words == 0 {
      assert Full(0) + rest == rest;
    } else {
      assert (Full(words) + rest)[2..] == Full(words - 1) + rest;
      FullSum(words - 1, rest);
    }
  }

  /** A buffer of `n` octets on which two folds are one too few. */
  function Overlong(n: nat): (b: seq<Byte>)
    requires n > LIMIT
    ensures |b| == n
  {
    Full(65538) + ([1] + Zeros(n - LIMIT - 1))
  }

  lemma OneThenZeros(n: nat)
    ensures WordSum([1] + Zeros(n)) == 1
  {
    var tail: seq<Byte> := [1] + Zeros(n);
    if n > 0 {
      var zeros := Zeros(n - 1);
      assert tail[2..] == zeros && tail[1] == 0;
      forall i | 0 <= i < |zeros| ensures zeros[i] == 0 {
        ZerosAt(n - 1, i);
      }
      ZeroSum(zeros);
    }
  }

  lemma OverlongIsNotExact(n: nat)
    requires LIMIT < n <= INT_MAX
    ensures !Exact(Overlong(n))
  {
    FullSum(65538, [1] + Zeros(n - LIMIT - 1));
    OneThenZeros(n - LIMIT - 1);
  }

  /** The bound is exact: every buffer of a given length gets the right checksum if and
      only if that length is at most 131076 octets. */
  lemma LengthBoundIsTight(n: nat)
    requires n <= INT_MAX
    ensures (forall b: seq<Byte> :: |b| == n ==> Exact(b)) <==> n <= LIMIT
  {
    if n <= LIMIT {
      forall b: seq<Byte> | |b| == n ensures Exact(b) {
        ShortIsExact(b);
      }
    } else {
      OverlongIsNotExact(n);
    }
  }

  // ---------------------------------------------------------------- byte order

  function Swap(w: nat): (r: nat)
    requires w <= ONES
    ensures r <= ONES
  {
    w % 256 * 256 + w / 256
  }

  lemma SwapWord(w: nat, low: nat, high: nat)
    requires w <= ONES && w == low + 256 * high && low < 256
    ensures Swap(w) == 256 * low + high
  {
  }

  lemma SwapAddParts(a0: Byte, a1: Byte, b0: Byte, b1: Byte)
    ensures Swap(OnesAdd(Word(a0, a1), Word(b0, b1))) == OnesAdd(Word(a1, a0), Word(b1, b0))
  {
    var low, high := a0 + b0, a1 + b1;
    var sum := OnesAdd(Word(a0, a1), Word(b0, b1));
    if low + 256 * high <= ONES {
      if low < 256 {
        SwapWord(sum, low, high);
      } else {
        SwapWord(sum, low - 256, high + 1);
      }
    } else if high == 255 {
      SwapWord(sum, low - 255, 0);
    } else if low < 255 {
      SwapWord(sum, low + 1, high - 256);
    } else {
      SwapWord(sum, low - 255, high - 255);
    }
  }

  lemma SwapAdd(a0: Byte, a1: Byte, b: nat)
    requires b <= ONES
    ensures Swap(OnesAdd(Word(a0, a1), b)) == OnesAdd(Word(a1, a0), Swap(b))
  {
    var b0: Byte, b1: Byte := b % 256, b / 256;
    SwapAddParts(a0, a1, b0, b1);
  }

  /** Summing swapped words gives the swapped sum (section 2(B) of RFC 1071). */
  lemma {:induction false} NetworkSumIsSwapped(b: seq<Byte>)
    ensures OnesSumNetwork(b) == Swap(OnesSum(b))
  {
    if |b| > 1 {
      NetworkSumIsSwapped(b[2..]);
      SwapAdd(b[0], b[1], OnesSum(b[2..]));
    }
  }

  lemma Parts(w: nat, low: int, high: int)
    requires w == low + 256 * high && 0 <= low < 256
    ensures w % 256 == low && w / 256 == high
  {
  }

  lemma ComplementSwaps(w: nat)
    requires w <= ONES
    ensures (ONES - w) % 256 == (ONES - Swap(w)) / 256 && (ONES - w) / 256 == (ONES - Swap(w)) % 256
  {
    var low, high := w % 256, w / 256;
    Parts(ONES - w, 255 - low, 255 - high);
  }

  /** Storing `csum` in host order puts the octets of the network-order reference checksum
      in the packet, high octet first. */
  lemma StoredOctetsAreNetworkOrder(b: seq<Byte>)
    requires |b| <= LIMIT
    ensures var answer, reference := Finish(WordSum(b)), ONES - OnesSumNetwork(b);
            answer % 256 == reference / 256 && answer / 256 == reference % 256
  {
    ShortIsExact(b);
    NetworkSumIsSwapped(b);
    ComplementSwaps(OnesSum(b));
  }
}
