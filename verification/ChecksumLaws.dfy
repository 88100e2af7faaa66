/** What the checksum of raw/main.c detects and what it cannot. */
module ChecksumLaws {

  import opened Checksum
  import opened Octets

  /** `csum` of a whole buffer. */
  function CsumOf(b: seq<Byte>): (r: nat)
    ensures r <= ONES
  {
    Finish(WordSum(b))
  }

  /** The word at an even offset. */
  function WordAt(b: seq<Byte>, k: nat): nat
    requires k + 1 < |b|
  {
    Word(b[k], b[k + 1])
  }

  /** A 16-bit store in host order. */
  function StoreWord(b: seq<Byte>, k: nat, w: nat): (r: seq<Byte>)
    requires k + 1 < |b| && w <= ONES
    ensures |r| == |b| && WordAt(r, k) == w
  {
    b[k := w % 256][k + 1 := w / 256]
  }

  lemma {:induction false} StoredSum(b: seq<Byte>, k: nat, w: nat)
    requires k % 2 == 0 && k + 1 < |b| && w <= ONES
    ensures WordSum(StoreWord(b, k, w)) + WordAt(b, k) == WordSum(b) + w
    ensures WordSum(b) >= WordAt(b, k)
  {
    if k > 0 {
      StoredSum(b[2..], k - 2, w);
    }
  }

  lemma CsumIsComplement(b: seq<Byte>)
    requires |b| <= LIMIT
    ensures CsumOf(b) == ONES - Residue(WordSum(b))
  {
    ShortIsExact(b);
    OnesSumIsResidue(b);
  }

  /** 0 and 0xffff, the two words that are one ones' complement value. */
  predicate Aliases(v: nat, w: nat) {
    (v == 0 && w == ONES) || (v == ONES && w == 0)
  }

  /** Changing one word keeps the ones' complement value only between the two aliases, and
      only when the other words are not all zero. */
  lemma ChangeUnseen(rest: nat, v: nat, w: nat)
    requires v <= ONES && w <= ONES
    ensures Residue(rest + v) == Residue(rest + w) <==> v == w || (Aliases(v, w) && rest != 0)
  {
  }

  /** Every octet but the two of the word at `k` is zero. */
  predicate ZeroAround(b: seq<Byte>, k: nat) {
    forall i :: 0 <= i < |b| && i != k && i != k + 1 ==> b[i] == 0
  }

  lemma ZeroAroundFirst(b: seq<Byte>)
    requires |b| >= 2
    ensures ZeroAround(b, 0) <==> WordSum(b[2..]) == 0
  {
    var tail := b[2..];
    ZeroSum(tail);
    if ZeroAround(b, 0) {
      forall i | 0 <= i < |tail| ensures tail[i] == 0 {
        assert b[i + 2] == 0;
      }
    }
    if WordSum(tail) == 0 {
      forall i | 2 <= i < |b| ensures b[i] == 0 {
        assert tail[i - 2] == 0;
      }
    }
  }

  lemma {:induction false} WordIsPart(b: seq<Byte>, n: nat)
    requires 2 * n + 1 < |b|
    ensures WordSum(b) >= WordAt(b, 2 * n)
  {
    if n > 0 {
      WordIsPart(b[2..], n - 1);
    }
  }

  lemma {:induction false} RestIsZero(b: seq<Byte>, n: nat)
    requires 2 * n + 1 < |b|
    ensures WordSum(b) == WordAt(b, 2 * n) <==> ZeroAround(b, 2 * n)
  {
    if n == 0 {
      ZeroAroundFirst(b);
    } else {
      var tail := b[2..];
      WordIsPart(tail, n - 1);
      RestIsZero(tail, n - 1);
    }
  }

  /** Error detection: changing one word of a buffer within the bound goes unnoticed only
      when it turns 0 into 0xffff or back and some other octet is not zero. */
  lemma OneWordChangeDetected(b: seq<Byte>, k: nat, w: nat)
    requires |b| <= LIMIT && k % 2 == 0 && k + 1 < |b| && w <= ONES
    ensures CsumOf(StoreWord(b, k, w)) == CsumOf(b)
            <==> WordAt(b, k) == w || (Aliases(WordAt(b, k), w) && !ZeroAround(b, k))
  {
    StoredSum(b, k, w);
    RestIsZero(b, k / 2);
    CsumIsComplement(b);
    CsumIsComplement(StoreWord(b, k, w));
    ChangeUnseen(WordSum(b) - WordAt(b, k), WordAt(b, k), w);
  }

  lemma {:induction false} LastOctetSum(b: seq<Byte>, x: Byte)
    requires |b| % 2 == 1
    ensures WordSum(b[|b| - 1 := x]) + b[|b| - 1] == WordSum(b) + x
    ensures WordSum(b) >= b[|b| - 1]
  {
    if |b| > 1 {
      LastOctetSum(b[2..], x);
      assert b[|b| - 1 := x][2..] == b[2..][|b| - 3 := x];
    }
  }

  /** The odd last octet is a word of its own, too small to alias: changing it is always
      noticed. */
  lemma LastOctetChangeDetected(b: seq<Byte>, x: Byte)
    requires |b| <= LIMIT && |b| % 2 == 1
    ensures CsumOf(b[|b| - 1 := x]) == CsumOf(b) <==> b[|b| - 1] == x
  {
    LastOctetSum(b, x);
    CsumIsComplement(b);
    CsumIsComplement(b[|b| - 1 := x]);
    ChangeUnseen(WordSum(b) - b[|b| - 1], b[|b| - 1], x);
  }

  lemma SealsIff(sum: nat, w: nat)
    requires w <= ONES
    ensures Residue(sum + w) == ONES
            <==> w == ONES - Residue(sum) || (w == ONES && Residue(sum) == ONES)
  {
  }

  /** Self-verification: with its checksum word clear, a buffer within the bound checks to 0
      after a word is stored there if and only if that word is the checksum, or is 0xffff
      standing for a checksum of 0. */
  lemma VerifiesIffChecksum(b: seq<Byte>, k: nat, w: nat)
    requires |b| <= LIMIT && k % 2 == 0 && k + 1 < |b| && w <= ONES && WordAt(b, k) == 0
    ensures CsumOf(StoreWord(b, k, w)) == 0 <==> w == CsumOf(b) || (w == ONES && CsumOf(b) == 0)
  {
    StoredSum(b, k, w);
    CsumIsComplement(b);
    CsumIsComplement(StoreWord(b, k, w));
    SealsIff(WordSum(b), w);
  }

  // ---------------------------------------------------------------- order of the words

  function Words(b: seq<Byte>): seq<nat> {
    if b == [] then [] else if |b| == 1 then [b[0]] else [Word(b[0], b[1])] + Words(b[2..])
  }

  function Total(words: seq<nat>): nat {
    if words == [] then 0 else words[0] + Total(words[1..])
  }

  lemma {:induction false} WordSumIsTotal(b: seq<Byte>)
    ensures WordSum(b) == Total(Words(b))
  {
    if |b| > 1 {
      WordSumIsTotal(b[2..]);
    }
  }

  lemma {:induction false} TotalWithout(words: seq<nat>, i: nat)
    requires i < |words|
    ensures Total(words) == words[i] + Total(words[..i] + words[i + 1..])
  {
    var less := words[..i] + words[i + 1..];
    if i == 0 {
      assert less == words[1..];
    } else {
      TotalWithout(words[1..], i - 1);
      assert less[1..] == words[1..][..i - 1] + words[1..][i..];
    }
  }

  lemma MultisetWithout(words: seq<nat>, i: nat)
    requires i < |words|
    ensures multiset(words[..i] + words[i + 1..]) == multiset(words) - multiset{words[i]}
  {
    assert words == words[..i] + [words[i]] + words[i + 1..];
  }

  lemma {:induction false} TotalOfMultiset(v: seq<nat>, w: seq<nat>)
    requires multiset(v) == multiset(w)
    ensures Total(v) == Total(w)
  {
    if v != [] {
      assert v[0] in multiset(w);
      var i :| 0 <= i < |w| && w[i] == v[0];
      var less := w[..i] + w[i + 1..];
      MultisetWithout(v, 0);
      MultisetWithout(w, i);
      TotalOfMultiset(v[1..], less);
      TotalWithout(w, i);
    }
  }

  /** Permuting the words of a buffer of any length never changes the checksum. */
  lemma PermutationUndetected(a: seq<Byte>, b: seq<Byte>)
    requires multiset(Words(a)) == multiset(Words(b))
    ensures CsumOf(a) == CsumOf(b)
  {
    WordSumIsTotal(a);
    WordSumIsTotal(b);
    TotalOfMultiset(Words(a), Words(b));
  }
}
