/** The cyclic message generator: the chunked copying of its constructor produces a simple
    periodic text, and divisibility decides which messages repeat. */
module Generator {

  const ALPHABET: string := "abcdefghijklmnopqrstuvwxyz1234567890"
  const ALPHABET_SIZE: nat := 36

  /** The characters that are cycled through: all of them, or all but the last when the
      message size is a multiple of the alphabet size. */
  function Period(size: nat): (a: nat)
    ensures a == 35 || a == 36
  {
    if size % ALPHABET_SIZE != 0 then ALPHABET_SIZE else ALPHABET_SIZE - 1
  }

  /** Where position `g` of the periodic text lies in the alphabet. */
  function Phase(period: nat, g: nat): (i: nat)
    requires 0 < period
    ensures i < period
  {
    g % period
  }

  /** `n` characters of the periodic text from position `from` on. */
  function Cyclic(alphabet: string, period: nat, from: nat, n: nat): (text: string)
    requires 0 < period <= |alphabet|
    ensures |text| == n
    ensures forall j :: 0 <= j < n ==> text[j] == alphabet[Phase(period, from + j)]
  {
    if n == 0 then "" else Cyclic(alphabet, period, from, n - 1) + [alphabet[Phase(period, from + (n - 1))]]
  }

  /** Message `i` of the sequence of messages of one size. */
  function MessageText(size: nat, i: nat): (text: string)
    ensures |text| == size
    ensures forall j :: 0 <= j < size ==> text[j] == ALPHABET[(i * size + j) % (if size % 36 == 0 then 35 else 36)]
  {
    Cyclic(ALPHABET, Period(size), i * size, size)
  }

  // ----- arithmetic -----

  /** Quotient and remainder are determined by the sum they make up. */
  lemma QuotientUnique(period: nat, lap: nat, i: nat)
    requires (period == 35 || period == 36) && i < period
    ensures (period * lap + i) % period == i
  {
    if period == 36 {
      assert (36 * lap + i) % 36 == i;
    } else {
      assert (35 * lap + i) % 35 == i;
    }
  }

  lemma Divides(m: nat, q: nat)
    requires m == 35 || m == 36 || m == 1260
    ensures m * q % m == 0
  {
    if m == 1260 {
      assert 1260 * q % 1260 == 0;
    } else {
      QuotientUnique(m, q, 0);
    }
  }

  lemma PhaseStep(period: nat, g: nat, j: nat)
    requires (period == 35 || period == 36) && j < period - Phase(period, g)
    ensures Phase(period, g + j) == Phase(period, g) + j
  {
    var lap := g / period;
    assert g == period * lap + g % period;
    QuotientUnique(period, lap, g % period + j);
  }

  lemma SameRemainder(period: nat, a: nat, b: nat)
    requires (period == 35 || period == 36) && a <= b && a % period == b % period
    ensures (b - a) % period == 0
  {
    var p, q := a / period, b / period;
    assert a == period * p + a % period && b == period * q + b % period;
    assert b - a == period * (q - p);
    Divides(period, q - p);
  }

  lemma DivisibleDistance(period: nat, a: nat, b: nat)
    requires (period == 35 || period == 36) && a <= b && (b - a) % period == 0
    ensures a % period == b % period
  {
    var p, d := a / period, (b - a) / period;
    assert a == period * p + a % period;
    assert b - a == period * d;
    assert b == period * (p + d) + a % period;
    QuotientUnique(period, p + d, a % period);
  }

  /** Two numbers have the same remainder exactly when the period divides their difference. */
  lemma ModEqual(period: nat, a: nat, b: nat)
    requires (period == 35 || period == 36) && a <= b
    ensures a % period == b % period <==> (b - a) % period == 0
  {
    if a % period == b % period {
      SameRemainder(period, a, b);
    }
    if (b - a) % period == 0 {
      DivisibleDistance(period, a, b);
    }
  }

  lemma MultipleOfMultiple(period: nat, k: nat, n: nat)
    requires (period == 35 || period == 36) && n % period == 0
    ensures k * n % period == 0
  {
    var q := n / period;
    assert n == period * q;
    assert k * n == period * (k * q);
    QuotientUnique(period, k * q, 0);
  }

  lemma CommonMultiple(a: nat, b: nat)
    requires 36 * a == 35 * b
    ensures a == 35 * (b - a)
  {
  }

  lemma Multiple1260(n: nat)
    ensures n % 36 == 0 && n % 35 == 0 <==> n % 1260 == 0
  {
    if n % 36 == 0 && n % 35 == 0 {
      var a, b := n / 36, n / 35;
      assert n == 36 * a && n == 35 * b;
      CommonMultiple(a, b);
      Divides(1260, b - a);
    }
    if n % 1260 == 0 {
      var q := n / 1260;
      assert n == 1260 * q;
      Divides(36, 35 * q);
      Divides(35, 36 * q);
    }
  }

  function Letter(i: nat): int { if i < 26 then 'a' as int + i else if i < 35 then '1' as int + (i - 26) else '0' as int }

  lemma AlphabetLetters(i: nat)
    requires i < ALPHABET_SIZE
    ensures ALPHABET[i] as int == Letter(i)
  {
  }

  /** No character occurs twice in the alphabet. */
  lemma AlphabetInjective(i: nat, j: nat)
    requires i < ALPHABET_SIZE && j < ALPHABET_SIZE
    ensures ALPHABET[i] == ALPHABET[j] <==> i == j
  {
    AlphabetLetters(i);
    AlphabetLetters(j);
  }

  lemma Spread(i: nat, k: nat, size: nat)
    requires i <= k
    ensures (k - i) * size == k * size - i * size && i * size <= k * size
  {
  }

  /** Two messages agree at a position exactly when the period divides their distance: 35
      for sizes that are multiples of 36, and 36 for all others. */
  lemma AgreeAt(size: nat, i: nat, k: nat, j: nat)
    requires i <= k && j < size
    ensures size % 36 != 0 ==>
              (MessageText(size, i)[j] == MessageText(size, k)[j] <==> (k - i) * size % 36 == 0)
    ensures size % 36 == 0 ==>
              (MessageText(size, i)[j] == MessageText(size, k)[j] <==> (k - i) * size % 35 == 0)
  {
    hide MessageText;
    var a := if size % 36 == 0 then 35 else 36;
    Spread(i, k, size);
    ModEqual(a, i * size + j, k * size + j);
    AlphabetInjective((i * size + j) % a, (k * size + j) % a);
  }

  /** Messages `i` and `k` are equal exactly when 36 divides `(k - i) * size`, or 35 for
      sizes that are multiples of 36. */
  lemma EqualMessages(size: nat, i: nat, k: nat)
    requires 0 < size && i <= k
    ensures size % 36 != 0 ==> (MessageText(size, i) == MessageText(size, k) <==> (k - i) * size % 36 == 0)
    ensures size % 36 == 0 ==> (MessageText(size, i) == MessageText(size, k) <==> (k - i) * size % 35 == 0)
  {
    hide MessageText;
    AgreeAt(size, i, k, 0);
    if MessageText(size, i)[0] == MessageText(size, k)[0] {
      forall j | 0 <= j < size ensures MessageText(size, i)[j] == MessageText(size, k)[j] {
        AgreeAt(size, i, k, j);
      }
    }
  }

  /** Adjacent messages differ at every position exactly when the size is not a multiple
      of 1260. */
  lemma AdjacentMessages(size: nat, i: nat)
    requires 0 < size
    ensures (forall j :: 0 <= j < size ==> MessageText(size, i)[j] != MessageText(size, i + 1)[j]) <==> size % 1260 != 0
  {
    Multiple1260(size);
    assert (i + 1 - i) * size == size;
    AgreeAt(size, i, i + 1, 0);
    if size % 1260 != 0 {
      forall j | 0 <= j < size ensures MessageText(size, i)[j] != MessageText(size, i + 1)[j] {
        AgreeAt(size, i, i + 1, j);
      }
    }
  }

  /** For such a multiple all messages coincide. */
  lemma AllMessagesCoincide(size: nat, i: nat, k: nat)
    requires 0 < size && size % 1260 == 0 && i <= k
    ensures MessageText(size, i) == MessageText(size, k)
  {
    Multiple1260(size);
    MultipleOfMultiple(35, k - i, size);
    EqualMessages(size, i, k);
  }

  // ----- the generator -----

  /** Appending a stretch of the alphabet that ends at the period at the latest continues
      the periodic text. */
  lemma {:induction false} CyclicExtend(alphabet: string, period: nat, from: nat, n: nat, idx: nat, count: nat)
    requires (period == 35 || period == 36) && period <= |alphabet|
    requires idx == Phase(period, from + n) && idx + count <= period
    ensures Cyclic(alphabet, period, from, n) + alphabet[idx..idx + count] == Cyclic(alphabet, period, from, n + count)
  {
    hide Phase;
    if count == 0 {
      assert alphabet[idx..idx] == "";
    } else {
      CyclicExtend(alphabet, period, from, n, idx, count - 1);
      PhaseStep(period, from + n, count - 1);
      assert alphabet[idx..idx + count] == alphabet[idx..idx + (count - 1)] + [alphabet[idx + (count - 1)]];
      assert from + (n + count - 1) == from + n + (count - 1);
    }
  }

  lemma NextStart(n: nat, size: nat)
    ensures (n + 1) * size == n * size + size
  {
  }

  class SimpleRoundGenerator {
    var msgs: seq<string>
    var cursor: nat

    ghost predicate Valid()
      reads this
    {
      cursor <= |msgs|
    }

    constructor (chunksSize: nat, chunksTotalCount: nat)
      ensures Valid() && |msgs| == chunksTotalCount
      ensures forall i :: 0 <= i < |msgs| ==> msgs[i] == MessageText(chunksSize, i)
      ensures forall i, j :: 0 <= i < |msgs| && 0 <= j < chunksSize ==>
                && |msgs[i]| == chunksSize
                && msgs[i][j] == ALPHABET[(i * chunksSize + j) % (if chunksSize % 36 == 0 then 35 else 36)]
    {
      msgs := [];
      cursor := 0;
      new;
      var globalIdx := 0;
      var alphabetSize := if chunksSize % ALPHABET_SIZE != 0 then ALPHABET_SIZE else ALPHABET_SIZE - 1;
      var i := chunksTotalCount;
      while i != 0
        invariant 0 <= i <= chunksTotalCount && |msgs| == chunksTotalCount - i
        invariant globalIdx == |msgs| * chunksSize && cursor == 0
        invariant forall n :: 0 <= n < |msgs| ==> msgs[n] == MessageText(chunksSize, n)
      {
        var msg, next := BuildMessage(chunksSize, globalIdx, alphabetSize);
        NextStart(|msgs|, chunksSize);
        assert msg == MessageText(chunksSize, |msgs|);
        globalIdx := next;
        msgs := msgs + [msg];
        i := i - 1;
      }
    }

    /** The inner loop: whole stretches of the alphabet until the message is long enough. */
    static method BuildMessage(chunksSize: nat, from: nat, alphabetSize: nat) returns (msg: string, globalIdx: nat)
      requires alphabetSize == 35 || alphabetSize == 36
      ensures msg == Cyclic(ALPHABET, alphabetSize, from, chunksSize) && globalIdx == from + chunksSize
    {
      hide Cyclic, Phase;
      msg := "";
      globalIdx := from;
      var len := chunksSize;
      while len != 0
        invariant 0 <= len <= chunksSize
        invariant globalIdx == from + (chunksSize - len)
        invariant msg == Cyclic(ALPHABET, alphabetSize, from, chunksSize - len)
      {
        var alphabetIdx := Phase(alphabetSize, globalIdx);
        var count := alphabetSize - alphabetIdx;
        count := if count < len then count else len;
        CyclicExtend(ALPHABET, alphabetSize, from, chunksSize - len, alphabetIdx, count);
        msg := msg + ALPHABET[alphabetIdx..alphabetIdx + count];
        len := len - count;
        globalIdx := globalIdx + count;
      }
    }

    method ToFirst()
      modifies `cursor
      ensures Valid() && cursor == 0
    {
      cursor := 0;
    }

    method HasNext() returns (more: bool)
      requires Valid()
      ensures more <==> cursor < |msgs|
    {
      more := cursor != |msgs|;
    }

    method Next() returns (msg: string)
      requires Valid() && cursor < |msgs|
      modifies `cursor
      ensures Valid() && msg == msgs[old(cursor)] && cursor == old(cursor) + 1
    {
      msg := msgs[cursor];
      cursor := cursor + 1;
    }
  }
}
