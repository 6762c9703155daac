/** The xorshift64 generator shared by the Wolff and Swendsen-Wang samplers.
    The whole state is one unsigned 64-bit register; every draw applies three
    shift-xor passes (left 13, right 7, left 17) in that order. */
module Xorshift {

  /** A `uint64_t` value: the register `rnd` or the threshold `prob_bond`.
      Only `Next` and `Accepts` look at its bits. */
  datatype Word = Word(bits: bv64)

  /** One call of `xorshift64`: the register after the three passes.
      A nonzero register never becomes zero, so the stream stays in (0, 2^64-1]. */
  function Next(r: Word): Word
  {
    Word(Scramble(r.bits))
  }

  /** The three passes on the bits. */
  function Scramble(x: bv64): (y: bv64)
    ensures x != 0 ==> y != 0
  {
    PassNonzero(x);
    Left17(Right7(Left13(x)))
  }

  /** `rnd ^= rnd << 13` */
  function Left13(x: bv64): bv64 { x ^ (x << 13) }

  /** `rnd ^= rnd >> 7` */
  function Right7(x: bv64): bv64 { x ^ (x >> 7) }

  /** `rnd ^= rnd << 17` */
  function Left17(x: bv64): bv64 { x ^ (x << 17) }

  /** None of the three passes maps a nonzero register to zero. */
  lemma PassNonzero(r: bv64)
    ensures r != 0 ==> Left13(r) != 0
    ensures Left13(r) != 0 ==> Right7(Left13(r)) != 0
    ensures Right7(Left13(r)) != 0 ==> Left17(Right7(Left13(r))) != 0
  {
  }

  /** Undoes `a := x ^ (x << 13)`. */
  function UnLeft13(a: bv64): bv64 {
    a ^ (a << 13) ^ (a << 26) ^ (a << 39) ^ (a << 52)
  }

  /** Undoes `b := x ^ (x >> 7)`. */
  function UnRight7(b: bv64): bv64 {
    b ^ (b >> 7) ^ (b >> 14) ^ (b >> 21) ^ (b >> 28) ^ (b >> 35) ^ (b >> 42) ^ (b >> 49) ^ (b >> 56) ^ (b >> 63)
  }

  /** Undoes `c := x ^ (x << 17)`. */
  function UnLeft17(c: bv64): bv64 {
    c ^ (c << 17) ^ (c << 34) ^ (c << 51)
  }

  /** The register before a draw, recovered from the register after it. */
  function Prev(r: bv64): bv64 {
    UnLeft13(UnRight7(UnLeft17(r)))
  }

  lemma UnLeft13Pass(x: bv64)
    ensures UnLeft13(x ^ (x << 13)) == x
  {
  }

  lemma UnRight7Pass(x: bv64)
    ensures UnRight7(x ^ (x >> 7)) == x
  {
  }

  lemma UnLeft17Pass(x: bv64)
    ensures UnLeft17(x ^ (x << 17)) == x
  {
  }

  lemma UnLeft13Inverse(x: bv64)
    ensures UnLeft13(Left13(x)) == x
  {
    UnLeft13Pass(x);
  }

  lemma UnRight7Inverse(x: bv64)
    ensures UnRight7(Right7(x)) == x
  {
    UnRight7Pass(x);
  }

  lemma UnLeft17Inverse(x: bv64)
    ensures UnLeft17(Left17(x)) == x
  {
    UnLeft17Pass(x);
  }

  /** Each draw is a bijection of the 64-bit register: `Prev` inverts the passes. */
  lemma PrevScramble(r: bv64)
    ensures Prev(Scramble(r)) == r
  {
    UnLeft17Inverse(Right7(Left13(r)));
    UnRight7Inverse(Left13(r));
    UnLeft13Inverse(r);
  }

  /** Distinct registers give distinct draws. */
  lemma NextInjective(r: Word, s: Word)
    requires Next(r) == Next(s)
    ensures r == s
  {
    PrevScramble(r.bits);
    PrevScramble(s.bits);
  }

  /** The first draw from register 1 (a reproducibility vector). */
  lemma NextOfOne()
    ensures Next(Word(1)) == Word(0x4082_2041)
  {
  }

  /** The register after `n` draws. */
  function Iterate(r: Word, n: nat): Word
  {
    if n == 0 then r else Next(Iterate(r, n - 1))
  }

  /** The bond test `rnd > prob_bond` on one draw. */
  predicate Accepts(x: Word, threshold: Word)
  {
    x.bits > threshold.bits
  }

  /** How many of the first `n` draws from `r` pass the bond test. */
  function Accepted(r: Word, n: nat, threshold: Word): nat
  {
    if n == 0 then 0
    else Accepted(r, n - 1, threshold) + (if Accepts(Iterate(r, n), threshold) then 1 else 0)
  }

  /** A seed other than zero keeps the register nonzero for ever. */
  lemma {:induction false} IterateNonzero(r: Word, n: nat)
    requires r.bits != 0
    ensures Iterate(r, n).bits != 0
  {
    if n > 0 {
      IterateNonzero(r, n - 1);
    }
  }

  /** Drawing `m` times and then `n` times is drawing `m + n` times. */
  lemma {:induction false} IterateAdd(r: Word, m: nat, n: nat)
    ensures Iterate(Iterate(r, m), n) == Iterate(r, m + n)
  {
    if n > 0 {
      IterateAdd(r, m, n - 1);
    }
  }

  /** `m` steps, one draw, then `n` steps make `m + 1 + n` steps. */
  lemma DrawThenRun(r: Word, b: Word, x: Word, m: nat, n: nat, total: nat)
    requires b == Iterate(r, m) && x == Iterate(Next(b), n) && total == m + 1 + n
    ensures x == Iterate(r, total)
  {
    IterateAdd(r, m, 1 + n);
    IterateAdd(Iterate(r, m), 1, n);
  }

  /** The accepted draws of `m + n` steps are those of the first `m` steps
      plus those of the `n` steps made from the register they leave behind. */
  lemma {:induction false} AcceptedAdd(r: Word, m: nat, n: nat, threshold: Word)
    ensures Accepted(r, m + n, threshold) == Accepted(r, m, threshold) + Accepted(Iterate(r, m), n, threshold)
  {
    if n > 0 {
      AcceptedAdd(r, m, n - 1, threshold);
      IterateAdd(r, m, n);
    }
  }

  /** `x` is the register after `d` draws from `r`, and `a` of those draws
      passed the bond test. */
  predicate Ledger(r: Word, d: nat, threshold: Word, x: Word, a: nat)
  {
    x == Iterate(r, d) && a == Accepted(r, d, threshold)
  }

  /** A single draw: the register moves one step, and the draw is accepted
      exactly when it passes the bond test. */
  lemma OneDraw(r: Word, threshold: Word)
    ensures Ledger(r, 1, threshold, Next(r), if Accepts(Next(r), threshold) then 1 else 0)
  {
  }

  /** Two runs of draws made one after the other are one run: the registers
      chain and the accepted counts add up. */
  lemma RunsCompose(r: Word, d: nat, e: nat, total: nat, threshold: Word,
                    mid: Word, end: Word, a: nat, b: nat, sum: nat)
    requires Ledger(r, d, threshold, mid, a) && Ledger(mid, e, threshold, end, b)
    requires total == d + e && sum == a + b
    ensures Ledger(r, total, threshold, end, sum)
  {
    IterateAdd(r, d, e);
    AcceptedAdd(r, d, e, threshold);
  }

  /** No run of draws accepts more bonds than it has draws. */
  lemma {:induction false} AcceptedBound(r: Word, n: nat, threshold: Word)
    ensures Accepted(r, n, threshold) <= n
  {
    if n > 0 {
      AcceptedBound(r, n - 1, threshold);
    }
  }
}
