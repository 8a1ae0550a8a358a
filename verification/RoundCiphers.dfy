/** Block ciphers built from rounds, over any set of states: decryption runs the inverse steps backwards. */
module RoundCiphers {

  /** What a round is made of, with what is meant to undo it. */
  datatype Pieces<!T> = Pieces(
    scramble: T -> T, unscramble: T -> T,
    mix: T -> T, unmix: T -> T,
    key: (T, nat) -> T)

  ghost predicate Undoing<T(!new)>(p: Pieces<T>) {
    && (forall s :: p.unscramble(p.scramble(s)) == s)
    && (forall s :: p.unmix(p.mix(s)) == s)
    && (forall s, r :: p.key(p.key(s, r), r) == s)
  }

  /** The state after the first n rounds; round 0 only adds a key. */
  function Rounds<T>(p: Pieces<T>, s: T, n: nat): T
    decreases n
  {
    if n == 0 then p.key(s, 0) else p.key(p.mix(p.scramble(Rounds(p, s, n - 1))), n)
  }

  /** The state after rounds n down to i + 1 have been taken back. */
  function Unrounds<T>(p: Pieces<T>, s: T, n: nat, i: nat): T
    requires i <= n
    decreases n - i
  {
    if i == n then s else p.unmix(p.key(p.unscramble(Unrounds(p, s, n, i + 1)), i + 1))
  }

  /** The last round does not mix. */
  function Encrypted<T>(p: Pieces<T>, s: T, rounds: nat): T
    requires rounds > 0
  {
    p.key(p.scramble(Rounds(p, s, rounds - 1)), rounds)
  }

  function Decrypted<T>(p: Pieces<T>, s: T, rounds: nat): T
    requires rounds > 0
  {
    p.key(p.unscramble(Unrounds(p, p.key(s, rounds), rounds - 1, 0)), 0)
  }

  /** The cipher read from the front: s has the key of round r, and the rounds behind it follow. */
  function Onward<T>(p: Pieces<T>, s: T, r: nat, rounds: nat): T
    requires r < rounds
    decreases rounds - r
  {
    if r + 1 == rounds then p.key(p.scramble(s), rounds)
    else Onward(p, p.key(p.mix(p.scramble(s)), r + 1), r + 1, rounds)
  }

  lemma {:induction false} OnwardFrom<T>(p: Pieces<T>, s: T, r: nat, rounds: nat)
    requires r < rounds
    ensures Onward(p, Rounds(p, s, r), r, rounds) == Encrypted(p, s, rounds)
    decreases rounds - r
  {
    if r + 1 < rounds {
      OnwardFrom(p, s, r + 1, rounds);
    }
  }

  /** A key first, then rounds that scramble, mix and take a key, and a last one without the mixing. */
  lemma {:induction false} EncryptedOnward<T>(p: Pieces<T>, s: T, rounds: nat)
    requires rounds > 0
    ensures Encrypted(p, s, rounds) == Onward(p, p.key(s, 0), 0, rounds)
  {
    OnwardFrom(p, s, 0, rounds);
  }

  lemma {:induction false} UnroundsStart<T>(p: Pieces<T>, s: T, n: nat)
    ensures Unrounds(p, s, n, n) == s
  {
  }

  lemma {:induction false} UnroundsNext<T>(p: Pieces<T>, s: T, n: nat, i: nat)
    requires 0 < i <= n
    ensures Unrounds(p, s, n, i - 1) == p.unmix(p.key(p.unscramble(Unrounds(p, s, n, i)), i))
  {
  }

  lemma {:induction false} RoundsNext<T>(p: Pieces<T>, s: T, n: nat, t: T)
    requires 0 < n && t == Rounds(p, s, n - 1)
    ensures Rounds(p, s, n) == p.key(p.mix(p.scramble(t)), n)
  {
  }

  lemma {:induction false} EncryptedIs<T>(p: Pieces<T>, s: T, rounds: nat, t: T)
    requires rounds > 0 && t == Rounds(p, s, rounds - 1)
    ensures Encrypted(p, s, rounds) == p.key(p.scramble(t), rounds)
  {
  }

  lemma {:induction false} DecryptedIs<T>(p: Pieces<T>, s: T, rounds: nat, t: T, u: T, i: nat)
    requires rounds > 0 && t == p.key(s, rounds) && i == 0 && u == Unrounds(p, t, rounds - 1, i)
    ensures Decrypted(p, s, rounds) == p.key(p.unscramble(u), 0)
  {
  }

  /** Going back retraces the states of the encryption, in their scrambled form. */
  lemma {:induction false} UnroundsRounds<T(!new)>(p: Pieces<T>, s: T, n: nat, i: nat)
    requires Undoing(p) && i <= n
    ensures Unrounds(p, p.scramble(Rounds(p, s, n)), n, i) == p.scramble(Rounds(p, s, i))
    decreases n - i
  {
    if i < n {
      UnroundsRounds(p, s, n, i + 1);
    }
  }

  /** Decryption undoes encryption. */
  lemma {:induction false} DecryptedEncrypted<T(!new)>(p: Pieces<T>, s: T, rounds: nat)
    requires Undoing(p) && rounds > 0
    ensures Decrypted(p, Encrypted(p, s, rounds), rounds) == s
  {
    UnroundsRounds(p, s, rounds - 1, 0);
  }
}
