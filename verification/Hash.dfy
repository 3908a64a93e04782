/**
 The flow hash of the `mod` policy (src/upstream.cpp) on 32-bit words, and its inverse: for a fixed
 source port the hash is a permutation of the addresses.
 */
module Hashing {
  import opened Base

  const WORD := 0x1_0000_0000

  /** Bitwise exclusive or. */
  function Xor(a: nat, b: nat): nat {
    if a == 0 then b
    else if b == 0 then a
    else 2 * Xor(a / 2, b / 2) + if a % 2 == b % 2 then 0 else 1
  }

  /** `hash_key` on the source address and port. */
  function Hash(ip: u32, port: u16): u32 {
    var h1 := Xor(ip, PortWord(port));
    var h2 := Xor(h1, h1 / 0x1_0000) * 0x85eb_ca6b % WORD;
    Powers();
    XorBelow(ip, PortWord(port), WORD);
    XorBelow(h1, h1 / 0x1_0000, WORD);
    XorBelow(h2, h2 / 0x2000, WORD);
    Xor(h2, h2 / 0x2000)
  }

  function PortWord(port: u16): u32 {
    port * 0x9e37_79b9 % WORD
  }

  /** The address with a given hash: each round of the hash undone, last round first. */
  function Unhash(v: u32, port: u16): u32 {
    var h2 := Xor(Xor(v, v / 0x2000), v / 0x400_0000);
    var m := h2 * 0xa5cb_9243 % WORD;
    var h1 := Xor(m, m / 0x1_0000);
    Powers();
    XorBelow(m, m / 0x1_0000, WORD);
    XorBelow(h1, PortWord(port), WORD);
    Xor(h1, PortWord(port))
  }

  // ------------------------------------------------------------ exclusive or

  lemma {:induction false} XorBelow(a: nat, b: nat, n: nat)
    requires a < n && b < n && IsPower(n)
    ensures Xor(a, b) < n
  {
    if a != 0 && b != 0 {
      XorBelow(a / 2, b / 2, n / 2);
    }
  }

  predicate IsPower(n: nat) {
    n == 1 || (n >= 2 && n % 2 == 0 && IsPower(n / 2))
  }

  /** One bit at a time. */
  lemma XorBits(a: nat, b: nat)
    ensures Xor(a, b) / 2 == Xor(a / 2, b / 2)
    ensures Xor(a, b) % 2 == if a % 2 == b % 2 then 0 else 1
  {
  }

  lemma {:induction false} XorSymmetric(a: nat, b: nat)
    ensures Xor(a, b) == Xor(b, a)
  {
    if a != 0 && b != 0 {
      XorSymmetric(a / 2, b / 2);
    }
  }

  lemma {:induction false} XorSelf(a: nat)
    ensures Xor(a, a) == 0
  {
    if a != 0 {
      XorSelf(a / 2);
    }
  }

  lemma SameBits(a: nat, b: nat)
    requires a / 2 == b / 2 && a % 2 == b % 2
    ensures a == b
  {
  }

  lemma {:induction false} XorAssociative(a: nat, b: nat, c: nat)
    ensures Xor(Xor(a, b), c) == Xor(a, Xor(b, c))
    decreases a + b + c
  {
    if a != 0 && b != 0 && c != 0 {
      XorAssociative(a / 2, b / 2, c / 2);
      XorBits(a, b);
      XorBits(b, c);
      XorBits(Xor(a, b), c);
      XorBits(a, Xor(b, c));
      hide Xor;
      SameBits(Xor(Xor(a, b), c), Xor(a, Xor(b, c)));
    }
  }

  /** The second of two equal words cancels. */
  lemma XorTwice(a: nat, b: nat)
    ensures Xor(Xor(a, b), b) == a
  {
    XorAssociative(a, b, b);
    XorSelf(b);
    hide Xor;
    XorZero(a);
  }

  lemma XorZero(a: nat)
    ensures Xor(a, 0) == a && Xor(0, a) == a
  {
  }

  /** Shifting right distributes. */
  lemma {:induction false} XorShift(a: nat, b: nat, n: nat)
    requires 0 < n && IsPower(n)
    ensures a / n >= 0 && b / n >= 0 && Xor(a, b) / n == Xor(a / n, b / n)
    decreases n
  {
    if n > 1 {
      XorBits(a, b);
      XorShift(a / 2, b / 2, n / 2);
      hide Xor, IsPower;
      DivTwice(Xor(a, b), n / 2);
      DivTwice(a, n / 2);
      DivTwice(b, n / 2);
    }
  }

  lemma DivTwice(x: nat, m: nat)
    requires 0 < m
    ensures x / (2 * m) == x / 2 / m
  {
    var q, r := x / 2 / m, x / 2 % m;
    assert x / 2 == q * m + r;
    assert x == q * (2 * m) + (2 * r + x % 2);
    DivModUnique(x, 2 * m, q, 2 * r + x % 2);
  }

  // ------------------------------------------------------------- each round

  lemma Powers()
    ensures IsPower(WORD) && IsPower(0x1_0000) && IsPower(0x2000) && IsPower(0x400_0000)
  {
    assert IsPower(0x2000) by { assert IsPower(0x40) && IsPower(0x80) && IsPower(0x200) && IsPower(0x800); }
    assert IsPower(0x8000) && IsPower(0x1_0000) && IsPower(0x4_0000) && IsPower(0x10_0000);
    assert IsPower(0x40_0000) && IsPower(0x100_0000) && IsPower(0x400_0000);
    assert IsPower(0x1000_0000) && IsPower(0x4000_0000);
  }

  lemma Round16(x: u32)
    ensures var y := Xor(x, x / 0x1_0000); Xor(y, y / 0x1_0000) == x
  {
    var s := x / 0x1_0000;
    var y := Xor(x, s);
    Powers();
    XorShift(x, s, 0x1_0000);
    assert s / 0x1_0000 == 0;
    hide Xor, IsPower;
    XorZero(s);
    XorTwice(x, s);
  }

  /** Undoing a shift by 13. */
  lemma Round13(x: u32)
    ensures var y := Xor(x, x / 0x2000); Xor(Xor(y, y / 0x2000), y / 0x400_0000) == x
  {
    var a, b := x / 0x2000, x / 0x400_0000;
    var y := Xor(x, a);
    Powers();
    XorShift(x, a, 0x2000);
    XorShift(x, a, 0x400_0000);
    assert a / 0x2000 == b && a / 0x400_0000 == 0;
    hide Xor, IsPower;
    XorZero(b);
    assert y / 0x2000 == Xor(a, b) && y / 0x400_0000 == b;
    XorAssociative(y, Xor(a, b), b);
    XorTwice(a, b);
    XorTwice(x, a);
  }

  /** The other way round. */
  lemma Unround13(v: u32)
    ensures var y := Xor(Xor(v, v / 0x2000), v / 0x400_0000); Xor(y, y / 0x2000) == v
  {
    var a, b := v / 0x2000, v / 0x400_0000;
    var y := Xor(Xor(v, a), b);
    Powers();
    XorShift(Xor(v, a), b, 0x2000);
    XorShift(v, a, 0x2000);
    assert a / 0x2000 == b && b / 0x2000 == 0;
    hide Xor, IsPower;
    XorZero(Xor(a, b));
    assert y / 0x2000 == Xor(a, b);
    XorAssociative(v, a, b);
    XorTwice(v, Xor(a, b));
  }

  lemma RoundTimes(x: u32)
    ensures x * 0x85eb_ca6b % WORD * 0xa5cb_9243 % WORD == x
    ensures x * 0xa5cb_9243 % WORD * 0x85eb_ca6b % WORD == x
  {
    TimesBack(x, 0x85eb_ca6b, 0xa5cb_9243, 0x56bb_77f4);
    TimesBack(x, 0xa5cb_9243, 0x85eb_ca6b, 0x56bb_77f4);
  }

  /** Multiplication by inverse factors. */
  lemma TimesBack(x: u32, c: nat, d: nat, k: nat)
    requires c * d == k * WORD + 1
    ensures x * c % WORD * d % WORD == x
  {
    var q, r := x * c / WORD, x * c % WORD;
    calc {
      r * d;
      (x * c - q * WORD) * d;
      { Distribute(x * c, q * WORD, d); }
      x * c * d - q * WORD * d;
      { TimesAssociative(x, c, d); }
      x * (k * WORD + 1) - q * WORD * d;
      { TimesAssociative(x, k, WORD); TimesSwap(q, WORD, d); }
      x * k * WORD + x - q * d * WORD;
      { Distribute(x * k, q * d, WORD); }
      (x * k - q * d) * WORD + x;
    }
    DivModUnique(r * d, WORD, x * k - q * d, x);
  }

  lemma Distribute(a: int, b: int, c: int)
    ensures (a - b) * c == a * c - b * c
  {
  }

  lemma TimesAssociative(a: int, b: int, c: int)
    ensures a * b * c == a * (b * c)
  {
  }

  lemma TimesSwap(a: int, b: int, c: int)
    ensures a * b * c == a * c * b
  {
  }

  // ---------------------------------------------------------- the whole hash

  /** The inverse gives back the address. */
  lemma UnhashHash(ip: u32, port: u16)
    ensures Unhash(Hash(ip, port), port) == ip
  {
    var p := PortWord(port);
    var h1 := Xor(ip, p);
    var x := Xor(h1, h1 / 0x1_0000);
    Powers();
    XorBelow(ip, p, WORD);
    XorBelow(h1, h1 / 0x1_0000, WORD);
    hide Xor, IsPower;
    RoundTimes(x);
    Round13(x * 0x85eb_ca6b % WORD);
    Round16(h1);
    XorTwice(ip, p);
  }

  /** And every word is the hash of the address that the inverse gives. */
  lemma HashUnhash(v: u32, port: u16)
    ensures Hash(Unhash(v, port), port) == v
  {
    var p := PortWord(port);
    var h2 := Xor(Xor(v, v / 0x2000), v / 0x400_0000);
    var m := h2 * 0xa5cb_9243 % WORD;
    var h1 := Xor(m, m / 0x1_0000);
    Powers();
    XorBelow(v, v / 0x2000, WORD);
    XorBelow(Xor(v, v / 0x2000), v / 0x400_0000, WORD);
    XorBelow(m, m / 0x1_0000, WORD);
    XorBelow(h1, p, WORD);
    hide Xor, IsPower;
    XorTwice(h1, p);
    Round16(m);
    RoundTimes(h2);
    Unround13(v);
  }

  /** For a fixed source port, different addresses have different hashes. */
  lemma HashInjective(a: u32, b: u32, port: u16)
    requires Hash(a, port) == Hash(b, port)
    ensures a == b
  {
    UnhashHash(a, port);
    UnhashHash(b, port);
  }
}
