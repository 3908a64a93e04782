/**
 Machine integers, unsigned clock arithmetic and the few sequence helpers that
 every other module uses.
 */
module Base {

  type u8 = x: int | 0 <= x < 0x100
  type u16 = x: int | 0 <= x < 0x1_0000
  type u32 = x: int | 0 <= x < 0x1_0000_0000
  type u64 = x: int | 0 <= x < 0x1_0000_0000_0000_0000

  /** A packet buffer, by identity. */
  type Mbuf = nat

  datatype Option<+T> = None | Some(value: T)

  function Min(a: int, b: int): int {
    if a < b then a else b
  }

  /** `now - since` on uint64_t: wraps when the clock went backwards. */
  function Age(now: u64, since: u64): u64 {
    if since <= now then now - since else now - since + 0x1_0000_0000_0000_0000
  }

  ghost predicate NoDup<T>(s: seq<T>) {
    forall i, j :: 0 <= i < j < |s| ==> s[i] != s[j]
  }

  /** `s` with the element at index `i` erased. */
  function Without<T>(s: seq<T>, i: nat): (r: seq<T>)
    requires i < |s|
    ensures |r| == |s| - 1
    ensures forall k :: 0 <= k < |r| ==> r[k] == if k < i then s[k] else s[k + 1]
  {
    s[..i] + s[i + 1..]
  }

  lemma WithoutMembers<T>(s: seq<T>, i: nat)
    requires i < |s|
    requires NoDup(s)
    ensures NoDup(Without(s, i))
    ensures forall x :: x in Without(s, i) <==> x in s && x != s[i]
  {
    var r := Without(s, i);
    forall x | x in s && x != s[i]
      ensures x in r
    {
      var k :| 0 <= k < |s| && s[k] == x;
      assert r[if k < i then k else k - 1] == x;
    }
  }

  lemma NoDupAppend<T>(s: seq<T>, x: T)
    requires NoDup(s) && x !in s
    ensures NoDup(s + [x])
  {
  }

  lemma MulGrows(d: int, n: nat)
    requires 0 < n
    ensures d >= 1 ==> d * n >= n
    ensures d <= -1 ==> d * n <= -(n as int)
  {
  }

  /** Quotient and remainder are the only ones there are. */
  lemma DivModUnique(x: int, n: nat, q: int, r: nat)
    requires 0 < n && r < n && x == q * n + r
    ensures x / n == q && x % n == r
  {
    assert x == x / n * n + x % n;
    assert (x / n - q) * n == x / n * n - q * n;
    MulGrows(x / n - q, n);
  }

  /** How often `x` occurs in `s`. */
  ghost function Occurrences<T>(s: seq<T>, x: T): nat {
    if s == [] then 0 else Occurrences(s[..|s| - 1], x) + if s[|s| - 1] == x then 1 else 0
  }

  lemma Assoc<T>(a: seq<T>, b: seq<T>, c: seq<T>)
    ensures a + b + c == a + (b + c)
  {
  }
}
