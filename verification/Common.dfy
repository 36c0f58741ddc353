/** Small shared vocabulary. */
module Common {
  datatype Option<+T> = None | Some(value: T)

  /** A byte, as the character it stands for. */
  type Octet = c: char | c < '\U{100}'

  const NUL: Octet := '\0'

  const TWO_16: nat := 0x1_0000
  const TWO_32: nat := 0x1_0000_0000

  function Min(a: int, b: int): int { if a < b then a else b }

  /** A 32-bit counter that has been reduced at every step is the sum reduced once. */
  lemma ModAdd(sum: int, n: int)
    ensures (sum % TWO_32 + n) % TWO_32 == (sum + n) % TWO_32
  {
  }

  lemma ModAdd16(sum: int, n: int)
    ensures (sum % TWO_16 + n) % TWO_16 == (sum + n) % TWO_16
  {
  }

  /** Consecutive 16-bit values from k on, as the queue demos post them. */
  ghost predicate Consecutive(q: seq<nat>, k: nat) {
    forall i :: 0 <= i < |q| ==> q[i] == (k + i) % TWO_16
  }

  lemma ConsecutivePush(q: seq<nat>, k: nat)
    requires Consecutive(q, k)
    ensures Consecutive(q + [(k + |q|) % TWO_16], k)
  {
  }

  lemma ConsecutivePop(q: seq<nat>, k: nat)
    requires Consecutive(q, k) && q != []
    ensures q[0] == k % TWO_16 && Consecutive(q[1..], k + 1)
  {
    assert q[0] == (k + 0) % TWO_16;
    forall i | 0 <= i < |q[1..]| ensures q[1..][i] == (k + 1 + i) % TWO_16 {
      assert q[1..][i] == q[i + 1] == (k + (i + 1)) % TWO_16;
    }
  }

  lemma ConsecutiveMod(q: seq<nat>, k: nat)
    requires Consecutive(q, k)
    ensures Consecutive(q, k % TWO_16)
  {
    forall i | 0 <= i < |q| ensures q[i] == (k % TWO_16 + i) % TWO_16 {
      ModAdd16(k, i);
    }
  }

  lemma MulLe(d: nat, x: int, y: int)
    requires x <= y
    ensures d * x <= d * y
  {
  }

  lemma MulCancel(d: nat, x: int, y: int)
    requires d * x < d * y
    ensures x < y
  {
    if y <= x { MulLe(d, y, x); }
  }

  lemma {:induction false} DivUnique(a: nat, d: nat, q: nat, r: nat)
    requires a == d * q + r && r < d
    ensures a / d == q && a % d == r
  {
    var q', r' := a / d, a % d;
    assert d * q + r == d * q' + r';
    MulCancel(d, q, q' + 1);
    MulCancel(d, q', q + 1);
  }
}
