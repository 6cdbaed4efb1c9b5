/** Index arithmetic of ring buffers. */
module Rings {

  /** The slot `i` places after `start` in a ring of `n` slots. */
  function Slot(start: nat, i: nat, n: nat): nat {
    if start + i < n then start + i else start + i - n
  }

  /** Within two turns, the remainder is a single wrap-around. */
  lemma WrapIsModulo(start: nat, i: nat, n: nat)
    requires 0 < n && start + i < 2 * n
    ensures (start + i) % n == Slot(start, i, n) < n
  {
  }

  /** The slot `k` places before `next`. */
  function Back(next: nat, k: nat, n: nat): nat
    requires k <= n
  {
    if next >= k then next - k else next - k + n
  }

  /** Stepping back by less and skipping the difference reach the same slots. */
  lemma BackSkip(next: nat, len: nat, take: nat, i: nat, n: nat)
    requires next < n && take <= len <= n && i < take
    ensures Slot(Back(next, take, n), i, n) == Slot(Back(next, len, n), len - take + i, n)
  {
  }

  method StepBack(next: nat, k: nat, n: nat) returns (slot: nat)
    requires next < n && k <= n
    ensures slot == Back(next, k, n) < n
  {
    WrapIsModulo(next - k + n, 0, n);
    slot := (next - k + n) % n;
  }

  /** The remainder that the ring code takes, as a slot. */
  method Wrap(start: nat, i: nat, n: nat) returns (slot: nat)
    requires 0 < n && start + i < 2 * n
    ensures slot == Slot(start, i, n) < n
  {
    WrapIsModulo(start, i, n);
    slot := (start + i) % n;
  }
}
