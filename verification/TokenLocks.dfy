/**
  The abstract lock both distributed lockers implement: a key is free or held under a token that was
  never used before, and only that token takes it away again.
*/
module TokenLocks {

  type Key = string

  type Token = nat

  /** A key held under a token by one locker instance. */
  datatype Lease = Lease(instance: nat, key: Key, token: Token)

  /** A lock is freed by a release that carries its token, or by its own expiry. */
  datatype Event =
    | Acquired(key: Key, token: Token)
    | Freed(key: Key, token: Token)
    | Expired(key: Key, token: Token)

  datatype Locks = Locks(held: map<Key, Token>, used: set<Token>)

  const NO_LOCKS := Locks(map[], {})

  predicate Allowed(s: Locks, e: Event) {
    match e
    case Acquired(k, t) => k !in s.held && t !in s.used
    case Freed(k, t) => k in s.held && s.held[k] == t
    case Expired(k, t) => k in s.held && s.held[k] == t
  }

  function After(s: Locks, e: Event): Locks {
    match e
    case Acquired(k, t) => Locks(s.held[k := t], s.used + {t})
    case Freed(k, t) => s.(held := s.held - {k})
    case Expired(k, t) => s.(held := s.held - {k})
  }

  predicate Permits(s: Locks, trace: seq<Event>)
    decreases |trace|
  {
    trace == [] || (Allowed(s, trace[0]) && Permits(After(s, trace[0]), trace[1..]))
  }

  function Outcome(s: Locks, trace: seq<Event>): Locks
    decreases |trace|
  {
    if trace == [] then s else Outcome(After(s, trace[0]), trace[1..])
  }

  lemma {:induction false} PermitsAppend(s: Locks, a: seq<Event>, b: seq<Event>)
    ensures Permits(s, a + b) <==> Permits(s, a) && Permits(Outcome(s, a), b)
    ensures Outcome(s, a + b) == Outcome(Outcome(s, a), b)
    decreases |a|
  {
    if a == [] {
      assert a + b == b;
    } else {
      assert (a + b)[0] == a[0] && (a + b)[1..] == a[1..] + b;
      PermitsAppend(After(s, a[0]), a[1..], b);
    }
  }

  lemma OneEvent(abs: Locks, e: Event)
    ensures Permits(abs, [e]) <==> Allowed(abs, e)
    ensures Outcome(abs, [e]) == After(abs, e)
  {
    assert [e][1..] == [];
    assert Permits(After(abs, e), []);
  }

  predicate Removes(e: Event, k: Key, t: Token) {
    e == Freed(k, t) || e == Expired(k, t)
  }

  /** A key held under `t` is acquired again only after an event removed exactly `t`. */
  lemma {:induction false} HeldUntilRemoved(s: Locks, trace: seq<Event>, j: nat, k: Key, t: Token) returns (m: nat)
    requires Permits(s, trace) && k in s.held && s.held[k] == t
    requires j < |trace| && trace[j].Acquired? && trace[j].key == k
    ensures m < j && Removes(trace[m], k, t)
    decreases j
  {
    if Removes(trace[0], k, t) {
      return 0;
    }
    var i := HeldUntilRemoved(After(s, trace[0]), trace[1..], j - 1, k, t);
    m := i + 1;
  }

  /** Two acquisitions of one key are separated by a removal that carries the first one's token. */
  lemma {:induction false} AcquisitionsSeparated(s: Locks, trace: seq<Event>, i: nat, j: nat) returns (m: nat)
    requires Permits(s, trace) && i < j < |trace|
    requires trace[i].Acquired? && trace[j].Acquired? && trace[i].key == trace[j].key
    ensures i < m < j && Removes(trace[m], trace[i].key, trace[i].token)
    decreases i
  {
    var next := After(s, trace[0]);
    var n: nat;
    if i == 0 {
      n := HeldUntilRemoved(next, trace[1..], j - 1, trace[i].key, trace[i].token);
    } else {
      n := AcquisitionsSeparated(next, trace[1..], i - 1, j - 1);
    }
    m := n + 1;
  }

  lemma {:induction false} UsedGrows(s: Locks, trace: seq<Event>, t: Token)
    requires Permits(s, trace) && t in s.used
    ensures t in Outcome(s, trace).used
    ensures forall j :: 0 <= j < |trace| && trace[j].Acquired? ==> trace[j].token != t
    decreases |trace|
  {
    if trace != [] {
      UsedGrows(After(s, trace[0]), trace[1..], t);
      forall j | 0 <= j < |trace| && trace[j].Acquired? ensures trace[j].token != t {
        if j > 0 {
          assert trace[j] == trace[1..][j - 1];
        }
      }
    }
  }

  /** No token is granted twice. */
  lemma {:induction false} TokensDistinct(s: Locks, trace: seq<Event>, i: nat, j: nat)
    requires Permits(s, trace) && i < j < |trace| && trace[i].Acquired? && trace[j].Acquired?
    ensures trace[i].token != trace[j].token
    decreases i
  {
    var next := After(s, trace[0]);
    assert trace[j] == trace[1..][j - 1];
    if i == 0 {
      UsedGrows(next, trace[1..], trace[0].token);
    } else {
      TokensDistinct(next, trace[1..], i - 1, j - 1);
    }
  }

  /** A removed token stays removed: no later event carries it. */
  lemma {:induction false} RemovedOnce(s: Locks, trace: seq<Event>, i: nat, j: nat)
    requires Permits(s, trace) && TokensHeldUsed(s) && i < j < |trace|
    requires trace[i].Freed? || trace[i].Expired?
    ensures trace[j].token != trace[i].token || trace[j].key != trace[i].key
    decreases i
  {
    var next, e := After(s, trace[0]), trace[0];
    assert trace[j] == trace[1..][j - 1];
    if i == 0 {
      GoneForGood(next, trace[1..], e.key, e.token, j - 1);
    } else {
      RemovedOnce(next, trace[1..], i - 1, j - 1);
    }
  }

  predicate TokensHeldUsed(s: Locks) {
    forall k :: k in s.held ==> s.held[k] in s.used
  }

  lemma {:induction false} GoneForGood(s: Locks, trace: seq<Event>, k: Key, t: Token, j: nat)
    requires Permits(s, trace) && t in s.used && (k in s.held ==> s.held[k] != t) && j < |trace|
    ensures trace[j].token != t || trace[j].key != k
    decreases j
  {
    if j > 0 {
      assert trace[j] == trace[1..][j - 1];
      GoneForGood(After(s, trace[0]), trace[1..], k, t, j - 1);
    }
  }
}
