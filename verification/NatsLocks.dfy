/**
  The locker over a revisioned key-value store, as a step system. Instances acquire by creating the
  key, remember the token locally some time later, and release in separate steps: read the entry,
  delete it if its revision is still the one read, then forget it locally. Timers start releases too.
*/
module NatsLocks {
  import opened TokenLocks

  datatype Stored = Stored(token: Token, revision: nat)

  /** What a goroutine of some instance is about to do. */
  datatype Thread =
    | Register(lease: Lease)
    | Read(lease: Lease)
    | Delete(lease: Lease, revision: nat)
    | Forget(lease: Lease)

  datatype State = State(
    kv: map<Key, Stored>,
    revision: nat,
    used: set<Token>,
    local: map<(nat, Key), Token>,
    timers: set<Lease>,
    threads: multiset<Thread>)

  const INITIAL := State(map[], 0, {}, map[], {}, multiset{})

  /** `answered` is false when the store acts but its reply is lost; `failed` when it does not act. */
  datatype Action =
    | TryLock(lease: Lease, ttl: bool, answered: bool)
    | CallRelease(instance: nat, key: Key)
    | Fire(timer: Lease)
    | Run(thread: Thread, failed: bool, answered: bool)

  predicate Enabled(s: State, a: Action) {
    match a
    case TryLock(l, _, _) => l.token !in s.used
    case CallRelease(_, _) => true
    case Fire(l) => l in s.timers
    case Run(t, _, _) => t in s.threads
  }

  function Spawn(s: State, t: Thread): State {
    s.(threads := s.threads + multiset{t})
  }

  /** `TryLock`: creating an existing key fails and grants nothing. */
  function Create(s: State, l: Lease, ttl: bool, answered: bool): State {
    if l.key in s.kv then s.(used := s.used + {l.token})
    else
      var granted := s.(kv := s.kv[l.key := Stored(l.token, s.revision + 1)], revision := s.revision + 1,
                        used := s.used + {l.token});
      if !answered then granted
      else Spawn(granted.(timers := if ttl then s.timers + {l} else s.timers), Register(l))
  }

  /** `Release` reads the token remembered for the key. */
  function Release(s: State, instance: nat, key: Key): State {
    if (instance, key) in s.local then Spawn(s, Read(Lease(instance, key, s.local[(instance, key)]))) else s
  }

  /** `cleanupLocal`: forget the entry and stop its timer, if it is still this token's. */
  function Cleanup(s: State, l: Lease): State {
    if (l.instance, l.key) in s.local && s.local[(l.instance, l.key)] == l.token then
      s.(local := s.local - {(l.instance, l.key)}, timers := s.timers - {l})
    else s
  }

  predicate Current(s: State, k: Key, revision: nat) {
    k in s.kv && s.kv[k].revision == revision
  }

  /** The next step of a goroutine, which has been taken out of `threads`. */
  function Advance(s: State, t: Thread, failed: bool, answered: bool): State {
    match t
    case Register(l) => s.(local := s.local[(l.instance, l.key) := l.token])
    case Read(l) =>
      if failed then s
      else if l.key !in s.kv then Spawn(s, Forget(l))
      else if s.kv[l.key].token != l.token then s
      else Spawn(s, Delete(l, s.kv[l.key].revision))
    case Delete(l, revision) =>
      if failed || !Current(s, l.key, revision) then s
      else
        var deleted := s.(kv := s.kv - {l.key}, revision := s.revision + 1);
        if answered then Spawn(deleted, Forget(l)) else deleted
    case Forget(l) => Cleanup(s, l)
  }

  function Apply(s: State, a: Action): State {
    match a
    case TryLock(l, ttl, answered) => Create(s, l, ttl, answered)
    case CallRelease(i, k) => Release(s, i, k)
    case Fire(l) => Spawn(s.(timers := s.timers - {l}), Read(l))
    case Run(t, failed, answered) => Advance(s.(threads := s.threads - multiset{t}), t, failed, answered)
  }

  /** The tokens an action takes and gives back: a deletion is labelled with the token its release carries. */
  function Label(s: State, a: Action): seq<Event> {
    match a
    case TryLock(l, _, _) => if l.key in s.kv then [] else [Acquired(l.key, l.token)]
    case Run(Delete(l, revision), failed, _) =>
      if !failed && Current(s, l.key, revision) then [Freed(l.key, l.token)] else []
    case _ => []
  }

  predicate Runs(s: State, acts: seq<Action>)
    decreases |acts|
  {
    acts == [] || (Enabled(s, acts[0]) && Runs(Apply(s, acts[0]), acts[1..]))
  }

  function Final(s: State, acts: seq<Action>): State
    decreases |acts|
  {
    if acts == [] then s else Final(Apply(s, acts[0]), acts[1..])
  }

  function Trace(s: State, acts: seq<Action>): seq<Event>
    decreases |acts|
  {
    if acts == [] then [] else Label(s, acts[0]) + Trace(Apply(s, acts[0]), acts[1..])
  }

  // ----- Refinement -----

  function Abstract(s: State): Locks {
    Locks(map k | k in s.kv :: s.kv[k].token, s.used)
  }

  /**
    A remembered revision is never ahead of the store, and while it is current the entry is the one
    that was read: it still holds the release's token.
  */
  predicate Remembered(s: State, t: Thread) {
    t.Delete? ==>
      t.revision <= s.revision && (Current(s, t.lease.key, t.revision) ==> s.kv[t.lease.key].token == t.lease.token)
  }

  ghost predicate Inv(s: State) {
    && (forall t :: t in s.threads ==> Remembered(s, t))
    && (forall k :: k in s.kv ==> s.kv[k].revision <= s.revision)
  }

  /** The store moves on: entries stay as they were or carry a revision never seen before. */
  ghost predicate Advances(s: State, after: State) {
    && s.revision <= after.revision
    && (forall k :: k in after.kv ==>
         (k in s.kv && after.kv[k] == s.kv[k]) || s.revision < after.kv[k].revision <= after.revision)
  }

  lemma AdvancesKeepsInv(s: State, after: State)
    requires Inv(s) && Advances(s, after)
    requires forall t :: t in after.threads ==> t in s.threads || Remembered(after, t)
    ensures Inv(after)
  {
    forall t | t in after.threads ensures Remembered(after, t) {
      if t in s.threads {
        assert Remembered(s, t);
      }
    }
  }

  lemma AdvanceInv(s: State, t: Thread, failed: bool, answered: bool)
    requires Inv(s)
    ensures Inv(Advance(s, t, failed, answered))
  {
    AdvancesKeepsInv(s, Advance(s, t, failed, answered));
  }

  lemma CreateInv(s: State, l: Lease, ttl: bool, answered: bool)
    requires Inv(s)
    ensures Inv(Create(s, l, ttl, answered))
  {
    AdvancesKeepsInv(s, Create(s, l, ttl, answered));
  }

  lemma StepInv(s: State, a: Action)
    requires Inv(s) && Enabled(s, a)
    ensures Inv(Apply(s, a))
  {
    match a
    case TryLock(l, ttl, answered) => CreateInv(s, l, ttl, answered);
    case CallRelease(i, k) => AdvancesKeepsInv(s, Apply(s, a));
    case Fire(l) => AdvancesKeepsInv(s, Apply(s, a));
    case Run(t, failed, answered) =>
      var rest := s.(threads := s.threads - multiset{t});
      AdvancesKeepsInv(s, rest);
      AdvanceInv(rest, t, failed, answered);
  }

  lemma CreateRefines(s: State, l: Lease, ttl: bool, answered: bool, abs: Locks)
    requires abs.held == Abstract(s).held && abs.used <= s.used && l.key !in s.kv && l.token !in s.used
    ensures Allowed(abs, Acquired(l.key, l.token))
    ensures After(abs, Acquired(l.key, l.token)).held == Abstract(Create(s, l, ttl, answered)).held
    ensures After(abs, Acquired(l.key, l.token)).used <= Create(s, l, ttl, answered).used
  {
  }

  lemma DeleteRefines(s: State, t: Thread, answered: bool, abs: Locks)
    requires t.Delete? && Remembered(s, t) && Current(s, t.lease.key, t.revision)
    requires abs.held == Abstract(s).held && abs.used <= s.used
    ensures var e := Freed(t.lease.key, t.lease.token);
            && Allowed(abs, e)
            && After(abs, e).held == Abstract(Advance(s, t, false, answered)).held
            && After(abs, e).used <= Advance(s, t, false, answered).used
  {
  }

  lemma QuietKeeps(s: State, a: Action)
    requires Label(s, a) == []
    ensures Apply(s, a).kv == s.kv && s.used <= Apply(s, a).used
  {
  }

  /** Every step is a step of the abstract lock, or leaves it as it is but for tokens thrown away. */
  lemma StepRefines(s: State, a: Action, abs: Locks)
    requires Inv(s) && Enabled(s, a)
    requires abs.held == Abstract(s).held && abs.used <= s.used
    ensures Permits(abs, Label(s, a))
    ensures Outcome(abs, Label(s, a)).held == Abstract(Apply(s, a)).held
    ensures Outcome(abs, Label(s, a)).used <= Apply(s, a).used
  {
    if Label(s, a) == [] {
      QuietKeeps(s, a);
    } else {
      OneEvent(abs, Label(s, a)[0]);
      if a.TryLock? {
        CreateRefines(s, a.lease, a.ttl, a.answered, abs);
      } else {
        assert Remembered(s, a.thread);
        DeleteRefines(s.(threads := s.threads - multiset{a.thread}), a.thread, a.answered, abs);
      }
    }
  }

  lemma {:induction false} RunRefines(s: State, acts: seq<Action>, abs: Locks)
    requires Inv(s) && Runs(s, acts)
    requires abs.held == Abstract(s).held && abs.used <= s.used
    ensures Permits(abs, Trace(s, acts))
    ensures Outcome(abs, Trace(s, acts)).held == Abstract(Final(s, acts)).held
    decreases |acts|
  {
    if acts != [] {
      var shown, next := Label(s, acts[0]), Apply(s, acts[0]);
      StepRefines(s, acts[0], abs);
      StepInv(s, acts[0]);
      RunRefines(next, acts[1..], Outcome(abs, shown));
      PermitsAppend(abs, shown, Trace(next, acts[1..]));
    }
  }

  /** Every interleaving is a run of the abstract lock. */
  lemma NatsRefinesTokenLock(acts: seq<Action>)
    requires Runs(INITIAL, acts)
    ensures Permits(NO_LOCKS, Trace(INITIAL, acts))
    ensures Outcome(NO_LOCKS, Trace(INITIAL, acts)).held == Abstract(Final(INITIAL, acts)).held
  {
    RunRefines(INITIAL, acts, NO_LOCKS);
  }

  /** Two grants of one key are separated by a deletion whose release carried the first grant's token. */
  lemma GrantsSeparated(acts: seq<Action>, i: nat, j: nat) returns (m: nat)
    requires Runs(INITIAL, acts)
    requires var trace := Trace(INITIAL, acts);
             i < j < |trace| && trace[i].Acquired? && trace[j].Acquired? && trace[i].key == trace[j].key
    ensures var trace := Trace(INITIAL, acts);
            i < m < j && trace[m] == Freed(trace[i].key, trace[i].token)
  {
    NatsRefinesTokenLock(acts);
    m := AcquisitionsSeparated(NO_LOCKS, Trace(INITIAL, acts), i, j);
    NeverExpires(INITIAL, acts);
  }

  lemma {:induction false} NeverExpires(s: State, acts: seq<Action>)
    requires Runs(s, acts)
    ensures forall i :: 0 <= i < |Trace(s, acts)| ==> !Trace(s, acts)[i].Expired?
    decreases |acts|
  {
    if acts != [] {
      NeverExpires(Apply(s, acts[0]), acts[1..]);
    }
  }

  // ----- Whether Release frees the lock -----

  /** A Release that runs to its end with nothing in between and no failure. */
  function ReleaseAlone(s: State, instance: nat, key: Key): State {
    if (instance, key) !in s.local then s
    else
      var l := Lease(instance, key, s.local[(instance, key)]);
      var s1 := Apply(s, CallRelease(instance, key));
      var s2 := Apply(s1, Run(Read(l), false, true));
      if key !in s.kv then Apply(s2, Run(Forget(l), false, true))
      else if s.kv[key].token != l.token then s2
      else Apply(Apply(s2, Run(Delete(l, s.kv[key].revision), false, true)), Run(Forget(l), false, true))
  }

  /** A Release frees a held lock exactly when the token remembered for the key is the one in the store. */
  lemma ReleaseFreesExactly(s: State, instance: nat, key: Key)
    requires key in s.kv
    ensures key !in ReleaseAlone(s, instance, key).kv
            <==> (instance, key) in s.local && s.local[(instance, key)] == s.kv[key].token
  {
  }

  lemma ReadAlone(s: State, l: Lease)
    ensures Apply(Spawn(s, Read(l)), Run(Read(l), false, true)) ==
              if l.key !in s.kv then Spawn(s, Forget(l))
              else if s.kv[l.key].token != l.token then s
              else Spawn(s, Delete(l, s.kv[l.key].revision))
  {
    assert s.threads + multiset{Read(l)} - multiset{Read(l)} == s.threads;
  }

  lemma DeleteAlone(s: State, l: Lease)
    requires l.key in s.kv
    ensures var t := Delete(l, s.kv[l.key].revision);
            Apply(Spawn(s, t), Run(t, false, true)) ==
              Spawn(s.(kv := s.kv - {l.key}, revision := s.revision + 1), Forget(l))
  {
    var t := Delete(l, s.kv[l.key].revision);
    assert s.threads + multiset{t} - multiset{t} == s.threads;
  }

  lemma ForgetAlone(s: State, l: Lease)
    ensures Apply(Spawn(s, Forget(l)), Run(Forget(l), false, true)) ==
              if Recalled(s, l) then s.(local := s.local - {(l.instance, l.key)}, timers := s.timers - {l}) else s
  {
    assert s.threads + multiset{Forget(l)} - multiset{Forget(l)} == s.threads;
  }

  /** A release by token, started and run to its end with nothing in between and no failure. */
  function TokenReleased(s: State, l: Lease): State {
    var read := Apply(Spawn(s, Read(l)), Run(Read(l), false, true));
    if l.key !in s.kv then Apply(read, Run(Forget(l), false, true))
    else if s.kv[l.key].token != l.token then read
    else Apply(Apply(read, Run(Delete(l, s.kv[l.key].revision), false, true)), Run(Forget(l), false, true))
  }

  /** It frees the key only if it is still its own, and then, or if the key is free, forgets its token and timer. */
  lemma TokenReleasedExactly(s: State, l: Lease)
    ensures var gone := if Recalled(s, l) then s.(local := s.local - {(l.instance, l.key)}, timers := s.timers - {l})
                        else s;
            TokenReleased(s, l) ==
              if l.key !in s.kv then gone
              else if s.kv[l.key].token != l.token then s
              else gone.(kv := s.kv - {l.key}, revision := s.revision + 1)
  {
    ReadAlone(s, l);
    if l.key !in s.kv {
      ForgetAlone(s, l);
    } else if s.kv[l.key].token == l.token {
      DeleteAlone(s, l);
      ForgetAlone(s.(kv := s.kv - {l.key}, revision := s.revision + 1), l);
    }
  }

  /** An undisturbed Release is the release of the remembered token. */
  lemma ReleaseAloneExactly(s: State, instance: nat, key: Key)
    ensures ReleaseAlone(s, instance, key) ==
              if (instance, key) in s.local then TokenReleased(s, Lease(instance, key, s.local[(instance, key)])) else s
  {
  }

  /** A timer that fires and runs to its end with nothing in between and no failure. */
  function TimerAlone(s: State, l: Lease): State {
    var s2 := Apply(Apply(s, Fire(l)), Run(Read(l), false, true));
    if l.key !in s.kv then Apply(s2, Run(Forget(l), false, true))
    else if s.kv[l.key].token != l.token then s2
    else Apply(Apply(s2, Run(Delete(l, s.kv[l.key].revision), false, true)), Run(Forget(l), false, true))
  }

  /** It is the release of the timer's own token. */
  lemma TimerAloneExactly(s: State, l: Lease)
    requires l in s.timers
    ensures TimerAlone(s, l) == TokenReleased(s.(timers := s.timers - {l}), l)
  {
  }

  /** A TryLock of a free key, with its registration landing at once. */
  function LockAlone(s: State, l: Lease, ttl: bool): State {
    Apply(Apply(s, TryLock(l, ttl, true)), Run(Register(l), false, true))
  }

  /** A taken key is left alone; a free one is held under the new token, remembered, and timed if it has to expire. */
  lemma LockAloneExactly(s: State, l: Lease, ttl: bool, answered: bool)
    ensures l.key in s.kv ==> Apply(s, TryLock(l, ttl, answered)) == s.(used := s.used + {l.token})
    ensures l.key !in s.kv ==>
              LockAlone(s, l, ttl) ==
                s.(kv := s.kv[l.key := Stored(l.token, s.revision + 1)],
                   revision := s.revision + 1,
                   used := s.used + {l.token},
                   local := s.local[(l.instance, l.key) := l.token],
                   timers := if ttl then s.timers + {l} else s.timers)
  {
    assert s.threads + multiset{Register(l)} - multiset{Register(l)} == s.threads;
  }

  /** Locking and then releasing, or letting the timer fire, leaves nothing but a used token and two revisions. */
  lemma LockThenRelease(s: State, l: Lease, ttl: bool)
    requires TokensUsed(s) && l.token !in s.used && l.key !in s.kv
    ensures var before := s.(revision := s.revision + 2, used := s.used + {l.token},
                             local := s.local - {(l.instance, l.key)});
            && ReleaseAlone(LockAlone(s, l, ttl), l.instance, l.key) == before
            && (ttl ==> TimerAlone(LockAlone(s, l, ttl), l) == before)
  {
    var locked := LockAlone(s, l, ttl);
    LockAloneExactly(s, l, ttl, true);
    ReleaseAloneExactly(locked, l.instance, l.key);
    TokenReleasedExactly(locked, l);
    assert l !in s.timers && locked.kv - {l.key} == s.kv;
    assert locked.local - {(l.instance, l.key)} == s.local - {(l.instance, l.key)};
    if ttl {
      TimerAloneExactly(locked, l);
      TokenReleasedExactly(locked.(timers := locked.timers - {l}), l);
    }
  }

  /** A deletion that fails, or whose revision is no longer current, changes nothing; a lost answer keeps the token. */
  lemma DeleteWithoutAnswer(s: State, l: Lease, revision: nat, failed: bool)
    requires Delete(l, revision) in s.threads
    ensures var rest := s.(threads := s.threads - multiset{Delete(l, revision)});
            Apply(s, Run(Delete(l, revision), failed, false)) ==
              if !failed && Current(s, l.key, revision)
              then rest.(kv := s.kv - {l.key}, revision := s.revision + 1)
              else rest
  {
  }

  /**
    The token is remembered after the lock is granted, so a slow registration can replace a newer one:
    the instance then holds the lock under token 2, remembers token 1, and its Release frees nothing.
  */
  lemma LateRegistrationBlocksRelease(key: Key) returns (acts: seq<Action>)
    ensures Runs(INITIAL, acts)
    ensures var s := Final(INITIAL, acts);
            && key in s.kv && s.kv[key].token == 2
            && s.local == map[(0, key) := 1]
            && s.threads == multiset{}
            && key in ReleaseAlone(s, 0, key).kv
  {
    var l1, l2 := Lease(0, key, 1), Lease(0, key, 2);
    var granted := [TryLock(l1, true, true), Fire(l1), Run(Read(l1), false, true)];
    var removed := [Run(Delete(l1, 1), false, true), Run(Forget(l1), false, true)];
    var again := [TryLock(l2, false, true), Run(Register(l2), false, true), Run(Register(l1), false, true)];
    TimerFires(key, granted);
    TimerReleases(key, removed);
    SecondHolder(key, again);
    RunsAppend(INITIAL, granted, removed);
    RunsAppend(INITIAL, granted + removed, again);
    acts := granted + removed + again;
  }

  /** The first lock's timer has read the entry while its registration is still pending. */
  function Firing(key: Key): State {
    var l := Lease(0, key, 1);
    State(map[key := Stored(1, 1)], 1, {1}, map[], {}, multiset{Register(l), Delete(l, 1)})
  }

  function Orphaned(key: Key): State {
    State(map[], 2, {1}, map[], {}, multiset{Register(Lease(0, key, 1))})
  }

  lemma TimerFires(key: Key, acts: seq<Action>)
    requires var l := Lease(0, key, 1); acts == [TryLock(l, true, true), Fire(l), Run(Read(l), false, true)]
    ensures Runs(INITIAL, acts) && Final(INITIAL, acts) == Firing(key)
  {
    var l := Lease(0, key, 1);
    var s1 := State(map[key := Stored(1, 1)], 1, {1}, map[], {l}, multiset{Register(l)});
    var s2 := s1.(timers := {}, threads := multiset{Register(l), Read(l)});
    assert Apply(INITIAL, acts[0]) == s1;
    assert Apply(s1, acts[1]) == s2;
    assert Apply(s2, acts[2]) == Firing(key);
    RunsOne(s2, acts[2..]);
    RunsOne(s1, acts[1..]);
  }

  function Forgetting(key: Key): State {
    var l := Lease(0, key, 1);
    State(map[], 2, {1}, map[], {}, multiset{Register(l), Forget(l)})
  }

  lemma TimerDeletes(key: Key)
    ensures Apply(Firing(key), Run(Delete(Lease(0, key, 1), 1), false, true)) == Forgetting(key)
  {
    var l := Lease(0, key, 1);
    assert Firing(key).threads - multiset{Delete(l, 1)} == multiset{Register(l)};
  }

  lemma TimerForgets(key: Key)
    ensures Apply(Forgetting(key), Run(Forget(Lease(0, key, 1)), false, true)) == Orphaned(key)
  {
    var l := Lease(0, key, 1);
    assert Forgetting(key).threads - multiset{Forget(l)} == multiset{Register(l)};
  }

  lemma TimerReleases(key: Key, acts: seq<Action>)
    requires var l := Lease(0, key, 1); acts == [Run(Delete(l, 1), false, true), Run(Forget(l), false, true)]
    ensures Runs(Firing(key), acts) && Final(Firing(key), acts) == Orphaned(key)
  {
    TimerDeletes(key);
    TimerForgets(key);
    RunsOne(Forgetting(key), acts[1..]);
  }

  /** The instance acquires again, and the old registration lands last. */
  lemma SecondHolder(key: Key, acts: seq<Action>)
    requires var l1, l2 := Lease(0, key, 1), Lease(0, key, 2);
             acts == [TryLock(l2, false, true), Run(Register(l2), false, true), Run(Register(l1), false, true)]
    ensures Runs(Orphaned(key), acts)
    ensures Final(Orphaned(key), acts) == State(map[key := Stored(2, 3)], 3, {1, 2}, map[(0, key) := 1], {}, multiset{})
  {
    var l1, l2 := Lease(0, key, 1), Lease(0, key, 2);
    var s1 := State(map[key := Stored(2, 3)], 3, {1, 2}, map[], {}, multiset{Register(l1), Register(l2)});
    var s2 := s1.(local := map[(0, key) := 2], threads := multiset{Register(l1)});
    assert Apply(Orphaned(key), acts[0]) == s1;
    assert Apply(s1, acts[1]) == s2;
    assert Apply(s2, acts[2]) == s2.(local := map[(0, key) := 1], threads := multiset{});
    RunsOne(s2, acts[2..]);
    RunsOne(s1, acts[1..]);
  }

  lemma RunsOne(s: State, acts: seq<Action>)
    requires acts != [] && Enabled(s, acts[0]) && Runs(Apply(s, acts[0]), acts[1..])
    ensures Runs(s, acts) && Final(s, acts) == Final(Apply(s, acts[0]), acts[1..])
  {
  }

  lemma {:induction false} RunsAppend(s: State, a: seq<Action>, b: seq<Action>)
    requires Runs(s, a) && Runs(Final(s, a), b)
    ensures Runs(s, a + b) && Final(s, a + b) == Final(Final(s, a), b)
    decreases |a|
  {
    if a == [] {
      assert a + b == b;
    } else {
      assert (a + b)[0] == a[0] && (a + b)[1..] == a[1..] + b;
      RunsAppend(Apply(s, a[0]), a[1..], b);
    }
  }

  // ----- When a granted lock can be released -----

  predicate Held(s: State, l: Lease) {
    l.key in s.kv && s.kv[l.key].token == l.token
  }

  /** Every token that is pending or remembered has been used. */
  ghost predicate TokensUsed(s: State) {
    && (forall t :: t in s.threads ==> t.lease.token in s.used)
    && (forall x :: x in s.local ==> s.local[x] in s.used)
    && (forall x :: x in s.timers ==> x.token in s.used)
  }

  lemma AdvanceTokensUsed(s: State, t: Thread, failed: bool, answered: bool)
    requires TokensUsed(s) && t.lease.token in s.used
    ensures TokensUsed(Advance(s, t, failed, answered))
  {
  }

  lemma StepTokensUsed(s: State, a: Action)
    requires TokensUsed(s) && Enabled(s, a)
    ensures TokensUsed(Apply(s, a))
  {
    if a.Run? {
      AdvanceTokensUsed(s.(threads := s.threads - multiset{a.thread}), a.thread, a.failed, a.answered);
    }
  }

  lemma {:induction false} RunTokensUsed(s: State, acts: seq<Action>)
    requires TokensUsed(s) && Runs(s, acts)
    ensures TokensUsed(Final(s, acts))
    decreases |acts|
  {
    if acts != [] {
      StepTokensUsed(s, acts[0]);
      RunTokensUsed(Apply(s, acts[0]), acts[1..]);
    }
  }

  /** A registration of the same instance and key has not landed yet. */
  predicate Registers(t: Thread, instance: nat, key: Key) {
    t.Register? && t.lease.instance == instance && t.lease.key == key
  }

  ghost predicate NonePending(s: State, instance: nat, key: Key) {
    forall t :: t in s.threads ==> !Registers(t, instance, key)
  }

  /** The lock's own registration is the only one that can still land. */
  ghost predicate OwnOnly(s: State, l: Lease) {
    forall t :: t in s.threads && Registers(t, l.instance, l.key) ==> t.lease == l
  }

  predicate Pending(s: State, l: Lease) {
    Register(l) in s.threads
  }

  predicate Recalled(s: State, l: Lease) {
    (l.instance, l.key) in s.local && s.local[(l.instance, l.key)] == l.token
  }

  /** While the lock is held, it is remembered or about to be, and nothing is about to forget or replace it. */
  ghost predicate Traceable(s: State, l: Lease) {
    && l.token in s.used
    && (Held(s, l) ==> OwnOnly(s, l) && Forget(l) !in s.threads && (Pending(s, l) || Recalled(s, l)))
  }

  /** A held lock was held before: its token is not granted again. */
  lemma HeldBefore(s: State, a: Action, l: Lease)
    requires Enabled(s, a) && l.token in s.used && Held(Apply(s, a), l)
    ensures Held(s, l)
  {
  }

  lemma RegisterTraceable(s: State, a: Action, l: Lease)
    requires a.Run? && a.thread.Register? && Enabled(s, a) && Traceable(s, l) && Held(Apply(s, a), l)
    ensures Traceable(Apply(s, a), l)
  {
    HeldBefore(s, a, l);
    var t := a.thread;
    if t == Register(l) {
      assert Recalled(Apply(s, a), l);
    }
  }

  lemma ForgetTraceable(s: State, a: Action, l: Lease)
    requires a.Run? && a.thread.Forget? && Enabled(s, a) && Traceable(s, l) && Held(Apply(s, a), l)
    ensures Traceable(Apply(s, a), l)
  {
    HeldBefore(s, a, l);
  }

  lemma ReadTraceable(s: State, a: Action, l: Lease)
    requires a.Run? && a.thread.Read? && Enabled(s, a) && Traceable(s, l) && Held(Apply(s, a), l)
    ensures Traceable(Apply(s, a), l)
  {
    HeldBefore(s, a, l);
  }

  lemma DeleteTraceable(s: State, a: Action, l: Lease)
    requires a.Run? && a.thread.Delete? && Enabled(s, a) && Traceable(s, l) && Held(Apply(s, a), l)
    ensures Traceable(Apply(s, a), l)
  {
    HeldBefore(s, a, l);
  }

  lemma StepTraceable(s: State, a: Action, l: Lease)
    requires Enabled(s, a) && Traceable(s, l)
    ensures Traceable(Apply(s, a), l)
  {
    if Held(Apply(s, a), l) {
      HeldBefore(s, a, l);
      if a.Run? {
        if a.thread.Register? {
          RegisterTraceable(s, a, l);
        } else if a.thread.Forget? {
          ForgetTraceable(s, a, l);
        } else if a.thread.Read? {
          ReadTraceable(s, a, l);
        } else {
          DeleteTraceable(s, a, l);
        }
      }
    }
  }

  lemma {:induction false} RunsTraceable(s: State, acts: seq<Action>, l: Lease)
    requires Runs(s, acts) && Traceable(s, l)
    ensures Traceable(Final(s, acts), l)
    decreases |acts|
  {
    if acts != [] {
      StepTraceable(s, acts[0], l);
      RunsTraceable(Apply(s, acts[0]), acts[1..], l);
    }
  }

  /** Once its registration has landed, a Release frees the lock if it is still held. */
  ghost predicate Releasable(s: State, l: Lease) {
    Held(s, l) && !Pending(s, l) ==> l.key !in ReleaseAlone(s, l.instance, l.key).kv
  }

  ghost predicate AlwaysReleasable(s: State, l: Lease) {
    forall acts :: Runs(s, acts) ==> Releasable(Final(s, acts), l)
  }

  lemma GrantTraceable(s: State, l: Lease, ttl: bool)
    requires TokensUsed(s) && l.token !in s.used && l.key !in s.kv && NonePending(s, l.instance, l.key)
    ensures Traceable(Create(s, l, ttl, true), l)
  {
    assert Register(l) in Create(s, l, ttl, true).threads;
  }

  /** A registration that is still pending at the grant may land last. */
  lemma LateRegistrationLands(s: State, l: Lease, ttl: bool, late: Thread) returns (acts: seq<Action>)
    requires TokensUsed(s) && l.token !in s.used && l.key !in s.kv
    requires late in s.threads && Registers(late, l.instance, l.key)
    ensures Runs(Create(s, l, ttl, true), acts) && !Releasable(Final(Create(s, l, ttl, true), acts), l)
  {
    var own := Register(l);
    var granted := Create(s, l, ttl, true);
    var a, b := Run(own, false, true), Run(late, false, true);
    var s1 := Apply(granted, a);
    var s2 := Apply(s1, b);
    acts := [a, b];
    assert own !in s.threads && late.lease.token != l.token;
    assert granted.threads == s.threads + multiset{own} && s1.threads == s.threads;
    assert s2.threads == s.threads - multiset{late};
    assert acts[1..] == [b] && [b][1..] == [];
    RunsOne(s1, [b]);
    RunsOne(granted, acts);
    assert !Pending(s2, l);
    ReleaseFreesExactly(s2, l.instance, l.key);
  }

  /**
    In every continuation after a grant the holder's Release frees the lock, once its own registration has
    landed, if and only if no earlier registration of that instance and key was pending at the grant.
  */
  lemma ReleasableExactly(s: State, l: Lease, ttl: bool)
    requires TokensUsed(s) && l.token !in s.used && l.key !in s.kv
    ensures AlwaysReleasable(Create(s, l, ttl, true), l) <==> NonePending(s, l.instance, l.key)
  {
    var granted := Create(s, l, ttl, true);
    if NonePending(s, l.instance, l.key) {
      GrantTraceable(s, l, ttl);
      forall acts | Runs(granted, acts) ensures Releasable(Final(granted, acts), l) {
        RunsTraceable(granted, acts, l);
        if Held(Final(granted, acts), l) {
          ReleaseFreesExactly(Final(granted, acts), l.instance, l.key);
        }
      }
    } else {
      var late :| late in s.threads && Registers(late, l.instance, l.key);
      var acts := LateRegistrationLands(s, l, ttl, late);
    }
  }

  /** The same for a grant in any run. */
  lemma ReleasableInEveryRun(acts: seq<Action>, l: Lease, ttl: bool)
    requires Runs(INITIAL, acts) && l.token !in Final(INITIAL, acts).used && l.key !in Final(INITIAL, acts).kv
    ensures AlwaysReleasable(Create(Final(INITIAL, acts), l, ttl, true), l) <==>
            NonePending(Final(INITIAL, acts), l.instance, l.key)
  {
    RunTokensUsed(INITIAL, acts);
    ReleasableExactly(Final(INITIAL, acts), l, ttl);
  }
}
