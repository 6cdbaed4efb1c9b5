/**
  The locker over an expiring key-value store, as a step system. Instances acquire with SET NX,
  remember the token locally some time later, and release by a script that compares and deletes in
  one step. The server may expire an entry set with a time to live, and timers start releases too.
*/
module RedisLocks {
  import opened TokenLocks

  datatype Stored = Stored(token: Token, expires: bool)

  /** What a goroutine of some instance is about to do. */
  datatype Thread = Register(lease: Lease, ttl: bool) | Script(lease: Lease) | Forget(lease: Lease)

  /** `local` keeps the token and whether its entry has a timer. */
  datatype State = State(
    kv: map<Key, Stored>,
    used: set<Token>,
    local: map<(nat, Key), Stored>,
    timers: set<Lease>,
    threads: multiset<Thread>)

  const INITIAL := State(map[], {}, map[], {}, multiset{})

  /** `answered` is false when the server acts but its reply is lost; `failed` when it does not act. */
  datatype Action =
    | TryLock(lease: Lease, ttl: bool, answered: bool)
    | CallRelease(instance: nat, key: Key)
    | Fire(timer: Lease)
    | Expire(key: Key)
    | Run(thread: Thread, failed: bool, answered: bool)

  predicate Enabled(s: State, a: Action) {
    match a
    case TryLock(l, _, _) => l.token !in s.used
    case CallRelease(_, _) => true
    case Fire(l) => l in s.timers
    case Expire(k) => k in s.kv && s.kv[k].expires
    case Run(t, _, _) => t in s.threads
  }

  function Spawn(s: State, t: Thread): State {
    s.(threads := s.threads + multiset{t})
  }

  /** `SET NX` with a fresh token, and the timer armed when there is a time to live. */
  function Create(s: State, l: Lease, ttl: bool, answered: bool): State {
    if l.key in s.kv then s.(used := s.used + {l.token})
    else
      var granted := s.(kv := s.kv[l.key := Stored(l.token, ttl)], used := s.used + {l.token});
      if !answered then granted
      else Spawn(granted.(timers := if ttl then s.timers + {l} else s.timers), Register(l, ttl))
  }

  /** `Release` stops the timer of the remembered entry before it runs the script. */
  function Release(s: State, instance: nat, key: Key): State {
    if (instance, key) !in s.local then s
    else
      var l := Lease(instance, key, s.local[(instance, key)].token);
      Spawn(s.(timers := if s.local[(instance, key)].expires then s.timers - {l} else s.timers), Script(l))
  }

  predicate Holds(s: State, l: Lease) {
    l.key in s.kv && s.kv[l.key].token == l.token
  }

  /** The next step of a goroutine, which has been taken out of `threads`. */
  function Advance(s: State, t: Thread, failed: bool, answered: bool): State {
    match t
    case Register(l, ttl) => s.(local := s.local[(l.instance, l.key) := Stored(l.token, ttl)])
    case Script(l) =>
      if failed then s
      else
        var done := if Holds(s, l) then s.(kv := s.kv - {l.key}) else s;
        if answered then Spawn(done, Forget(l)) else done
    case Forget(l) =>
      if (l.instance, l.key) in s.local && s.local[(l.instance, l.key)].token == l.token then
        s.(local := s.local - {(l.instance, l.key)})
      else s
  }

  function Apply(s: State, a: Action): State {
    match a
    case TryLock(l, ttl, answered) => Create(s, l, ttl, answered)
    case CallRelease(i, k) => Release(s, i, k)
    case Fire(l) => Spawn(s.(timers := s.timers - {l}), Script(l))
    case Expire(k) => s.(kv := s.kv - {k})
    case Run(t, failed, answered) => Advance(s.(threads := s.threads - multiset{t}), t, failed, answered)
  }

  /** The tokens an action takes and gives back: a deletion is labelled with the token its release carries. */
  function Label(s: State, a: Action): seq<Event>
    requires Enabled(s, a)
  {
    match a
    case TryLock(l, _, _) => if l.key in s.kv then [] else [Acquired(l.key, l.token)]
    case Expire(k) => [Expired(k, s.kv[k].token)]
    case Run(Script(l), failed, _) => if !failed && Holds(s, l) then [Freed(l.key, l.token)] else []
    case _ => []
  }

  predicate Runs(s: State, acts: seq<Action>)
    decreases |acts|
  {
    acts == [] || (Enabled(s, acts[0]) && Runs(Apply(s, acts[0]), acts[1..]))
  }

  function Final(s: State, acts: seq<Action>): State
    decreases |acts|
  {
    if acts == [] then s else Final(Apply(s, acts[0]), acts[1..])
  }

  function Trace(s: State, acts: seq<Action>): seq<Event>
    requires Runs(s, acts)
    decreases |acts|
  {
    if acts == [] then [] else Label(s, acts[0]) + Trace(Apply(s, acts[0]), acts[1..])
  }

  // ----- Refinement -----

  function Abstract(s: State): Locks {
    Locks(map k | k in s.kv :: s.kv[k].token, s.used)
  }

  lemma CreateRefines(s: State, l: Lease, ttl: bool, answered: bool, abs: Locks)
    requires abs.held == Abstract(s).held && abs.used <= s.used && l.key !in s.kv && l.token !in s.used
    ensures Allowed(abs, Acquired(l.key, l.token))
    ensures After(abs, Acquired(l.key, l.token)).held == Abstract(Create(s, l, ttl, answered)).held
    ensures After(abs, Acquired(l.key, l.token)).used <= Create(s, l, ttl, answered).used
  {
  }

  lemma QuietKeeps(s: State, a: Action)
    requires Enabled(s, a) && Label(s, a) == []
    ensures Apply(s, a).kv == s.kv && s.used <= Apply(s, a).used
  {
  }

  lemma RemovalRefines(s: State, a: Action)
    requires Enabled(s, a) && Label(s, a) != [] && !a.TryLock?
    ensures var e := Label(s, a)[0];
            && !e.Acquired? && e.key in s.kv && s.kv[e.key].token == e.token
            && Apply(s, a).kv == s.kv - {e.key} && Apply(s, a).used == s.used
  {
  }

  /** Every step is a step of the abstract lock, or leaves it as it is but for tokens thrown away. */
  lemma StepRefines(s: State, a: Action, abs: Locks)
    requires Enabled(s, a) && abs.held == Abstract(s).held && abs.used <= s.used
    ensures Permits(abs, Label(s, a))
    ensures Outcome(abs, Label(s, a)).held == Abstract(Apply(s, a)).held
    ensures Outcome(abs, Label(s, a)).used <= Apply(s, a).used
  {
    if Label(s, a) == [] {
      QuietKeeps(s, a);
    } else {
      OneEvent(abs, Label(s, a)[0]);
      if a.TryLock? {
        CreateRefines(s, a.lease, a.ttl, a.answered, abs);
      } else {
        RemovalRefines(s, a);
      }
    }
  }

  lemma {:induction false} RunRefines(s: State, acts: seq<Action>, abs: Locks)
    requires Runs(s, acts) && abs.held == Abstract(s).held && abs.used <= s.used
    ensures Permits(abs, Trace(s, acts))
    ensures Outcome(abs, Trace(s, acts)).held == Abstract(Final(s, acts)).held
    decreases |acts|
  {
    if acts != [] {
      var shown, next := Label(s, acts[0]), Apply(s, acts[0]);
      StepRefines(s, acts[0], abs);
      RunRefines(next, acts[1..], Outcome(abs, shown));
      PermitsAppend(abs, shown, Trace(next, acts[1..]));
    }
  }

  /** Every interleaving is a run of the abstract lock. */
  lemma RedisRefinesTokenLock(acts: seq<Action>)
    requires Runs(INITIAL, acts)
    ensures Permits(NO_LOCKS, Trace(INITIAL, acts))
    ensures Outcome(NO_LOCKS, Trace(INITIAL, acts)).held == Abstract(Final(INITIAL, acts)).held
  {
    RunRefines(INITIAL, acts, NO_LOCKS);
  }

  /** Two grants of one key are separated by a release of the first grant's token, or by its expiry. */
  lemma GrantsSeparated(acts: seq<Action>, i: nat, j: nat) returns (m: nat)
    requires Runs(INITIAL, acts)
    requires var trace := Trace(INITIAL, acts);
             i < j < |trace| && trace[i].Acquired? && trace[j].Acquired? && trace[i].key == trace[j].key
    ensures var trace := Trace(INITIAL, acts);
            i < m < j && Removes(trace[m], trace[i].key, trace[i].token)
  {
    RedisRefinesTokenLock(acts);
    m := AcquisitionsSeparated(NO_LOCKS, Trace(INITIAL, acts), i, j);
  }

  // ----- Whether Release frees the lock -----

  /** A Release that runs to its end with nothing in between and no failure. */
  function ReleaseAlone(s: State, instance: nat, key: Key): State {
    if (instance, key) !in s.local then s
    else
      var l := Lease(instance, key, s.local[(instance, key)].token);
      Apply(Apply(Apply(s, CallRelease(instance, key)), Run(Script(l), false, true)), Run(Forget(l), false, true))
  }

  /** A Release frees a held lock exactly when the token remembered for the key is the one in the store. */
  lemma ReleaseFreesExactly(s: State, instance: nat, key: Key)
    requires key in s.kv
    ensures key !in ReleaseAlone(s, instance, key).kv
            <==> (instance, key) in s.local && s.local[(instance, key)].token == s.kv[key].token
  {
  }

  /** What an undisturbed Release changes: the entry if it is still its own, the remembered token and its timer. */
  lemma ReleaseAloneExactly(s: State, instance: nat, key: Key)
    ensures (instance, key) !in s.local ==> ReleaseAlone(s, instance, key) == s
    ensures (instance, key) in s.local ==>
              var mine := s.local[(instance, key)];
              var l := Lease(instance, key, mine.token);
              ReleaseAlone(s, instance, key) ==
                s.(kv := if Holds(s, l) then s.kv - {key} else s.kv,
                   local := s.local - {(instance, key)},
                   timers := if mine.expires then s.timers - {l} else s.timers)
  {
    if (instance, key) in s.local {
      var l := Lease(instance, key, s.local[(instance, key)].token);
      assert s.threads + multiset{Script(l)} - multiset{Script(l)} == s.threads;
      assert s.threads + multiset{Forget(l)} - multiset{Forget(l)} == s.threads;
    }
  }

  /** A timer that fires and runs to its end with nothing in between and no failure. */
  function TimerAlone(s: State, l: Lease): State {
    Apply(Apply(Apply(s, Fire(l)), Run(Script(l), false, true)), Run(Forget(l), false, true))
  }

  /** It frees the key and forgets the token only if they are still its own. */
  lemma TimerAloneExactly(s: State, l: Lease)
    requires l in s.timers
    ensures TimerAlone(s, l) ==
              s.(kv := if Holds(s, l) then s.kv - {l.key} else s.kv,
                 local := if Recalled(s, l) then s.local - {(l.instance, l.key)} else s.local,
                 timers := s.timers - {l})
  {
    assert s.threads + multiset{Script(l)} - multiset{Script(l)} == s.threads;
    assert s.threads + multiset{Forget(l)} - multiset{Forget(l)} == s.threads;
  }

  /** A TryLock of a free key, with its registration landing at once. */
  function LockAlone(s: State, l: Lease, ttl: bool): State {
    Apply(Apply(s, TryLock(l, ttl, true)), Run(Register(l, ttl), false, true))
  }

  /** A taken key is left alone; a free one is held under the new token, remembered, and timed if it has to expire. */
  lemma LockAloneExactly(s: State, l: Lease, ttl: bool, answered: bool)
    ensures l.key in s.kv ==> Apply(s, TryLock(l, ttl, answered)) == s.(used := s.used + {l.token})
    ensures l.key !in s.kv ==>
              LockAlone(s, l, ttl) ==
                s.(kv := s.kv[l.key := Stored(l.token, ttl)],
                   used := s.used + {l.token},
                   local := s.local[(l.instance, l.key) := Stored(l.token, ttl)],
                   timers := if ttl then s.timers + {l} else s.timers)
  {
    assert s.threads + multiset{Register(l, ttl)} - multiset{Register(l, ttl)} == s.threads;
  }

  /** Locking and then releasing, or letting the timer fire, leaves everything as it was but the used token. */
  lemma LockThenRelease(s: State, l: Lease, ttl: bool)
    requires TokensUsed(s) && l.token !in s.used && l.key !in s.kv
    ensures var before := s.(used := s.used + {l.token}, local := s.local - {(l.instance, l.key)});
            && ReleaseAlone(LockAlone(s, l, ttl), l.instance, l.key) == before
            && (ttl ==> TimerAlone(LockAlone(s, l, ttl), l) == before)
  {
    var locked := LockAlone(s, l, ttl);
    LockAloneExactly(s, l, ttl, true);
    ReleaseAloneExactly(locked, l.instance, l.key);
    assert l !in s.timers && locked.kv - {l.key} == s.kv;
    assert locked.local - {(l.instance, l.key)} == s.local - {(l.instance, l.key)};
    if ttl {
      TimerAloneExactly(locked, l);
    }
  }

  /** A script that fails changes nothing, and one whose answer is lost frees its key but keeps the token. */
  lemma ScriptWithoutAnswer(s: State, l: Lease, failed: bool)
    requires Script(l) in s.threads
    ensures Apply(s, Run(Script(l), failed, false)) ==
              s.(kv := if !failed && Holds(s, l) then s.kv - {l.key} else s.kv,
                 threads := s.threads - multiset{Script(l)})
  {
  }

  /**
    The token is remembered after the lock is granted, so a slow registration can replace a newer one:
    the first grant expires before its registration lands, the instance then holds the lock under token 2,
    remembers token 1, and its Release frees nothing.
  */
  lemma LateRegistrationBlocksRelease(key: Key) returns (acts: seq<Action>)
    ensures Runs(INITIAL, acts)
    ensures var s := Final(INITIAL, acts);
            && key in s.kv && s.kv[key].token == 2
            && s.local == map[(0, key) := Stored(1, true)]
            && s.threads == multiset{}
            && key in ReleaseAlone(s, 0, key).kv
  {
    var l1, l2 := Lease(0, key, 1), Lease(0, key, 2);
    var expired := State(map[], {1}, map[], {l1}, multiset{Register(l1, true)});
    var first, again := [TryLock(l1, true, true), Expire(key)],
                        [TryLock(l2, false, true), Run(Register(l2, false), false, true),
                         Run(Register(l1, true), false, true)];
    FirstExpires(key, first, expired);
    SecondHolder(key, again, expired);
    RunsAppend(INITIAL, first, again);
    acts := first + again;
    ReleaseFreesExactly(Final(INITIAL, acts), 0, key);
  }

  lemma FirstExpires(key: Key, acts: seq<Action>, expired: State)
    requires var l := Lease(0, key, 1);
             && acts == [TryLock(l, true, true), Expire(key)]
             && expired == State(map[], {1}, map[], {l}, multiset{Register(l, true)})
    ensures Runs(INITIAL, acts) && Final(INITIAL, acts) == expired
  {
    var l := Lease(0, key, 1);
    var s1 := State(map[key := Stored(1, true)], {1}, map[], {l}, multiset{Register(l, true)});
    assert Apply(INITIAL, acts[0]) == s1;
    assert Apply(s1, acts[1]) == expired;
    RunsOne(s1, acts[1..]);
  }

  /** The instance acquires again, and the old registration lands last. */
  lemma SecondHolder(key: Key, acts: seq<Action>, expired: State)
    requires var l1, l2 := Lease(0, key, 1), Lease(0, key, 2);
             && acts == [TryLock(l2, false, true), Run(Register(l2, false), false, true),
                         Run(Register(l1, true), false, true)]
             && expired == State(map[], {1}, map[], {l1}, multiset{Register(l1, true)})
    ensures Runs(expired, acts)
    ensures Final(expired, acts) ==
              State(map[key := Stored(2, false)], {1, 2}, map[(0, key) := Stored(1, true)], {Lease(0, key, 1)},
                    multiset{})
  {
    var l1, l2 := Lease(0, key, 1), Lease(0, key, 2);
    var s1 := State(map[key := Stored(2, false)], {1, 2}, map[], {l1},
                    multiset{Register(l1, true), Register(l2, false)});
    var s2 := s1.(local := map[(0, key) := Stored(2, false)], threads := multiset{Register(l1, true)});
    assert Apply(expired, acts[0]) == s1;
    assert Apply(s1, acts[1]) == s2;
    assert Apply(s2, acts[2]) == s2.(local := map[(0, key) := Stored(1, true)], threads := multiset{});
    RunsOne(s2, acts[2..]);
    RunsOne(s1, acts[1..]);
  }

  lemma RunsOne(s: State, acts: seq<Action>)
    requires acts != [] && Enabled(s, acts[0]) && Runs(Apply(s, acts[0]), acts[1..])
    ensures Runs(s, acts) && Final(s, acts) == Final(Apply(s, acts[0]), acts[1..])
  {
  }

  lemma {:induction false} RunsAppend(s: State, a: seq<Action>, b: seq<Action>)
    requires Runs(s, a) && Runs(Final(s, a), b)
    ensures Runs(s, a + b) && Final(s, a + b) == Final(Final(s, a), b)
    decreases |a|
  {
    if a == [] {
      assert a + b == b;
    } else {
      assert (a + b)[0] == a[0] && (a + b)[1..] == a[1..] + b;
      RunsAppend(Apply(s, a[0]), a[1..], b);
    }
  }

  // ----- When a granted lock can be released -----

  /** Every token that is pending or remembered has been used. */
  ghost predicate TokensUsed(s: State) {
    && (forall t :: t in s.threads ==> t.lease.token in s.used)
    && (forall x :: x in s.local ==> s.local[x].token in s.used)
    && (forall x :: x in s.timers ==> x.token in s.used)
  }

  lemma AdvanceTokensUsed(s: State, t: Thread, failed: bool, answered: bool)
    requires TokensUsed(s) && t.lease.token in s.used
    ensures TokensUsed(Advance(s, t, failed, answered))
  {
  }

  lemma StepTokensUsed(s: State, a: Action)
    requires TokensUsed(s) && Enabled(s, a)
    ensures TokensUsed(Apply(s, a))
  {
    if a.Run? {
      AdvanceTokensUsed(s.(threads := s.threads - multiset{a.thread}), a.thread, a.failed, a.answered);
    }
  }

  lemma {:induction false} RunTokensUsed(s: State, acts: seq<Action>)
    requires TokensUsed(s) && Runs(s, acts)
    ensures TokensUsed(Final(s, acts))
    decreases |acts|
  {
    if acts != [] {
      StepTokensUsed(s, acts[0]);
      RunTokensUsed(Apply(s, acts[0]), acts[1..]);
    }
  }

  /** A registration of the same instance and key has not landed yet. */
  predicate Registers(t: Thread, instance: nat, key: Key) {
    t.Register? && t.lease.instance == instance && t.lease.key == key
  }

  ghost predicate NonePending(s: State, instance: nat, key: Key) {
    forall t :: t in s.threads ==> !Registers(t, instance, key)
  }

  /** The lock's own registration is the only one that can still land. */
  ghost predicate OwnOnly(s: State, l: Lease) {
    forall t :: t in s.threads && Registers(t, l.instance, l.key) ==> t.lease == l
  }

  predicate Pending(s: State, l: Lease) {
    Register(l, true) in s.threads || Register(l, false) in s.threads
  }

  predicate Recalled(s: State, l: Lease) {
    (l.instance, l.key) in s.local && s.local[(l.instance, l.key)].token == l.token
  }

  /** While the lock is held, it is remembered or about to be, and nothing is about to forget or replace it. */
  ghost predicate Traceable(s: State, l: Lease) {
    && l.token in s.used
    && (Holds(s, l) ==> OwnOnly(s, l) && Forget(l) !in s.threads && (Pending(s, l) || Recalled(s, l)))
  }

  /** A held lock was held before: its token is not granted again. */
  lemma HeldBefore(s: State, a: Action, l: Lease)
    requires Enabled(s, a) && l.token in s.used && Holds(Apply(s, a), l)
    ensures Holds(s, l)
  {
  }

  lemma RegisterTraceable(s: State, a: Action, l: Lease)
    requires a.Run? && a.thread.Register? && Enabled(s, a) && Traceable(s, l) && Holds(Apply(s, a), l)
    ensures Traceable(Apply(s, a), l)
  {
    HeldBefore(s, a, l);
    var t := a.thread;
    if t.Register? && t.lease == l {
      assert Recalled(Apply(s, a), l);
    }
  }

  lemma ForgetTraceable(s: State, a: Action, l: Lease)
    requires a.Run? && a.thread.Forget? && Enabled(s, a) && Traceable(s, l) && Holds(Apply(s, a), l)
    ensures Traceable(Apply(s, a), l)
  {
    HeldBefore(s, a, l);
  }

  lemma ReleaseTraceable(s: State, a: Action, l: Lease)
    requires a.Run? && !a.thread.Register? && !a.thread.Forget? && Enabled(s, a) && Traceable(s, l) &&
             Holds(Apply(s, a), l)
    ensures Traceable(Apply(s, a), l)
  {
    HeldBefore(s, a, l);
  }

  lemma StepTraceable(s: State, a: Action, l: Lease)
    requires Enabled(s, a) && Traceable(s, l)
    ensures Traceable(Apply(s, a), l)
  {
    if Holds(Apply(s, a), l) {
      HeldBefore(s, a, l);
      if a.Run? {
        if a.thread.Register? {
          RegisterTraceable(s, a, l);
        } else if a.thread.Forget? {
          ForgetTraceable(s, a, l);
        } else {
          ReleaseTraceable(s, a, l);
        }
      }
    }
  }

  lemma {:induction false} RunsTraceable(s: State, acts: seq<Action>, l: Lease)
    requires Runs(s, acts) && Traceable(s, l)
    ensures Traceable(Final(s, acts), l)
    decreases |acts|
  {
    if acts != [] {
      StepTraceable(s, acts[0], l);
      RunsTraceable(Apply(s, acts[0]), acts[1..], l);
    }
  }

  /** Once its registration has landed, a Release frees the lock if it is still held. */
  ghost predicate Releasable(s: State, l: Lease) {
    Holds(s, l) && !Pending(s, l) ==> l.key !in ReleaseAlone(s, l.instance, l.key).kv
  }

  ghost predicate AlwaysReleasable(s: State, l: Lease) {
    forall acts :: Runs(s, acts) ==> Releasable(Final(s, acts), l)
  }

  lemma GrantTraceable(s: State, l: Lease, ttl: bool)
    requires TokensUsed(s) && l.token !in s.used && l.key !in s.kv && NonePending(s, l.instance, l.key)
    ensures Traceable(Create(s, l, ttl, true), l)
  {
    assert Register(l, ttl) in Create(s, l, ttl, true).threads;
  }

  /** A registration that is still pending at the grant may land last. */
  lemma LateRegistrationLands(s: State, l: Lease, ttl: bool, late: Thread) returns (acts: seq<Action>)
    requires TokensUsed(s) && l.token !in s.used && l.key !in s.kv
    requires late in s.threads && Registers(late, l.instance, l.key)
    ensures Runs(Create(s, l, ttl, true), acts) && !Releasable(Final(Create(s, l, ttl, true), acts), l)
  {
    var own := Register(l, ttl);
    var granted := Create(s, l, ttl, true);
    var a, b := Run(own, false, true), Run(late, false, true);
    var s1 := Apply(granted, a);
    var s2 := Apply(s1, b);
    acts := [a, b];
    assert !Pending(s, l) && late.lease.token != l.token;
    assert granted.threads == s.threads + multiset{own} && s1.threads == s.threads;
    assert s2.threads == s.threads - multiset{late};
    assert acts[1..] == [b] && [b][1..] == [];
    RunsOne(s1, [b]);
    RunsOne(granted, acts);
    assert !Pending(s2, l);
    ReleaseFreesExactly(s2, l.instance, l.key);
  }

  /**
    In every continuation after a grant the holder's Release frees the lock, once its own registration has
    landed, if and only if no earlier registration of that instance and key was pending at the grant.
  */
  lemma ReleasableExactly(s: State, l: Lease, ttl: bool)
    requires TokensUsed(s) && l.token !in s.used && l.key !in s.kv
    ensures AlwaysReleasable(Create(s, l, ttl, true), l) <==> NonePending(s, l.instance, l.key)
  {
    var granted := Create(s, l, ttl, true);
    if NonePending(s, l.instance, l.key) {
      GrantTraceable(s, l, ttl);
      forall acts | Runs(granted, acts) ensures Releasable(Final(granted, acts), l) {
        RunsTraceable(granted, acts, l);
        if Holds(Final(granted, acts), l) {
          ReleaseFreesExactly(Final(granted, acts), l.instance, l.key);
        }
      }
    } else {
      var late :| late in s.threads && Registers(late, l.instance, l.key);
      var acts := LateRegistrationLands(s, l, ttl, late);
    }
  }

  /** The same for a grant in any run. */
  lemma ReleasableInEveryRun(acts: seq<Action>, l: Lease, ttl: bool)
    requires Runs(INITIAL, acts) && l.token !in Final(INITIAL, acts).used && l.key !in Final(INITIAL, acts).kv
    ensures AlwaysReleasable(Create(Final(INITIAL, acts), l, ttl, true), l) <==>
            NonePending(Final(INITIAL, acts), l.instance, l.key)
  {
    RunTokensUsed(INITIAL, acts);
    ReleasableExactly(Final(INITIAL, acts), l, ttl);
  }
}
