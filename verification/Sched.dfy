/** The round-robin scheduler of kern/sched.c. */
module Sched {
  import Lru

  datatype Option<T> = None | Some(value: T)

  /** The queues hold environment ids, head first.  created and freed only record the past. */
  datatype State = State(
    newQ: seq<nat>, readyQ: seq<nat>, exitQ: seq<nat>,
    cur: Option<nat>, stopped: bool,
    created: set<nat>, freed: set<nat>)

  // ---------- what each operation does ----------

  /** The RR branch of fos_scheduler: the running environment is enqueued, the tail of the queue runs. */
  function Pick(s: State): State {
    var q := if s.cur.Some? then [s.cur.value] + s.readyQ else s.readyQ;
    if q == [] then s.(readyQ := [], cur := None, stopped := true)
    else s.(readyQ := Lru.Front(q), cur := Some(Lru.Last(q)), stopped := false)
  }

  function PickIfStopped(s: State): State {
    if s.stopped then Pick(s) else s
  }

  /** Later elements end up nearer the head. */
  function Reverse(q: seq<nat>): seq<nat> {
    if q == [] then [] else Reverse(q[1..]) + [q[0]]
  }

  datatype Op =
    | Tick               // the clock interrupt
    | New(e: nat)        // sched_new_env
    | RunEnv(e: nat)     // sched_run_env
    | RunNew             // sched_run_all
    | Exit(e: nat)       // sched_exit_env
    | Kill(e: nat)       // sched_kill_env
    | ExitAllReady       // sched_exit_all_ready_envs

  /** The status sched_kill_env compares the id of the running environment with, and panics if they differ. */
  const ENV_RUNNABLE: nat := 2

  function Apply(s: State, op: Op): State {
    match op
    case Tick => Pick(s)
    case New(e) => s.(newQ := [e] + s.newQ, created := s.created + {e})
    case RunEnv(e) =>
      if e in s.newQ then PickIfStopped(s.(newQ := Lru.Without(s.newQ, e), readyQ := [e] + s.readyQ)) else s
    case RunNew => PickIfStopped(s.(newQ := [], readyQ := Reverse(s.newQ) + s.readyQ))
    case Exit(e) =>
      if e in s.newQ then s.(newQ := Lru.Without(s.newQ, e))
      else if e in s.readyQ then s.(readyQ := Lru.Without(s.readyQ, e), exitQ := [e] + s.exitQ)
      else if s.cur == Some(e) then Pick(s.(exitQ := [e] + s.exitQ, cur := None))
      else s
    case Kill(e) =>
      if e in s.newQ then s.(newQ := Lru.Without(s.newQ, e), freed := s.freed + {e})
      else if e in s.readyQ then s.(readyQ := Lru.Without(s.readyQ, e), freed := s.freed + {e})
      else if e in s.exitQ then s.(exitQ := Lru.Without(s.exitQ, e), freed := s.freed + {e})
      else if s.cur == Some(e) && e == ENV_RUNNABLE then Pick(s.(cur := None, freed := s.freed + {e}))
      else s
    case ExitAllReady => s.(readyQ := [], exitQ := Reverse(s.readyQ) + s.exitQ)
  }

  /** sched_init. */
  function Initial(): State { State([], [], [], None, true, {}, {}) }

  // ---------- each environment is in exactly one state ----------

  function Count(q: seq<nat>, e: nat): nat {
    if q == [] then 0 else Count(q[1..], e) + if q[0] == e then 1 else 0
  }

  /** In how many of NEW, READY, EXIT, running and freed environment e is. */
  function Places(s: State, e: nat): nat {
    Count(s.newQ, e) + Count(s.readyQ, e) + Count(s.exitQ, e)
      + (if s.cur == Some(e) then 1 else 0) + (if e in s.freed then 1 else 0)
  }

  /** Every environment ever created is in exactly one of them, and nothing else is anywhere. */
  ghost predicate Once(s: State) {
    forall e: nat :: Places(s, e) == if e in s.created then 1 else 0
  }

  /** curenv is not null where the code reads its id. */
  predicate Defined(s: State, op: Op) {
    match op
    case Exit(e) => s.cur.Some?
    case Kill(e) => e in s.newQ || e in s.readyQ || e in s.exitQ || s.cur.Some?
    case _ => true
  }

  /** Besides: a new environment gets a fresh id, and one that never ran does not exit. */
  predicate Allowed(s: State, op: Op) {
    && Defined(s, op)
    && (op.New? ==> op.e !in s.created) && (op.Exit? ==> op.e !in s.newQ)
  }

  lemma {:induction false} CountIn(q: seq<nat>, e: nat)
    ensures e in q <==> Count(q, e) > 0
  {
    if q != [] {
      CountIn(q[1..], e);
      assert q == [q[0]] + q[1..];
    }
  }

  lemma {:induction false} CountConcat(a: seq<nat>, b: seq<nat>, e: nat)
    ensures Count(a + b, e) == Count(a, e) + Count(b, e)
  {
    if a == [] {
      assert a + b == b;
    } else {
      assert (a + b)[1..] == a[1..] + b;
      CountConcat(a[1..], b, e);
    }
  }

  lemma {:induction false} CountReverse(q: seq<nat>, e: nat)
    ensures Count(Reverse(q), e) == Count(q, e)
  {
    if q != [] {
      CountReverse(q[1..], e);
      CountConcat(Reverse(q[1..]), [q[0]], e);
    }
  }

  lemma {:induction false} CountWithout(q: seq<nat>, x: nat, e: nat)
    ensures Count(Lru.Without(q, x), e) == if e == x then 0 else Count(q, e)
  {
    Lru.WithoutMembers(q, x);
    CountIn(Lru.Without(q, x), x);
    if e != x && q != [] {
      var p, z := q[..|q| - 1], q[|q| - 1];
      assert q == p + [z];
      CountWithout(p, x, e);
      CountConcat(p, [z], e);
      Lru.WithoutConcat(p, [z], x);
      CountConcat(Lru.Without(p, x), Lru.Without([z], x), e);
      WithoutOne(z, x);
    }
  }

  lemma WithoutOne(z: nat, x: nat)
    ensures Lru.Without([z], x) == if z == x then [] else [z]
  {
    Lru.WithoutMembers([z], x);
    if z != x {
      Lru.WithoutAbsent([z], x);
    }
  }

  /** The element that left one queue for the front of another, or for nowhere. */
  lemma CountMove(q: seq<nat>, r: seq<nat>, x: nat, e: nat)
    ensures Count(Lru.Without(q, x), e) == if e == x then 0 else Count(q, e)
    ensures Count([x] + r, e) == Count(r, e) + if e == x then 1 else 0
    ensures x in q <==> Count(q, x) > 0
  {
    CountWithout(q, x, e);
    CountIn(q, x);
  }

  lemma PickPlaces(s: State, e: nat)
    ensures Places(Pick(s), e) == Places(s, e)
  {
    var q := if s.cur.Some? then [s.cur.value] + s.readyQ else s.readyQ;
    if q != [] {
      assert q == Lru.Front(q) + [Lru.Last(q)];
      CountConcat(Lru.Front(q), [Lru.Last(q)], e);
    }
  }

  /** The operation changes the places of e as it should. */
  lemma ApplyPlaces(s: State, op: Op, e: nat)
    requires Once(s) && Allowed(s, op)
    ensures var s' := Apply(s, op); Places(s', e) == if e in s'.created then 1 else 0
  {
    assert Places(s, e) == if e in s.created then 1 else 0;
    match op
    case Tick => PickPlaces(s, e);
    case New(x) => CountMove(s.newQ, s.newQ, x, e);
    case RunEnv(x) => RunEnvPlaces(s, x, e);
    case RunNew =>
      CountReverse(s.newQ, e);
      CountConcat(Reverse(s.newQ), s.readyQ, e);
      PickPlaces(s.(newQ := [], readyQ := Reverse(s.newQ) + s.readyQ), e);
    case Exit(x) => ExitPlaces(s, x, e);
    case Kill(x) => KillPlaces(s, x, e);
    case ExitAllReady =>
      CountReverse(s.readyQ, e);
      CountConcat(Reverse(s.readyQ), s.exitQ, e);
  }

  lemma RunEnvPlaces(s: State, x: nat, e: nat)
    requires Once(s)
    ensures Places(Apply(s, RunEnv(x)), e) == Places(s, e)
  {
    assert Places(s, x) <= 1;
    CountMove(s.newQ, s.readyQ, x, e);
    PickPlaces(s.(newQ := Lru.Without(s.newQ, x), readyQ := [x] + s.readyQ), e);
  }

  lemma ExitPlaces(s: State, x: nat, e: nat)
    requires Once(s)
    ensures Places(Apply(s, Exit(x)), e) == Places(s, e) - if x in s.newQ && e == x then 1 else 0
  {
    assert Places(s, x) <= 1;
    CountMove(s.newQ, s.exitQ, x, e);
    CountMove(s.readyQ, s.exitQ, x, e);
    PickPlaces(s.(exitQ := [x] + s.exitQ, cur := None), e);
  }

  lemma KillPlaces(s: State, x: nat, e: nat)
    requires Once(s)
    ensures Places(Apply(s, Kill(x)), e) == Places(s, e)
  {
    assert Places(s, x) <= 1;
    CountMove(s.newQ, [], x, e);
    CountMove(s.readyQ, [], x, e);
    CountMove(s.exitQ, [], x, e);
    PickPlaces(s.(cur := None, freed := s.freed + {x}), e);
  }

  /** Every operation keeps every environment in exactly one place. */
  lemma ApplyOnce(s: State, op: Op)
    requires Once(s) && Allowed(s, op)
    ensures Once(Apply(s, op))
  {
    forall e: nat ensures Places(Apply(s, op), e) == if e in Apply(s, op).created then 1 else 0 {
      ApplyPlaces(s, op, e);
    }
  }

  /** sched_exit_env keeps it if and only if the environment is not in the NEW queue: the loop over that
      queue does not stop at the environment it removed, and ends with no environment to enter in EXIT. */
  lemma ExitOnceIff(s: State, e: nat)
    requires Once(s) && Defined(s, Exit(e))
    ensures Once(Apply(s, Exit(e))) <==> e !in s.newQ
  {
    if e in s.newQ {
      ExitPlaces(s, e, e);
      CountIn(s.newQ, e);
      assert Places(s, e) == 1;
    } else {
      ApplyOnce(s, Exit(e));
    }
  }

  /** Environment 1 runs; environment 5 is created and exits before it ever ran: it is nowhere any more. */
  lemma ExitLosesNew()
    ensures var s := Run(Initial(), [New(1), RunEnv(1), New(5)]);
            && Once(s) && Allowed(Initial(), New(1)) && Defined(s, Exit(5)) && !Once(Apply(s, Exit(5)))
            && 5 in Apply(s, Exit(5)).created && Places(Apply(s, Exit(5)), 5) == 0
  {
    var s0 := Initial();
    var s1 := Apply(s0, New(1));
    var s2 := Apply(s1, RunEnv(1));
    var s3 := Apply(s2, New(5));
    ApplyOnce(s0, New(1));
    ApplyOnce(s1, RunEnv(1));
    assert s1.newQ == [1] && Lru.Without([1], 1) == [] by { WithoutOne(1, 1); }
    assert s2 == State([], [], [], Some(1), false, {1}, {});
    ApplyOnce(s2, New(5));
    assert s3.newQ == [5] && Lru.Without([5], 5) == [] by { WithoutOne(5, 5); }
    calc {
      Run(s0, [New(1), RunEnv(1), New(5)]);
      { assert [New(1), RunEnv(1), New(5)][1..] == [RunEnv(1), New(5)]; }
      Run(s1, [RunEnv(1), New(5)]);
      { assert [RunEnv(1), New(5)][1..] == [New(5)]; }
      Run(s2, [New(5)]);
      { assert [New(5)][1..] == []; }
      Run(s3, []);
    }
    ExitOnceIff(s3, 5);
  }

  /** After sched_kill_env an environment that was somewhere is freed, if and only if it was not running or its id
      happens to be the number of a status: the assertion on the running one compares the wrong field. */
  lemma KillFreesIff(s: State, e: nat)
    requires Once(s) && e in s.created
    ensures e in Apply(s, Kill(e)).freed <==> !(s.cur == Some(e) && e != ENV_RUNNABLE)
  {
    assert Places(s, e) == 1;
    CountIn(s.newQ, e);
    CountIn(s.readyQ, e);
    CountIn(s.exitQ, e);
  }

  /** Environment 5 is the running one, and killing it panics. */
  lemma KillKeepsRunning()
    ensures var s := State([], [], [], Some(5), false, {5}, {}); Once(s) && Apply(s, Kill(5)) == s
  {
  }

  // ---------- where each environment goes ----------

  /** Alive is ready or running. */
  datatype Place = InNew | Alive | InExit | Freed | Nowhere

  predicate At(s: State, e: nat, p: Place) {
    match p
    case InNew => e in s.newQ
    case Alive => e in s.readyQ || s.cur == Some(e)
    case InExit => e in s.exitQ
    case Freed => e in s.freed
    case Nowhere => e !in s.newQ && e !in s.readyQ && s.cur != Some(e) && e !in s.exitQ && e !in s.freed
  }

  /** Where the operation takes environment e, from place p. */
  function Target(s: State, op: Op, e: nat, p: Place): Place {
    match op
    case Tick => p
    case New(x) => if e == x then InNew else p
    case RunEnv(x) => if e == x && p == InNew then Alive else p
    case RunNew => if p == InNew then Alive else p
    case Exit(x) =>
      if e == x && p == InNew then Nowhere else if e == x && p == Alive then InExit else p
    case Kill(x) =>
      if e == x && (p == InNew || p == InExit || (p == Alive && (s.cur != Some(e) || e == 2))) then Freed else p
    case ExitAllReady => if e in s.readyQ then InExit else p
  }

  lemma PickPlace(s: State, e: nat)
    ensures forall p :: At(Pick(s), e, p) <==> At(s, e, p)
    ensures Pick(s).newQ == s.newQ && Pick(s).exitQ == s.exitQ && Pick(s).freed == s.freed
  {
    PickAlive(s, e);
    assert Pick(s).newQ == s.newQ && Pick(s).exitQ == s.exitQ && Pick(s).freed == s.freed;
    hide Pick;
  }

  lemma PickAlive(s: State, e: nat)
    ensures e in Pick(s).readyQ || Pick(s).cur == Some(e) <==> e in s.readyQ || s.cur == Some(e)
  {
    var q := if s.cur.Some? then [s.cur.value] + s.readyQ else s.readyQ;
    if q != [] {
      assert q == Lru.Front(q) + [Lru.Last(q)];
      assert e in q <==> e in Lru.Front(q) || e == Lru.Last(q);
    }
  }

  lemma {:induction false} ReverseMembers(q: seq<nat>, e: nat)
    ensures e in Reverse(q) <==> e in q
  {
    if q != [] {
      ReverseMembers(q[1..], e);
      assert q == [q[0]] + q[1..];
    }
  }

  /** In no two places. */
  lemma OneOf(s: State, e: nat)
    requires Once(s)
    ensures e in s.newQ ==> !At(s, e, Alive) && !At(s, e, InExit) && !At(s, e, Freed)
    ensures e in s.readyQ ==> s.cur != Some(e)
    ensures At(s, e, Alive) ==> !At(s, e, InExit) && !At(s, e, Freed)
    ensures e in s.exitQ ==> e !in s.freed
    ensures e !in s.created ==> At(s, e, Nowhere)
  {
    assert Places(s, e) <= 1 && (e !in s.created ==> Places(s, e) == 0);
    CountIn(s.newQ, e);
    CountIn(s.readyQ, e);
    CountIn(s.exitQ, e);
  }

  lemma RemovedMembers(q: seq<nat>, x: nat, e: nat)
    ensures e in Lru.Without(q, x) <==> e in q && e != x
  {
    Lru.WithoutMembers(q, x);
  }

  /** The operation takes e, from p, to its target and to no other place. */
  ghost predicate GoesTo(s: State, op: Op, e: nat, p: Place) {
    forall p' :: At(Apply(s, op), e, p') <==> p' == Target(s, op, e, p)
  }

  lemma ExitGoes(s: State, x: nat, e: nat, p: Place)
    requires Once(s) && At(s, e, p)
    ensures GoesTo(s, Exit(x), e, p)
  {
    hide Once, Pick, Lru.Without;
    OneOf(s, e);
    RemovedMembers(s.newQ, x, e);
    RemovedMembers(s.readyQ, x, e);
    PickPlace(s.(exitQ := [x] + s.exitQ, cur := None), e);
  }

  lemma KillGoes(s: State, x: nat, e: nat, p: Place)
    requires Once(s) && At(s, e, p)
    ensures GoesTo(s, Kill(x), e, p)
  {
    hide Once, Pick, Lru.Without;
    OneOf(s, e);
    RemovedMembers(s.newQ, x, e);
    RemovedMembers(s.readyQ, x, e);
    RemovedMembers(s.exitQ, x, e);
    PickPlace(s.(cur := None, freed := s.freed + {x}), e);
  }

  /** Every operation takes every environment where it should, and to no other place. */
  lemma Destinations(s: State, op: Op, e: nat, p: Place)
    requires Once(s) && Defined(s, op) && (op.New? ==> op.e !in s.created) && At(s, e, p)
    ensures forall p' :: At(Apply(s, op), e, p') <==> p' == Target(s, op, e, p)
  {
    if op.Exit? {
      ExitGoes(s, op.e, e, p);
    } else if op.Kill? {
      KillGoes(s, op.e, e, p);
    } else {
      OneOf(s, e);
      hide Once, Pick, Reverse, Lru.Without;
      match op
      case Tick => PickPlace(s, e);
      case New(x) =>
      case RunEnv(x) =>
        RemovedMembers(s.newQ, x, e);
        PickPlace(s.(newQ := Lru.Without(s.newQ, x), readyQ := [x] + s.readyQ), e);
      case RunNew =>
        ReverseMembers(s.newQ, e);
        PickPlace(s.(newQ := [], readyQ := Reverse(s.newQ) + s.readyQ), e);
      case ExitAllReady =>
        ReverseMembers(s.readyQ, e);
    }
  }

  /** The processor is idle exactly when no environment is ready or running, and the scheduler then is stopped. */
  predicate Busy(s: State) {
    (s.stopped <==> s.cur == None) && (s.stopped ==> s.readyQ == [])
  }

  lemma BusyStep(s: State, op: Op)
    requires Busy(s)
    ensures Busy(Apply(s, op))
  {
  }

  lemma {:induction false} BusyRun(s: State, ops: seq<Op>)
    requires Busy(s)
    ensures Busy(Run(s, ops))
    decreases |ops|
  {
    if ops != [] {
      BusyStep(s, ops[0]);
      BusyRun(Apply(s, ops[0]), ops[1..]);
    }
  }

  function Run(s: State, ops: seq<Op>): State
    decreases |ops|
  {
    if ops == [] then s else Run(Apply(s, ops[0]), ops[1..])
  }

  predicate AllAllowed(s: State, ops: seq<Op>)
    decreases |ops|
  {
    ops != [] ==> Allowed(s, ops[0]) && AllAllowed(Apply(s, ops[0]), ops[1..])
  }

  /** Over every run. */
  lemma {:induction false} RunOnce(s: State, ops: seq<Op>)
    requires Once(s) && AllAllowed(s, ops)
    ensures Once(Run(s, ops))
    decreases |ops|
  {
    if ops != [] {
      ApplyOnce(s, ops[0]);
      RunOnce(Apply(s, ops[0]), ops[1..]);
    }
  }

  // ---------- bounded waiting ----------

  /** How many environments are nearer the tail than e. */
  function Behind(q: seq<nat>, e: nat): nat
    requires e in q
  {
    if Lru.Last(q) == e then 0 else FrontHas(q, e); 1 + Behind(Lru.Front(q), e)
  }

  lemma FrontHas(q: seq<nat>, e: nat)
    requires e in q && Lru.Last(q) != e
    ensures e in Lru.Front(q)
  {
    assert q == Lru.Front(q) + [Lru.Last(q)];
  }

  lemma {:induction false} BehindPrefix(a: seq<nat>, q: seq<nat>, e: nat)
    requires e in q
    ensures e in a + q && Behind(a + q, e) == Behind(q, e)
  {
    assert Lru.Last(a + q) == Lru.Last(q) && Lru.Front(a + q) == a + Lru.Front(q);
    if Lru.Last(q) != e {
      FrontHas(q, e);
      BehindPrefix(a, Lru.Front(q), e);
    }
  }

  lemma {:induction false} BehindWithout(q: seq<nat>, x: nat, e: nat)
    requires e in q && x != e
    ensures e in Lru.Without(q, x) && Behind(Lru.Without(q, x), e) <= Behind(q, e)
  {
    Lru.WithoutMembers(q, x);
    var f, z := Lru.Front(q), Lru.Last(q);
    assert q == f + [z];
    Lru.WithoutConcat(f, [z], x);
    if z == x {
      FrontHas(q, e);
      WithoutOne(z, x);
      assert Lru.Without(q, x) == Lru.Without(f, x);
      BehindWithout(f, x, e);
    } else {
      Lru.WithoutAbsent([z], x);
      var w := Lru.Without(f, x);
      assert Lru.Front(w + [z]) == w && Lru.Last(w + [z]) == z;
      if z != e {
        FrontHas(q, e);
        BehindWithout(f, x, e);
      }
    }
  }

  /** Does the operation make a scheduling decision? */
  predicate Decides(s: State, op: Op) {
    match op
    case Tick => true
    case RunEnv(e) => s.stopped && e in s.newQ
    case RunNew => s.stopped
    case Exit(e) => e !in s.newQ && e !in s.readyQ && s.cur == Some(e)
    case Kill(e) => e !in s.newQ && e !in s.readyQ && e !in s.exitQ && s.cur == Some(e) && e == ENV_RUNNABLE
    case _ => false
  }

  function Decisions(s: State, ops: seq<Op>): nat
    decreases |ops|
  {
    if ops == [] then 0
    else (if Decides(s, ops[0]) then 1 else 0) + Decisions(Apply(s, ops[0]), ops[1..])
  }

  /** The operation does not take e out of the ready queue. */
  predicate Spares(op: Op, e: nat) {
    op != Exit(e) && op != Kill(e) && op != ExitAllReady
  }

  lemma PickWaits(s: State, e: nat)
    requires e in s.readyQ
    ensures var s' := Pick(s);
            if Behind(s.readyQ, e) == 0 then s'.cur == Some(e)
            else e in s'.readyQ && Behind(s'.readyQ, e) == Behind(s.readyQ, e) - 1
  {
    var q := if s.cur.Some? then [s.cur.value] + s.readyQ else s.readyQ;
    if s.cur.Some? {
      BehindPrefix([s.cur.value], s.readyQ, e);
    }
    if Behind(s.readyQ, e) != 0 {
      FrontHas(q, e);
    }
  }

  /** One operation brings e forward, runs it, or leaves it where it is. */
  lemma WaitStep(s: State, op: Op, e: nat)
    requires e in s.readyQ && Spares(op, e)
    ensures var s', d := Apply(s, op), if Decides(s, op) then 1 else 0;
            (d == 1 && Behind(s.readyQ, e) == 0 && s'.cur == Some(e))
            || (e in s'.readyQ && Behind(s'.readyQ, e) <= Behind(s.readyQ, e) - d)
  {
    match op
    case Tick => PickWaits(s, e);
    case New(x) =>
    case RunEnv(x) =>
      BehindPrefix([x], s.readyQ, e);
      PickWaits(s.(newQ := Lru.Without(s.newQ, x), readyQ := [x] + s.readyQ), e);
    case RunNew =>
      BehindPrefix(Reverse(s.newQ), s.readyQ, e);
      PickWaits(s.(newQ := [], readyQ := Reverse(s.newQ) + s.readyQ), e);
    case Exit(x) =>
      BehindWithout(s.readyQ, x, e);
      PickWaits(s.(exitQ := [x] + s.exitQ, cur := None), e);
    case Kill(x) =>
      BehindWithout(s.readyQ, x, e);
      PickWaits(s.(cur := None, freed := s.freed + {x}), e);
    case ExitAllReady =>
  }

  /** e runs after the first n operations, which make at most k decisions. */
  predicate RunsWithin(s: State, ops: seq<Op>, e: nat, n: nat, k: nat) {
    n <= |ops| && Run(s, ops[..n]).cur == Some(e) && Decisions(s, ops[..n]) <= k
  }

  ghost predicate RunsInTime(s: State, ops: seq<Op>, e: nat, k: nat) {
    exists n: nat :: RunsWithin(s, ops, e, n, k)
  }

  /** With k environments nearer the tail, e runs at the (k+1)-th scheduling decision or before, whatever
      ticks, arrivals, exits and kills of others happen in between. */
  lemma {:induction false} BoundedWaiting(s: State, ops: seq<Op>, e: nat)
    requires e in s.readyQ && forall i :: 0 <= i < |ops| ==> Spares(ops[i], e)
    requires Decisions(s, ops) > Behind(s.readyQ, e)
    ensures RunsInTime(s, ops, e, Behind(s.readyQ, e) + 1)
    decreases |ops|
  {
    var s1, k := Apply(s, ops[0]), Behind(s.readyQ, e);
    WaitStep(s, ops[0], e);
    if Decides(s, ops[0]) && k == 0 && s1.cur == Some(e) {
      assert ops[..1][0] == ops[0] && ops[..1][1..] == [];
      assert Run(s, ops[..1]) == Run(s1, []);
      assert Decisions(s, ops[..1]) == 1 + Decisions(s1, []);
      assert RunsWithin(s, ops, e, 1, k + 1);
    } else {
      BoundedWaiting(s1, ops[1..], e);
      var k1 := Behind(s1.readyQ, e) + 1;
      var n: nat :| RunsWithin(s1, ops[1..], e, n, k1);
      assert ops[..n + 1][0] == ops[0] && ops[..n + 1][1..] == ops[1..][..n];
      assert RunsWithin(s, ops, e, n + 1, k + 1);
    }
  }

  // ---------- in which order ----------

  /** a runs while b is still waiting, after at most k decisions. */
  predicate RunsBefore(s: State, ops: seq<Op>, a: nat, b: nat, n: nat, k: nat) {
    RunsWithin(s, ops, a, n, k) && b in Run(s, ops[..n]).readyQ
  }

  ghost predicate RunsFirst(s: State, ops: seq<Op>, a: nat, b: nat, k: nat) {
    exists n: nat :: RunsBefore(s, ops, a, b, n, k)
  }

  lemma {:induction false} WithoutOrder(q: seq<nat>, x: nat, a: nat, b: nat)
    requires a in q && b in q && Behind(q, a) < Behind(q, b) && x != a && x != b
    ensures a in Lru.Without(q, x) && b in Lru.Without(q, x)
    ensures Behind(Lru.Without(q, x), a) < Behind(Lru.Without(q, x), b)
  {
    Lru.WithoutMembers(q, x);
    var f, z := Lru.Front(q), Lru.Last(q);
    assert q == f + [z];
    Lru.WithoutConcat(f, [z], x);
    FrontHas(q, b);
    if z == x {
      FrontHas(q, a);
      WithoutOne(z, x);
      assert Lru.Without(q, x) == Lru.Without(f, x);
      WithoutOrder(f, x, a, b);
    } else {
      Lru.WithoutAbsent([z], x);
      var w := Lru.Without(f, x);
      assert Lru.Front(w + [z]) == w && Lru.Last(w + [z]) == z;
      if z != a {
        FrontHas(q, a);
        WithoutOrder(f, x, a, b);
      }
    }
  }

  /** One operation keeps a in front of b, or runs a. */
  lemma OrderStep(s: State, op: Op, a: nat, b: nat)
    requires a in s.readyQ && b in s.readyQ && Behind(s.readyQ, a) < Behind(s.readyQ, b)
    requires Spares(op, a) && Spares(op, b)
    ensures var s' := Apply(s, op);
            && b in s'.readyQ
            && (s'.cur == Some(a) || a in s'.readyQ)
            && (a in s'.readyQ && !(Decides(s, op) && Behind(s.readyQ, a) == 0) ==>
                  Behind(s'.readyQ, a) < Behind(s'.readyQ, b))
  {
    hide Lru.Without, Reverse, Behind, Pick;
    WaitStep(s, op, a);
    match op
    case Tick => PickOrder(s, a, b);
    case New(x) =>
    case RunEnv(x) =>
      BehindPrefix([x], s.readyQ, a);
      BehindPrefix([x], s.readyQ, b);
      PickOrder(s.(newQ := Lru.Without(s.newQ, x), readyQ := [x] + s.readyQ), a, b);
    case RunNew =>
      BehindPrefix(Reverse(s.newQ), s.readyQ, a);
      BehindPrefix(Reverse(s.newQ), s.readyQ, b);
      PickOrder(s.(newQ := [], readyQ := Reverse(s.newQ) + s.readyQ), a, b);
    case Exit(x) =>
      WithoutOrder(s.readyQ, x, a, b);
      PickOrder(s.(exitQ := [x] + s.exitQ, cur := None), a, b);
    case Kill(x) =>
      WithoutOrder(s.readyQ, x, a, b);
      PickOrder(s.(cur := None, freed := s.freed + {x}), a, b);
    case ExitAllReady =>
  }

  lemma PickOrder(s: State, a: nat, b: nat)
    requires a in s.readyQ && b in s.readyQ && Behind(s.readyQ, a) < Behind(s.readyQ, b)
    ensures var s' := Pick(s);
            && b in s'.readyQ && (s'.cur == Some(a) || a in s'.readyQ)
            && (Behind(s.readyQ, a) > 0 ==> a in s'.readyQ && Behind(s'.readyQ, a) < Behind(s'.readyQ, b))
  {
    hide Pick;
    PickWaits(s, a);
    PickWaits(s, b);
  }

  /** First come, first served: of two ready environments the one nearer the tail runs while the other waits, whatever
      happens to others. */
  lemma {:induction false} ReadyOrder(s: State, ops: seq<Op>, a: nat, b: nat)
    requires a in s.readyQ && b in s.readyQ && Behind(s.readyQ, a) < Behind(s.readyQ, b)
    requires forall i :: 0 <= i < |ops| ==> Spares(ops[i], a) && Spares(ops[i], b)
    requires Decisions(s, ops) > Behind(s.readyQ, a)
    ensures RunsFirst(s, ops, a, b, Behind(s.readyQ, a) + 1)
    decreases |ops|
  {
    hide *;
    SomeOps(s, ops);
    var op, rest, s1, k := ops[0], ops[1..], Apply(s, ops[0]), Behind(s.readyQ, a);
    assert [op] + rest == ops;
    FirstOp(s, op, rest);
    WaitStep(s, op, a);
    OrderStep(s, op, a, b);
    if Decides(s, op) && k == 0 && s1.cur == Some(a) {
      FirstAtOnce(s1, rest, a, b);
      LaterFirst(s, op, rest, a, b, 0, k + 1);
    } else {
      ReadyOrder(s1, rest, a, b);
      LaterFirst(s, op, rest, a, b, Behind(s1.readyQ, a) + 1, k + 1);
    }
  }

  lemma SomeOps(s: State, ops: seq<Op>)
    requires Decisions(s, ops) > 0
    ensures ops != []
  {
  }

  lemma {:induction false} ReverseAt(q: seq<nat>, i: nat)
    requires i < |q|
    ensures |Reverse(q)| == |q| && Reverse(q)[|q| - 1 - i] == q[i]
  {
    if |q| > 1 {
      ReverseAt(q[1..], if i > 0 then i - 1 else 0);
    }
  }

  /** So many environments are nearer the tail than the one at index j. */
  lemma {:induction false} BehindAt(q: seq<nat>, j: nat)
    requires j < |q| && forall k :: j < k < |q| ==> q[k] != q[j]
    ensures Behind(q, q[j]) == |q| - 1 - j
    decreases |q|
  {
    if j < |q| - 1 {
      var f := Lru.Front(q);
      assert f[j] == q[j];
      BehindAt(f, j);
    }
  }

  lemma {:induction false} CountTwice(q: seq<nat>, i: nat, k: nat)
    requires i < k < |q| && q[i] == q[k]
    ensures Count(q, q[i]) >= 2
  {
    if i == 0 {
      assert q[1..][k - 1] == q[0];
      CountIn(q[1..], q[0]);
    } else {
      CountTwice(q[1..], i - 1, k - 1);
    }
  }

  /** READY as sched_run_all makes it: the environment at index i of NEW has i later ones and all that were ready
      before between itself and the tail. */
  lemma Joined(s: State, i: nat)
    requires Once(s) && i < |s.newQ|
    ensures var r, e := Reverse(s.newQ) + s.readyQ, s.newQ[i]; e in r && Behind(r, e) == |s.readyQ| + i
  {
    var r, e := Reverse(s.newQ) + s.readyQ, s.newQ[i];
    ReverseAt(s.newQ, i);
    var j := |s.newQ| - 1 - i;
    CountConcat(Reverse(s.newQ), s.readyQ, e);
    CountReverse(s.newQ, e);
    assert Places(s, e) <= 1;
    assert Count(r, e) <= 1;
    forall k | j < k < |r| ensures r[k] != r[j] {
      if r[k] == r[j] {
        CountTwice(r, j, k);
      }
    }
    BehindAt(r, j);
  }

  /** Every environment that sched_run_all makes ready runs: the i-th newest after those that were ready before and the
      i newer ones at the latest. */
  lemma RunAllWaits(s: State, ops: seq<Op>, i: nat)
    requires Once(s) && i < |s.newQ| && forall j :: 0 <= j < |ops| ==> Spares(ops[j], s.newQ[i])
    requires Decisions(s, [RunNew] + ops) > |s.readyQ| + i
    ensures RunsInTime(s, [RunNew] + ops, s.newQ[i], |s.readyQ| + i + 1)
  {
    hide *;
    RunAllJoins(s, i);
    FirstOp(s, RunNew, ops);
    if Decides(s, RunNew) && Apply(s, RunNew).cur == Some(s.newQ[i]) {
      RunsAtOnce(Apply(s, RunNew), ops, s.newQ[i]);
      Later(s, RunNew, ops, s.newQ[i], 0, |s.readyQ| + i + 1);
    } else {
      BoundedWaiting(Apply(s, RunNew), ops, s.newQ[i]);
      Later(s, RunNew, ops, s.newQ[i], Behind(Apply(s, RunNew).readyQ, s.newQ[i]) + 1, |s.readyQ| + i + 1);
    }
  }

  /** What sched_run_all does to one environment. */
  lemma RunAllJoins(s: State, i: nat)
    requires Once(s) && i < |s.newQ|
    ensures var e, s', d := s.newQ[i], Apply(s, RunNew), if Decides(s, RunNew) then 1 else 0;
            (d == 1 && s'.cur == Some(e)) || (e in s'.readyQ && Behind(s'.readyQ, e) + d <= |s.readyQ| + i)
  {
    Joined(s, i);
    hide Reverse, Behind, Once, Pick;
    if s.stopped {
      PickWaits(s.(newQ := [], readyQ := Reverse(s.newQ) + s.readyQ), s.newQ[i]);
    }
  }

  lemma RunsAtOnce(s: State, ops: seq<Op>, e: nat)
    requires s.cur == Some(e)
    ensures RunsInTime(s, ops, e, 0)
  {
    assert ops[..0] == [];
    assert RunsWithin(s, ops, e, 0, 0);
  }

  /** The first operation of a run. */
  lemma FirstOp(s: State, op: Op, ops: seq<Op>)
    ensures Run(s, [op] + ops) == Run(Apply(s, op), ops)
    ensures Decisions(s, [op] + ops) == (if Decides(s, op) then 1 else 0) + Decisions(Apply(s, op), ops)
  {
    var all := [op] + ops;
    assert all[0] == op && all[1..] == ops;
    hide Apply, Decides;
  }

  lemma Later(s: State, op: Op, ops: seq<Op>, e: nat, k: nat, k': nat)
    requires RunsInTime(Apply(s, op), ops, e, k) && k + (if Decides(s, op) then 1 else 0) <= k'
    ensures RunsInTime(s, [op] + ops, e, k')
  {
    hide Apply, Decides, Run, Decisions;
    var n: nat :| RunsWithin(Apply(s, op), ops, e, n, k);
    FirstOp(s, op, ops[..n]);
    assert ([op] + ops)[..n + 1] == [op] + ops[..n];
    assert RunsWithin(s, [op] + ops, e, n + 1, k');
  }

  /** sched_run_all turns the order of arrival round: of two new environments the one created later runs first. */
  lemma RunAllOrder(s: State, ops: seq<Op>, i: nat, j: nat)
    requires Once(s) && i < j < |s.newQ|
    requires forall k :: 0 <= k < |ops| ==> Spares(ops[k], s.newQ[i]) && Spares(ops[k], s.newQ[j])
    requires Decisions(s, [RunNew] + ops) > |s.readyQ| + i
    ensures RunsFirst(s, [RunNew] + ops, s.newQ[i], s.newQ[j], |s.readyQ| + i + 1)
  {
    hide *;
    var a, b, s' := s.newQ[i], s.newQ[j], Apply(s, RunNew);
    RunAllBoth(s, i, j);
    FirstOp(s, RunNew, ops);
    if Decides(s, RunNew) && s'.cur == Some(a) {
      FirstAtOnce(s', ops, a, b);
      LaterFirst(s, RunNew, ops, a, b, 0, |s.readyQ| + i + 1);
    } else {
      ReadyOrder(s', ops, a, b);
      LaterFirst(s, RunNew, ops, a, b, Behind(s'.readyQ, a) + 1, |s.readyQ| + i + 1);
    }
  }

  lemma FirstAtOnce(s: State, ops: seq<Op>, a: nat, b: nat)
    requires s.cur == Some(a) && b in s.readyQ
    ensures RunsFirst(s, ops, a, b, 0)
  {
    assert ops[..0] == [];
    assert RunsBefore(s, ops, a, b, 0, 0);
  }

  lemma LaterFirst(s: State, op: Op, ops: seq<Op>, a: nat, b: nat, k: nat, k': nat)
    requires RunsFirst(Apply(s, op), ops, a, b, k) && k + (if Decides(s, op) then 1 else 0) <= k'
    ensures RunsFirst(s, [op] + ops, a, b, k')
  {
    hide Apply, Decides, Run, Decisions;
    var n: nat :| RunsBefore(Apply(s, op), ops, a, b, n, k);
    FirstOp(s, op, ops[..n]);
    assert ([op] + ops)[..n + 1] == [op] + ops[..n];
    assert RunsBefore(s, [op] + ops, a, b, n + 1, k');
  }

  lemma RunAllBoth(s: State, i: nat, j: nat)
    requires Once(s) && i < j < |s.newQ|
    ensures var a, b, s', d := s.newQ[i], s.newQ[j], Apply(s, RunNew), if Decides(s, RunNew) then 1 else 0;
            && b in s'.readyQ
            && ((d == 1 && s'.cur == Some(a))
                || (a in s'.readyQ && Behind(s'.readyQ, a) < Behind(s'.readyQ, b)
                    && Behind(s'.readyQ, a) + d <= |s.readyQ| + i))
  {
    Joined(s, i);
    Joined(s, j);
    hide Reverse, Behind, Once, Pick;
    if s.stopped {
      var s1 := s.(newQ := [], readyQ := Reverse(s.newQ) + s.readyQ);
      PickWaits(s1, s.newQ[i]);
      PickWaits(s1, s.newQ[j]);
    }
  }

  /** Environment 1 is created before 2, and 2 runs first. */
  lemma LastCreatedRuns()
    ensures var s := Run(Initial(), [New(1), New(2)]);
            Once(s) && Apply(s, RunNew) == State([], [1], [], Some(2), false, {1, 2}, {})
  {
    var s1 := Apply(Initial(), New(1));
    var s2 := Apply(s1, New(2));
    ApplyOnce(Initial(), New(1));
    ApplyOnce(s1, New(2));
    assert [New(1), New(2)][1..] == [New(2)] && [New(2)][1..] == [];
    assert Run(Initial(), [New(1), New(2)]) == Run(s1, [New(2)]) == Run(s2, []) == s2;
    assert s2.newQ == [2, 1] && [2, 1][1..] == [1] && [1][1..] == [];
    assert Reverse([2, 1]) == Reverse([1]) + [2] && Reverse([1]) == Reverse([]) + [1];
    assert Reverse([2, 1]) + [] == [1, 2];
  }

  // ---------- the scheduler ----------

  class Scheduler {
    var envNewQueue: seq<nat>
    var envReadyQueue: seq<nat>
    var envExitQueue: seq<nat>
    var curenv: Option<nat>
    var stopped: bool
    ghost var created: set<nat>
    ghost var freed: set<nat>

    ghost function S(): State
      reads this
    {
      State(envNewQueue, envReadyQueue, envExitQueue, curenv, stopped, created, freed)
    }

    /** sched_init. */
    constructor ()
      ensures Once(S()) && S() == Initial()
    {
      envNewQueue, envReadyQueue, envExitQueue, curenv, stopped := [], [], [], None, true;
      created, freed := {}, {};
    }

    method FosScheduler()
      modifies this
      ensures S() == Pick(old(S()))
    {
      stopped := false;
      if curenv.Some? {
        envReadyQueue := [curenv.value] + envReadyQueue;
      }
      var next := None;
      if envReadyQueue != [] {
        next := Some(Lru.Last(envReadyQueue));
        envReadyQueue := Lru.Front(envReadyQueue);
      }
      if next.Some? {
        curenv := next;
      } else {
        curenv := None;
        stopped := true;
      }
    }

    /** find_env_in_queue: where the environment stands, |q| if nowhere. */
    method FindEnvInQueue(q: seq<nat>, envId: nat) returns (i: nat)
      ensures i <= |q| && (i < |q| <==> envId in q) && (i < |q| ==> q[i] == envId)
      ensures forall j :: 0 <= j < i ==> q[j] != envId
    {
      i := 0;
      while i < |q| && q[i] != envId
        invariant i <= |q| && forall j :: 0 <= j < i ==> q[j] != envId
      {
        i := i + 1;
      }
    }

    method SchedNewEnv(e: nat)
      requires Once(S()) && Allowed(S(), New(e))
      modifies this
      ensures S() == Apply(old(S()), New(e)) && Once(S())
    {
      ApplyOnce(S(), New(e));
      envNewQueue := [e] + envNewQueue;
      created := created + {e};
    }

    method SchedRunEnv(e: nat)
      requires Once(S())
      modifies this
      ensures S() == Apply(old(S()), RunEnv(e)) && Once(S())
    {
      hide Once, Pick;
      ApplyOnce(S(), RunEnv(e));
      var i := FindEnvInQueue(envNewQueue, e);
      if i < |envNewQueue| {
        RemoveAt(S(), envNewQueue, i);
        envNewQueue := envNewQueue[..i] + envNewQueue[i + 1..];
        envReadyQueue := [e] + envReadyQueue;
        if stopped {
          FosScheduler();
        }
      }
    }

    method SchedRunAll()
      requires Once(S())
      modifies this
      ensures S() == Apply(old(S()), RunNew) && Once(S())
    {
      ApplyOnce(S(), RunNew);
      ghost var q, r := envNewQueue, envReadyQueue;
      hide Reverse, Pick;
      while envNewQueue != []
        invariant Reverse(envNewQueue) + envReadyQueue == Reverse(q) + r
        invariant S() == old(S()).(newQ := envNewQueue, readyQ := envReadyQueue)
        decreases |envNewQueue|
      {
        var e := envNewQueue[0];
        ReverseNext(envNewQueue, envReadyQueue);
        envNewQueue := envNewQueue[1..];
        envReadyQueue := [e] + envReadyQueue;
      }
      ReverseNone(envReadyQueue);
      if stopped {
        FosScheduler();
      }
    }

    method SchedExitEnv(e: nat)
      requires Once(S()) && Defined(S(), Exit(e))
      modifies this
      ensures S() == Apply(old(S()), Exit(e)) && (Allowed(old(S()), Exit(e)) ==> Once(S()))
    {
      hide Once, Pick;
      ExitOnceIff(S(), e);
      OnePlace(S(), e);
      var env, found := None, false;
      var i := FindEnvInQueue(envNewQueue, e);
      if i < |envNewQueue| {
        RemoveAt(S(), envNewQueue, i);
        envNewQueue := envNewQueue[..i] + envNewQueue[i + 1..];
        found := true;  // env stays None: the loop over the NEW queue goes on to its end
      }
      if !found {
        i := FindEnvInQueue(envReadyQueue, e);
        if i < |envReadyQueue| {
          RemoveAt(S(), envReadyQueue, i);
          envReadyQueue := envReadyQueue[..i] + envReadyQueue[i + 1..];
          env, found := Some(e), true;
        }
      }
      if !found && curenv.value == e {
        env, found := curenv, true;
      }
      if found {
        if env.Some? {
          envExitQueue := [env.value] + envExitQueue;
        }
        if curenv.value == e {
          curenv := None;
          FosScheduler();
        }
      }
    }

    /** The running environment is killed if its id passes the assertion; otherwise the kernel panics. */
    method SchedKillEnv(e: nat) returns (panicked: bool)
      requires Once(S()) && Defined(S(), Kill(e))
      modifies this
      ensures S() == Apply(old(S()), Kill(e)) && Once(S())
      ensures panicked <==> old(curenv) == Some(e) && e != ENV_RUNNABLE
    {
      hide Once, Pick;
      ApplyOnce(S(), Kill(e));
      OnePlace(S(), e);
      panicked := false;
      var i := FindEnvInQueue(envNewQueue, e);
      if i < |envNewQueue| {
        RemoveAt(S(), envNewQueue, i);
        envNewQueue := envNewQueue[..i] + envNewQueue[i + 1..];
        freed := freed + {e};
        return;
      }
      i := FindEnvInQueue(envReadyQueue, e);
      if i < |envReadyQueue| {
        RemoveAt(S(), envReadyQueue, i);
        envReadyQueue := envReadyQueue[..i] + envReadyQueue[i + 1..];
        freed := freed + {e};
        return;
      }
      i := FindEnvInQueue(envExitQueue, e);
      if i < |envExitQueue| {
        RemoveAt(S(), envExitQueue, i);
        envExitQueue := envExitQueue[..i] + envExitQueue[i + 1..];
        freed := freed + {e};
        return;
      }
      if curenv.value == e {
        if e != ENV_RUNNABLE {
          return true;
        }
        freed := freed + {e};
        curenv := None;
        FosScheduler();
      }
    }

    method SchedExitAllReadyEnvs()
      requires Once(S())
      modifies this
      ensures S() == Apply(old(S()), ExitAllReady) && Once(S())
    {
      ApplyOnce(S(), ExitAllReady);
      ghost var q, r := envReadyQueue, envExitQueue;
      hide Reverse;
      while envReadyQueue != []
        invariant Reverse(envReadyQueue) + envExitQueue == Reverse(q) + r
        invariant S() == old(S()).(readyQ := envReadyQueue, exitQ := envExitQueue)
        decreases |envReadyQueue|
      {
        var e := envReadyQueue[0];
        ReverseNext(envReadyQueue, envExitQueue);
        envReadyQueue := envReadyQueue[1..];
        envExitQueue := [e] + envExitQueue;
      }
      ReverseNone(envExitQueue);
    }
  }

  lemma ReverseNext(q: seq<nat>, r: seq<nat>)
    requires q != []
    ensures Reverse(q) + r == Reverse(q[1..]) + ([q[0]] + r)
  {
  }

  lemma ReverseNone(r: seq<nat>)
    ensures Reverse([]) + r == r
  {
  }

  /** Removing the element where it stands removes it altogether: it is there once. */
  lemma RemoveAt(s: State, q: seq<nat>, i: nat)
    requires Once(s) && (q == s.newQ || q == s.readyQ || q == s.exitQ) && i < |q|
    ensures q[..i] + q[i + 1..] == Lru.Without(q, q[i])
  {
    assert Places(s, q[i]) <= 1;
    RemoveOnly(q, i);
  }

  /** The running environment is in no queue. */
  lemma OnePlace(s: State, e: nat)
    requires Once(s)
    ensures s.cur == Some(e) ==> e !in s.newQ && e !in s.readyQ && e !in s.exitQ
  {
    assert Places(s, e) <= 1;
    CountIn(s.newQ, e);
    CountIn(s.readyQ, e);
    CountIn(s.exitQ, e);
  }

  lemma OnlyThere(a: seq<nat>, b: seq<nat>, e: nat)
    requires Count(a + ([e] + b), e) <= 1
    ensures Lru.Without(a + ([e] + b), e) == a + b
  {
    assert Count([e], e) == 1;
    hide Count, Lru.Without;
    CountConcat(a, [e] + b, e);
    CountConcat([e], b, e);
    CountIn(a, e);
    CountIn(b, e);
    Lru.WithoutConcat(a, [e] + b, e);
    Lru.WithoutConcat([e], b, e);
    Lru.WithoutAbsent(a, e);
    Lru.WithoutAbsent(b, e);
    WithoutOne(e, e);
  }

  lemma RemoveOnly(q: seq<nat>, i: nat)
    requires i < |q| && Count(q, q[i]) <= 1
    ensures q[..i] + q[i + 1..] == Lru.Without(q, q[i])
  {
    hide Count, Lru.Without;
    SplitAt(q, i);
    OnlyThere(q[..i], q[i + 1..], q[i]);
  }

  lemma SplitAt(q: seq<nat>, i: nat)
    requires i < |q|
    ensures q == q[..i] + ([q[i]] + q[i + 1..])
  {
  }
}
