/** Threads that take turns at running coroutines.  A thread runs only while it holds the
    global lock; it may hand it over in the middle of a coroutine, spawn another thread for
    a coroutine, and wait for all spawned threads to end.  Each step here is what one thread
    does between two points where another one can get in. */
module Threads {

  type Tid = nat
  type Cid = nat

  /** The thread everything starts on; it is not in the thread set. */
  const MAIN: Tid := 0

  datatype Coro = Coro(alive: bool, active: bool, spawned: bool)

  /** `Leaving`: the coroutine it was spawned for has ended; `Freed`: and it is out of the
      thread set; `Waiting`: for the thread set to get empty; `Relocking`: it has seen that. */
  datatype Phase = Starting | Running | Sleeping | Leaving | Freed | Waiting | Relocking

  /** `root` is what it was spawned for, `stack` the coroutines it is in, innermost last. */
  datatype Thread = Thread(root: Cid, stack: seq<Cid>, phase: Phase)

  datatype State = State(threads: map<Tid, Thread>, inSet: set<Tid>, gil: int, coros: map<Cid, Coro>, joinStart: bool)

  /** Nobody holds the lock. */
  const FREE := -1

  datatype Action =
    | Resume(t: Tid, c: Cid)
    | Stop(t: Tid, alive: bool)
    | Sleep(t: Tid)
    | Wake(t: Tid)
    | Spawn(t: Tid, c: Cid, n: Tid)
    | Start(t: Tid)
    | Leave(t: Tid)
    | Release(t: Tid)
    | Join(t: Tid)
    | See(t: Tid)
    | Return(t: Tid)

  predicate CanResume(s: State, c: Cid) {
    c in s.coros && s.coros[c].alive && !s.coros[c].active && !s.coros[c].spawned
  }

  /** Thread `t` is there, in that phase. */
  predicate In(s: State, t: Tid, p: Phase) {
    t in s.threads && s.threads[t].phase == p
  }

  predicate Enabled(s: State, a: Action) {
    match a
    case Resume(t, c) => s.gil == t && In(s, t, Running) && s.threads[t].stack != [] && CanResume(s, c)
    case Stop(t, _) => s.gil == t && In(s, t, Running) && s.threads[t].stack != []
                       && s.threads[t].stack[|s.threads[t].stack| - 1] in s.coros
    case Sleep(t) => s.gil == t && In(s, t, Running) && s.threads[t].stack != []
    case Wake(t) => s.gil == FREE && In(s, t, Sleeping)
    case Spawn(t, c, n) => s.gil == t && In(s, t, Running) && s.threads[t].stack != [] && CanResume(s, c) && n !in s.threads && n != MAIN
    case Start(t) => s.gil == FREE && In(s, t, Starting) && s.threads[t].root in s.coros
    case Leave(t) => s.gil == t && In(s, t, Leaving) && s.threads[t].root in s.coros
    case Release(t) => s.gil == t && In(s, t, Freed)
    case Join(t) => s.gil == t && In(s, t, Running)
    case See(t) => In(s, t, Waiting) && s.inSet == {}
    case Return(t) => s.gil == FREE && In(s, t, Relocking)
  }

  function Next(s: State, a: Action): State
    requires Enabled(s, a)
  {
    match a
    case Resume(t, c) => Entered(s, t, c)
    case Stop(t, alive) =>
      var th := s.threads[t];
      var c, rest := th.stack[|th.stack| - 1], th.stack[..|th.stack| - 1];
      s.(coros := s.coros[c := s.coros[c].(active := false, alive := alive)],
         threads := s.threads[t := th.(stack := rest, phase := if rest == [] && t != MAIN then Leaving else Running)])
    case Sleep(t) => Moved(s, t, Sleeping).(gil := FREE)
    case Wake(t) => Moved(s, t, Running).(gil := t)
    case Spawn(t, c, n) =>
      s.(inSet := s.inSet + {n}, coros := s.coros[c := s.coros[c].(spawned := true)], threads := s.threads[n := Thread(c, [], Starting)])
    case Start(t) => Entered(Moved(s, t, Running).(gil := t), t, s.threads[t].root)
    case Leave(t) =>
      var c := s.threads[t].root;
      Moved(s, t, Freed).(inSet := s.inSet - {t}, coros := s.coros[c := s.coros[c].(spawned := false)])
    case Release(t) => s.(threads := s.threads - {t}, gil := FREE)
    case Join(t) => if s.joinStart then s else Moved(s, t, Waiting).(gil := FREE, joinStart := true)
    case See(t) => Moved(s, t, Relocking)
    case Return(t) => Moved(s, t, Running).(gil := t, joinStart := false)
  }

  function Moved(s: State, t: Tid, p: Phase): State
    requires t in s.threads
  {
    s.(threads := s.threads[t := s.threads[t].(phase := p)])
  }

  /** Thread `t` goes into coroutine `c`. */
  function Entered(s: State, t: Tid, c: Cid): State
    requires t in s.threads && c in s.coros
  {
    s.(coros := s.coros[c := s.coros[c].(active := true)],
       threads := s.threads[t := s.threads[t].(stack := s.threads[t].stack + [c])])
  }

  /** The main thread runs its coroutines, alone. */
  ghost predicate Initial(s: State) {
    && s.threads.Keys == {MAIN} && s.inSet == {} && s.gil == MAIN && !s.joinStart && s.threads[MAIN].phase == Running
    && (forall c | c in s.coros :: !s.coros[c].spawned && (s.coros[c].active <==> c in s.threads[MAIN].stack))
    && (forall i | 0 <= i < |s.threads[MAIN].stack| :: s.threads[MAIN].stack[i] in s.coros)
    && (forall i, j | 0 <= i < j < |s.threads[MAIN].stack| :: s.threads[MAIN].stack[i] != s.threads[MAIN].stack[j])
  }

  /** One after the other, threads do `acts`, and that leads from `s` to `r`. */
  ghost predicate Runs(s: State, acts: seq<Action>, r: State)
    decreases |acts|
  {
    if acts == [] then r == s else Enabled(s, acts[0]) && Runs(Next(s, acts[0]), acts[1..], r)
  }

  // ---------------------------------------------------------------------------
  // What every step keeps

  /** The `i`th coroutine thread `t` is in is `c`. */
  ghost predicate At(s: State, t: Tid, i: nat, c: Cid) {
    t in s.threads && i < |s.threads[t].stack| && s.threads[t].stack[i] == c
  }

  /** A coroutine is active exactly while one thread is in it, once. */
  ghost predicate Exclusive(s: State) {
    && (forall t, i, c | At(s, t, i, c) :: c in s.coros && s.coros[c].active)
    && (forall c | c in s.coros && s.coros[c].active :: exists t, i :: At(s, t, i, c))
    && (forall t, i, c, u, j | At(s, t, i, c) && At(s, u, j, c) :: t == u && i == j)
  }

  predicate Holds(p: Phase) {
    p == Running || p == Leaving || p == Freed
  }

  predicate Joins(p: Phase) {
    p == Waiting || p == Relocking
  }

  /** The lock is held by the one thread that runs, and the thread set knows the others. */
  ghost predicate Locked(s: State) {
    && MAIN in s.threads && (Holds(s.threads[MAIN].phase) ==> s.threads[MAIN].phase == Running) && s.threads[MAIN].phase != Starting
    && (s.gil != FREE ==> s.gil >= 0 && s.gil in s.threads)
    && (forall t | t in s.threads :: Holds(s.threads[t].phase) <==> s.gil == t)
    && (forall t :: t in s.inSet <==> t in s.threads && t != MAIN && s.threads[t].phase != Freed)
  }

  /** What a spawned thread is at. */
  ghost predicate Rooted(s: State, th: Thread) {
    && th.root in s.coros && s.coros[th.root].spawned
    && (th.phase == Starting ==> th.stack == [] && s.coros[th.root].alive)
    && (th.phase == Leaving ==> th.stack == [])
    && (th.phase != Starting && th.phase != Leaving ==> th.stack != [] && th.stack[0] == th.root)
  }

  /** A coroutine is spawned exactly while one thread is there for it; if that has not
      started, or has ended it, nobody is in it. */
  ghost predicate Reserved(s: State) {
    && (forall t | t in s.inSet && t in s.threads :: Rooted(s, s.threads[t]))
    && (forall t | t in s.threads && s.threads[t].phase == Freed :: s.threads[t].stack == [])
    && (forall t | t in s.inSet && t in s.threads && s.threads[t].stack == [] ::
          s.threads[t].root in s.coros && !s.coros[s.threads[t].root].active)
    && (forall t, u | t in s.inSet && u in s.inSet && t in s.threads && u in s.threads && s.threads[t].root == s.threads[u].root :: t == u)
    && (forall c | c in s.coros && s.coros[c].spawned :: exists t :: t in s.inSet && t in s.threads && s.threads[t].root == c)
  }

  /** At most one thread waits for the others; one that has seen them end is the main one. */
  ghost predicate Joined(s: State) {
    && (s.joinStart <==> exists t :: t in s.threads && Joins(s.threads[t].phase))
    && (forall t, u | t in s.threads && u in s.threads && Joins(s.threads[t].phase) && Joins(s.threads[u].phase) :: t == u)
    && (forall t | In(s, t, Relocking) :: t == MAIN && s.inSet == {})
  }

  ghost predicate Inv(s: State) {
    Exclusive(s) && Locked(s) && Reserved(s) && Joined(s)
  }

  lemma InitialInv(s: State)
    requires Initial(s)
    ensures Inv(s)
  {
    forall c | c in s.coros && s.coros[c].active ensures exists t, i :: At(s, t, i, c) {
      var i :| 0 <= i < |s.threads[MAIN].stack| && s.threads[MAIN].stack[i] == c;
      assert At(s, MAIN, i, c);
    }
  }

  lemma NextInv(s: State, a: Action)
    requires Inv(s) && Enabled(s, a)
    ensures Inv(Next(s, a))
  {
    NextExclusive(s, a);
    NextLocked(s, a);
    NextReserved(s, a);
    NextJoined(s, a);
  }

  lemma NextExclusive(s: State, a: Action)
    requires Inv(s) && Enabled(s, a)
    ensures Exclusive(Next(s, a))
  {
    hide Exclusive, Locked, Reserved, Joined;
    match a
    case Resume(t, c) =>
      NobodyIn(s, c);
      EnteredExclusive(s, t, c);
    case Stop(t, alive) => StopExclusive(s, t, alive);
    case Start(t) => StartExclusive(s, t);
    case Release(t) =>
      FreedIdle(s, t);
      SameStacks(s, Next(s, a));
    case _ => OtherExclusive(s, a);
  }

  lemma StartExclusive(s: State, t: Tid)
    requires Inv(s) && Enabled(s, Start(t))
    ensures Exclusive(Next(s, Start(t)))
  {
    hide Exclusive, Locked, Reserved, Joined;
    var s1 := Moved(s, t, Running).(gil := t);
    StartIdle(s, t);
    SameStacks(s, s1);
    EnteredExclusive(s1, t, s.threads[t].root);
  }

  /** Nothing else a thread does changes what coroutines it is in. */
  lemma OtherExclusive(s: State, a: Action)
    requires Exclusive(s) && Enabled(s, a) && !a.Resume? && !a.Stop? && !a.Start? && !a.Release?
    ensures Exclusive(Next(s, a))
  {
    hide Exclusive;
    SameStacks(s, Next(s, a));
  }

  lemma FreedIdle(s: State, t: Tid)
    requires Inv(s) && In(s, t, Freed)
    ensures s.threads[t].stack == []
  {
    hide Exclusive, Joined;
  }

  lemma StartIdle(s: State, t: Tid)
    requires Inv(s) && In(s, t, Starting)
    ensures s.threads[t].root in s.coros && s.coros[s.threads[t].root].alive && !s.coros[s.threads[t].root].active
  {
    hide Exclusive, Joined;
    assert t in s.inSet && Rooted(s, s.threads[t]);
  }

  lemma NobodyIn(s: State, c: Cid)
    requires Exclusive(s) && c in s.coros && !s.coros[c].active
    ensures forall t, i :: !At(s, t, i, c)
  {
  }

  lemma SameStacks(s: State, r: State)
    requires Exclusive(s)
    requires forall t, i, c :: At(s, t, i, c) <==> At(r, t, i, c)
    requires s.coros.Keys == r.coros.Keys && forall c | c in s.coros :: s.coros[c].active == r.coros[c].active
    ensures Exclusive(r)
  {
  }

  lemma EnteredExclusive(s: State, t: Tid, c: Cid)
    requires Exclusive(s) && t in s.threads && c in s.coros && !s.coros[c].active
    ensures Exclusive(Entered(s, t, c))
  {
    var r, n := Entered(s, t, c), |s.threads[t].stack|;
    NobodyIn(s, c);
    assert forall u, i, d :: At(r, u, i, d) <==> At(s, u, i, d) || (u == t && i == n && d == c);
    assert At(r, t, n, c);
  }

  lemma StopExclusive(s: State, t: Tid, alive: bool)
    requires Exclusive(s) && Enabled(s, Stop(t, alive))
    ensures Exclusive(Next(s, Stop(t, alive)))
  {
    var r, n := Next(s, Stop(t, alive)), |s.threads[t].stack| - 1;
    var c := s.threads[t].stack[n];
    assert At(s, t, n, c);
    assert forall u, i, d :: At(r, u, i, d) <==> At(s, u, i, d) && !(u == t && i == n);
  }

  lemma NextLocked(s: State, a: Action)
    requires Inv(s) && Enabled(s, a)
    ensures Locked(Next(s, a))
  {
    hide Exclusive, Reserved, Joined;
  }

  lemma NextReserved(s: State, a: Action)
    requires Inv(s) && Enabled(s, a)
    ensures Reserved(Next(s, a))
  {
    hide Exclusive, Locked, Joined, Reserved, Enabled, Next;
    match a
    case Resume(t, c) => ResumeReserved(s, t, c);
    case Stop(t, alive) => StopReserved(s, t, alive);
    case Start(t) => StartReserved(s, t);
    case Spawn(t, c, n) => SpawnReserved(s, t, c, n);
    case Leave(t) => LeaveReserved(s, t);
    case Release(t) => ReleaseReserved(s, t);
    case _ => OtherReserved(s, a);
  }

  lemma OtherReserved(s: State, a: Action)
    requires Inv(s) && Enabled(s, a) && (a.Sleep? || a.Wake? || a.Join? || a.See? || a.Return?)
    ensures Reserved(Next(s, a))
  {
    hide Exclusive, Locked, Joined, Reserved;
    SameReserved(s, Next(s, a));
  }

  /** Somewhere in the middle of its coroutines. */
  predicate Midway(p: Phase) {
    p != Starting && p != Leaving && p != Freed
  }

  lemma SameReserved(s: State, r: State)
    requires Reserved(s) && r.inSet == s.inSet && r.threads.Keys == s.threads.Keys && r.coros == s.coros
    requires forall t | t in s.threads :: r.threads[t].root == s.threads[t].root && r.threads[t].stack == s.threads[t].stack
    requires forall t | t in s.threads :: r.threads[t].phase == s.threads[t].phase || (Midway(r.threads[t].phase) && Midway(s.threads[t].phase))
    ensures Reserved(r)
  {
    forall t | t in r.inSet && t in r.threads ensures Rooted(r, r.threads[t]) {
      assert Rooted(s, s.threads[t]);
    }
    StillThereFor(s, r);
  }

  lemma ReleaseReserved(s: State, t: Tid)
    requires Inv(s) && Enabled(s, Release(t))
    ensures Reserved(Next(s, Release(t)))
  {
    hide Exclusive, Joined;
    var r := Next(s, Release(t));
    forall u | u in r.inSet && u in r.threads ensures Rooted(r, r.threads[u]) {
      assert Rooted(s, s.threads[u]);
    }
    forall d | d in r.coros && r.coros[d].spawned ensures exists u :: u in r.inSet && u in r.threads && r.threads[u].root == d {
      var u :| u in s.inSet && u in s.threads && s.threads[u].root == d;
      assert u in r.inSet && r.threads[u].root == d;
    }
  }

  lemma ResumeReserved(s: State, t: Tid, c: Cid)
    requires Inv(s) && Enabled(s, Resume(t, c))
    ensures Reserved(Next(s, Resume(t, c)))
  {
    hide Exclusive, Joined;
  }

  /** A coroutine somebody is in is not waiting to be started. */
  lemma TopRooted(s: State, t: Tid, alive: bool, u: Tid)
    requires Inv(s) && Enabled(s, Stop(t, alive)) && u in s.inSet
    ensures u in s.threads && var r := Next(s, Stop(t, alive)); Rooted(r, r.threads[u])
  {
    hide Exclusive, Joined;
    ActiveTop(s, t);
    assert Rooted(s, s.threads[u]);
    hide Reserved;
  }

  lemma ActiveTop(s: State, t: Tid)
    requires Inv(s) && t in s.threads && s.threads[t].stack != []
    ensures var c := s.threads[t].stack[|s.threads[t].stack| - 1]; c in s.coros && s.coros[c].active
  {
    hide Locked, Reserved, Joined;
    assert At(s, t, |s.threads[t].stack| - 1, s.threads[t].stack[|s.threads[t].stack| - 1]);
  }

  lemma StopReserved(s: State, t: Tid, alive: bool)
    requires Inv(s) && Enabled(s, Stop(t, alive))
    ensures Reserved(Next(s, Stop(t, alive)))
  {
    hide Exclusive, Joined, Rooted;
    var r := Next(s, Stop(t, alive));
    forall u | u in r.inSet && u in r.threads ensures Rooted(r, r.threads[u]) {
      TopRooted(s, t, alive, u);
    }
    forall u | u in r.inSet && u in r.threads && r.threads[u].stack == []
      ensures r.threads[u].root in r.coros && !r.coros[r.threads[u].root].active {
      TopRoot(s, t);
    }
    forall d | d in r.coros && r.coros[d].spawned ensures exists u :: u in r.inSet && u in r.threads && r.threads[u].root == d {
      var u :| u in s.inSet && u in s.threads && s.threads[u].root == d;
      assert u in r.inSet && r.threads[u].root == d;
    }
  }

  lemma TopRoot(s: State, t: Tid)
    requires Inv(s) && In(s, t, Running) && s.threads[t].stack != []
    ensures t in s.inSet ==> s.threads[t].stack[0] == s.threads[t].root
  {
    if t in s.inSet {
      assert Rooted(s, s.threads[t]);
    }
  }

  lemma StartRooted(s: State, t: Tid, u: Tid)
    requires Locked(s) && Reserved(s) && Enabled(s, Start(t)) && u in s.inSet && u in s.threads
    ensures var r := Next(s, Start(t)); u in r.threads && Rooted(r, r.threads[u]) && (u != t ==> s.threads[u].root != s.threads[t].root)
  {
    assert Rooted(s, s.threads[u]) && Rooted(s, s.threads[t]);
  }

  /** Whoever was there for a coroutine still is. */
  lemma StillThereFor(s: State, r: State)
    requires Reserved(s) && s.inSet <= r.inSet && s.threads.Keys <= r.threads.Keys
    requires forall u | u in s.threads :: r.threads[u].root == s.threads[u].root
    requires forall d | d in r.coros && r.coros[d].spawned :: d in s.coros && s.coros[d].spawned
    ensures forall d | d in r.coros && r.coros[d].spawned :: exists u :: u in r.inSet && u in r.threads && r.threads[u].root == d
  {
    forall d | d in r.coros && r.coros[d].spawned ensures exists u :: u in r.inSet && u in r.threads && r.threads[u].root == d {
      var u :| u in s.inSet && u in s.threads && s.threads[u].root == d;
      assert u in r.inSet && r.threads[u].root == d;
    }
  }

  lemma StartReserved(s: State, t: Tid)
    requires Inv(s) && Enabled(s, Start(t))
    ensures Reserved(Next(s, Start(t)))
  {
    hide Exclusive, Joined, Rooted;
    var r := Next(s, Start(t));
    assert forall u | u in s.threads && u != t :: r.threads[u] == s.threads[u];
    forall u | u in r.inSet && u in r.threads
      ensures Rooted(r, r.threads[u]) && (u != t ==> s.threads[u].root != s.threads[t].root) {
      StartRooted(s, t, u);
    }
    hide Locked;
    StillThereFor(s, r);
  }

  lemma SpawnReserved(s: State, t: Tid, c: Cid, n: Tid)
    requires Inv(s) && Enabled(s, Spawn(t, c, n))
    ensures Reserved(Next(s, Spawn(t, c, n)))
  {
    hide Exclusive, Joined;
  }

  lemma LeaveReserved(s: State, t: Tid)
    requires Inv(s) && Enabled(s, Leave(t))
    ensures Reserved(Next(s, Leave(t)))
  {
    hide Exclusive, Joined;
    var r := Next(s, Leave(t));
    forall u | u in r.inSet && u in r.threads ensures Rooted(r, r.threads[u]) {
      assert Rooted(s, s.threads[u]) && Rooted(s, s.threads[t]);
    }
    forall d | d in r.coros && r.coros[d].spawned ensures exists u :: u in r.inSet && u in r.threads && r.threads[u].root == d {
      var u :| u in s.inSet && u in s.threads && s.threads[u].root == d;
      assert u in r.inSet && r.threads[u].root == d;
    }
  }

  lemma NextJoined(s: State, a: Action)
    requires Inv(s) && Enabled(s, a)
    ensures Joined(Next(s, a))
  {
    hide Exclusive, Reserved;
    match a
    case Join(t) => JoinJoined(s, t);
    case Return(t) => ReturnJoined(s, t);
    case See(t) => assert In(Next(s, a), t, Relocking);
    case _ => OtherJoined(s, a);
  }

  lemma JoinJoined(s: State, t: Tid)
    requires Inv(s) && Enabled(s, Join(t))
    ensures Joined(Next(s, Join(t)))
  {
    hide Exclusive, Reserved;
    assert s.joinStart || In(Next(s, Join(t)), t, Waiting);
  }

  lemma ReturnJoined(s: State, t: Tid)
    requires Inv(s) && Enabled(s, Return(t))
    ensures Joined(Next(s, Return(t)))
  {
    hide Exclusive, Reserved, Locked;
  }

  lemma OtherJoined(s: State, a: Action)
    requires Inv(s) && Enabled(s, a) && !a.Join? && !a.Return? && !a.See?
    ensures Joined(Next(s, a))
  {
    hide Exclusive, Reserved;
    if a.Spawn? {
      assert In(s, MAIN, Relocking) ==> a.t in s.inSet;
    }
    SameJoins(s, Next(s, a));
  }

  lemma SameJoins(s: State, r: State)
    requires Joined(s) && r.joinStart == s.joinStart && (In(s, MAIN, Relocking) && s.inSet == {} ==> r.inSet == {})
    requires forall t, p | Joins(p) :: In(r, t, p) <==> In(s, t, p)
    ensures Joined(r)
  {
    assert forall t :: (t in s.threads && Joins(s.threads[t].phase)) <==> In(s, t, Waiting) || In(s, t, Relocking);
    assert forall t :: (t in r.threads && Joins(r.threads[t].phase)) <==> In(r, t, Waiting) || In(r, t, Relocking);
    if s.joinStart {
      var t :| t in s.threads && Joins(s.threads[t].phase);
      assert In(r, t, Waiting) || In(r, t, Relocking);
    }
  }

  // ---------------------------------------------------------------------------
  // Whole runs

  lemma {:induction false} RunsInv(s: State, acts: seq<Action>, r: State)
    requires Inv(s) && Runs(s, acts, r)
    ensures Inv(r)
    decreases |acts|
  {
    hide Inv, Enabled, Next;
    if acts != [] {
      NextInv(s, acts[0]);
      RunsInv(Next(s, acts[0]), acts[1..], r);
    }
  }

  /** Some run from the start leads here. */
  ghost predicate Reached(s: State) {
    exists s0, acts :: Initial(s0) && Runs(s0, acts, s)
  }

  lemma ReachedInv(s: State)
    requires Reached(s)
    ensures Inv(s)
  {
    var s0, acts :| Initial(s0) && Runs(s0, acts, s);
    InitialInv(s0);
    RunsInv(s0, acts, s);
  }

  /** No coroutine is ever in two places, and only one thread is at work. */
  lemma NeverTwice(s: State, t: Tid, u: Tid, i: nat, j: nat, c: Cid)
    requires Reached(s)
    ensures At(s, t, i, c) && At(s, u, j, c) ==> t == u && i == j
    ensures In(s, t, Running) && In(s, u, Running) ==> t == u
    ensures c in s.coros ==> (s.coros[c].active <==> exists v, k :: At(s, v, k, c))
  {
    ReachedInv(s);
    hide Reserved, Joined, Reached;
  }

  /** The coroutine a step goes into. */
  function Entering(s: State, a: Action): (c: Cid)
    requires Enabled(s, a) && (a.Resume? || a.Start?)
  {
    if a.Resume? then a.c else s.threads[a.t].root
  }

  /** A thread only ever goes into a coroutine that is alive, that no thread is in, and that
      no other thread was spawned for. */
  lemma EntersIdle(s: State, a: Action, u: Tid, i: nat)
    requires Reached(s) && Enabled(s, a) && (a.Resume? || a.Start?)
    ensures var c := Entering(s, a);
            && c in s.coros && s.coros[c].alive && !s.coros[c].active && !At(s, u, i, c)
            && (u in s.inSet && u != a.t ==> u in s.threads && s.threads[u].root != c)
            && At(Next(s, a), a.t, |s.threads[a.t].stack|, c)
  {
    ReachedInv(s);
    var c := Entering(s, a);
    if a.Start? {
      StartIdle(s, a.t);
    }
    NobodyIn(s, c);
    if u in s.inSet {
      assert Rooted(s, s.threads[u]);
      assert a.Start? ==> a.t in s.inSet;
    }
    hide Exclusive, Joined;
  }

  /** Only the main thread ever gets out of waiting for the others, and then it is the only
      thread left. */
  lemma ReturnsAlone(s: State, t: Tid)
    requires Reached(s) && Enabled(s, Return(t))
    ensures t == MAIN && s.inSet == {} && s.threads.Keys == {MAIN} && Next(s, Return(t)).gil == MAIN
  {
    ReachedInv(s);
    hide Exclusive, Reserved, Reached;
    assert forall u | u in s.threads :: u == MAIN || u in s.inSet;
  }

  /** It does get out, once the others have ended. */
  lemma ReturnsOnce(s: State) returns (acts: seq<Action>, r: State)
    requires Reached(s) && In(s, MAIN, Waiting) && s.inSet == {}
    ensures Runs(s, acts, r) && In(r, MAIN, Running) && r.gil == MAIN && !r.joinStart
  {
    ReachedInv(s);
    var rest := [See(MAIN), Return(MAIN)];
    if s.gil == FREE {
      acts := rest;
      r := SeeAndReturn(s);
    } else {
      OneLeft(s);
      hide Inv, Reached;
      var s1 := Next(s, Release(s.gil));
      r := SeeAndReturn(s1);
      acts := [Release(s.gil)] + rest;
      assert acts[1..] == rest;
    }
  }

  /** With the thread set empty, whoever else holds the lock is about to let it go. */
  lemma OneLeft(s: State)
    requires Inv(s) && In(s, MAIN, Waiting) && s.inSet == {} && s.gil != FREE
    ensures s.gil >= 0 && s.gil != MAIN && In(s, s.gil, Freed)
  {
    hide Exclusive, Reserved, Joined;
    assert s.gil !in s.inSet;
  }

  lemma SeeAndReturn(s: State) returns (r: State)
    requires In(s, MAIN, Waiting) && s.inSet == {} && s.gil == FREE
    ensures Runs(s, [See(MAIN), Return(MAIN)], r) && In(r, MAIN, Running) && r.gil == MAIN && !r.joinStart
  {
    var a := [See(MAIN), Return(MAIN)];
    var s2 := Next(s, See(MAIN));
    r := Next(s2, Return(MAIN));
    assert a[1..] == [Return(MAIN)] && a[1..][1..] == [];
    assert Runs(s2, [Return(MAIN)], r);
  }

  /** A spawned thread that waits for all threads waits for itself: it does so for ever, and
      from then on any other thread that wants to wait is turned away. */
  lemma {:induction false} SpawnedJoinHangs(s: State, t: Tid, acts: seq<Action>, r: State)
    requires Inv(s) && t != MAIN && In(s, t, Waiting) && Runs(s, acts, r)
    ensures In(r, t, Waiting) && t in r.inSet
    ensures forall u | Enabled(r, Join(u)) :: Next(r, Join(u)) == r
    decreases |acts|
  {
    if acts == [] {
      hide Exclusive, Reserved;
    } else {
      WaitsOn(s, t, acts[0]);
      NextInv(s, acts[0]);
      hide Inv, Enabled, Next;
      SpawnedJoinHangs(Next(s, acts[0]), t, acts[1..], r);
    }
  }

  /** And any main thread that spawns another one and lets it run may come to that: the
      other one only has to wait for all threads. */
  lemma SpawnedJoins(s: State, c: Cid, n: Tid) returns (r: State)
    requires Initial(s) && s.threads[MAIN].stack != [] && CanResume(s, c) && n != MAIN
    ensures Runs(s, [Spawn(MAIN, c, n), Sleep(MAIN), Start(n), Join(n)], r) && In(r, n, Waiting)
  {
    var s1, s2, s3;
    s1, s2, s3, r := SpawnedSteps(s, c, n);
    hide Next, Enabled;
    OneMore(s3, Join(n), [], r);
    OneMore(s2, Start(n), [Join(n)], r);
    OneMore(s1, Sleep(MAIN), [Start(n), Join(n)], r);
    OneMore(s, Spawn(MAIN, c, n), [Sleep(MAIN), Start(n), Join(n)], r);
    assert [Spawn(MAIN, c, n)] + [Sleep(MAIN), Start(n), Join(n)] == [Spawn(MAIN, c, n), Sleep(MAIN), Start(n), Join(n)];
  }

  lemma SpawnedSteps(s: State, c: Cid, n: Tid) returns (s1: State, s2: State, s3: State, r: State)
    requires Initial(s) && s.threads[MAIN].stack != [] && CanResume(s, c) && n != MAIN
    ensures Enabled(s, Spawn(MAIN, c, n)) && s1 == Next(s, Spawn(MAIN, c, n))
    ensures Enabled(s1, Sleep(MAIN)) && s2 == Next(s1, Sleep(MAIN))
    ensures Enabled(s2, Start(n)) && s3 == Next(s2, Start(n))
    ensures Enabled(s3, Join(n)) && r == Next(s3, Join(n)) && In(r, n, Waiting)
  {
    s1 := Next(s, Spawn(MAIN, c, n));
    s2 := Next(s1, Sleep(MAIN));
    s3 := Next(s2, Start(n));
    r := Next(s3, Join(n));
  }

  lemma OneMore(s: State, a: Action, rest: seq<Action>, r: State)
    requires Enabled(s, a) && Runs(Next(s, a), rest, r)
    ensures Runs(s, [a] + rest, r)
  {
    hide Next, Enabled;
    assert ([a] + rest)[1..] == rest;
  }

  /** So a state in which a spawned thread waits is one that threads get to. */
  lemma SpawnedJoinHappens()
    ensures exists r, t :: Reached(r) && t != MAIN && In(r, t, Waiting)
  {
    var s := State(map[MAIN := Thread(7, [7], Running)], {}, MAIN, map[7 := Coro(true, true, false), 8 := Coro(true, false, false)], false);
    assert Initial(s) by {
      assert s.threads[MAIN].stack == [7];
    }
    var r := SpawnedJoins(s, 8, 1);
    assert Reached(r) && In(r, 1, Waiting);
  }

  lemma WaitsOn(s: State, t: Tid, a: Action)
    requires Inv(s) && t != MAIN && In(s, t, Waiting) && Enabled(s, a)
    ensures In(Next(s, a), t, Waiting)
  {
    hide Exclusive, Reserved, Joined;
    assert t in s.inSet;
  }

  // ---------------------------------------------------------------------------
  // Coroutines that have ended

  ghost predicate Ended(s: State, c: Cid) {
    c in s.coros && !s.coros[c].alive && !s.coros[c].active
  }

  /** Going into coroutine `c`, or getting a thread for it. */
  predicate Takes(s: State, a: Action, c: Cid) {
    match a
    case Resume(_, d) => d == c
    case Spawn(_, d, _) => d == c
    case Start(t) => t in s.threads && s.threads[t].root == c
    case _ => false
  }

  lemma EndedStep(s: State, a: Action, c: Cid)
    requires Inv(s) && Enabled(s, a) && Ended(s, c)
    ensures Ended(Next(s, a), c) && !Takes(s, a, c)
  {
    match a
    case Start(t) =>
      StartIdle(s, t);
    case Stop(t, _) =>
      var n := |s.threads[t].stack| - 1;
      assert At(s, t, n, s.threads[t].stack[n]);
    case _ =>
  }

  /** The state after the first `i` steps of a run to `r`. */
  ghost function After(s: State, acts: seq<Action>, r: State, i: nat): State
    requires i <= |acts| && Runs(s, acts, r)
    decreases i
  {
    if i == 0 then s else After(Next(s, acts[0]), acts[1..], r, i - 1)
  }

  /** A coroutine that has ended stays so, and no step of any thread takes it again. */
  lemma {:induction false} EndedForGood(s: State, acts: seq<Action>, r: State, c: Cid, i: nat)
    requires Inv(s) && Runs(s, acts, r) && Ended(s, c) && i < |acts|
    ensures Ended(r, c) && (forall t, k :: !At(r, t, k, c))
    ensures !Takes(After(s, acts, r, i), acts[i], c)
    decreases |acts|
  {
    hide Inv, Enabled, Next, Takes, Ended, At;
    var s' := Next(s, acts[0]);
    EndedStep(s, acts[0], c);
    NextInv(s, acts[0]);
    if |acts| == 1 {
      EndedNobody(r, c);
    } else {
      EndedForGood(s', acts[1..], r, c, if i == 0 then 0 else i - 1);
    }
  }

  lemma EndedNobody(s: State, c: Cid)
    requires Inv(s) && Ended(s, c)
    ensures forall t, k :: !At(s, t, k, c)
  {
    NobodyIn(s, c);
  }

  /** Stopping leaves the coroutine a thread is in: alive if it says so, and otherwise for
      good. */
  lemma StopEnds(s: State, t: Tid, alive: bool)
    requires Inv(s) && Enabled(s, Stop(t, alive))
    ensures var c, r := s.threads[t].stack[|s.threads[t].stack| - 1], Next(s, Stop(t, alive));
            && c in r.coros && r.coros[c].alive == alive && !r.coros[c].active && (Ended(r, c) <==> !alive)
            && t in r.threads && r.threads[t].stack == s.threads[t].stack[..|s.threads[t].stack| - 1]
  {
  }
}
