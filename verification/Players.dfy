/**
 Rating updates by any number of threads: player_post_result as a system of small steps, where each
 lock, unlock and write is a step of its own.  The two expected scores are one step: the thread holds
 both locks then, and nobody else writes the ratings they are computed from.

 Ratings are ints, as in struct player; a new rating is computed with a fraction and loses it when it is
 stored.
 */
module Players {

  // ---------------------------------------------------------------- names

  /** The sign of strcmp. */
  function Cmp(a: string, b: string): int {
    if a == "" && b == "" then 0
    else if a == "" then -1
    else if b == "" then 1
    else if a[0] != b[0] then if a[0] < b[0] then -1 else 1
    else Cmp(a[1..], b[1..])
  }

  lemma {:induction false} CmpEqual(a: string, b: string)
    ensures Cmp(a, b) == 0 <==> a == b
    ensures Cmp(a, b) == -Cmp(b, a)
    decreases |a|
  {
    if a != "" && b != "" && a[0] == b[0] {
      CmpEqual(a[1..], b[1..]);
      assert a == [a[0]] + a[1..] && b == [b[0]] + b[1..];
    }
  }

  /** The first characters that differ decide, and a proper prefix is less. */
  lemma {:induction false} CmpDecides(p: string, a: string, b: string)
    requires (a == "" && b != "") || (a != "" && b != "" && a[0] < b[0])
    ensures Cmp(p + a, p + b) < 0 && Cmp(p + b, p + a) > 0
  {
    if p == "" {
      assert p + a == a && p + b == b;
    } else {
      assert (p + a)[1..] == p[1..] + a && (p + b)[1..] == p[1..] + b;
      CmpDecides(p[1..], a, b);
    }
  }

  lemma {:induction false} CmpTransitive(a: string, b: string, c: string)
    requires Cmp(a, b) > 0 && Cmp(b, c) > 0
    ensures Cmp(a, c) > 0
    decreases |a|
  {
    if c != "" && a[0] == b[0] && b[0] == c[0] { CmpTransitive(a[1..], b[1..], c[1..]); }
  }

  // ---------------------------------------------------------------- the system

  /** One call of player_post_result: two players, by number, and the result. */
  datatype Game = Game(player1: nat, player2: nat, result: int)

  /** What does not change: names, the games posted (one thread each), and the expected score of a
      player as a function of both ratings. */
  datatype World = World(names: seq<string>, games: seq<Game>, chance: (int, int) -> real)

  /** Where a thread is in player_post_result.  It holds a lock while it reads a name, and both while it
      updates; e1 and e2 are its local variables. */
  datatype Pc =
    | Start
    | ReadingSecond
    | HaveSecond
    | ReadingFirst
    | HaveNames
    | HoldsOne
    | HoldsBoth
    | Computed(e1: real, e2: real)
    | WroteOne(e2: real)
    | WroteBoth
    | HoldsLast
    | Done

  /** Threads, lock owners, ratings, and the order in which the threads computed their updates. */
  datatype State = State(pcs: seq<Pc>, owner: map<nat, nat>, ratings: seq<int>, log: seq<nat>)

  predicate WorldOk(w: World) {
    && (forall p, q :: 0 <= p < q < |w.names| ==> w.names[p] != w.names[q])
    && (forall t :: 0 <= t < |w.games| ==> GameOk(w, w.games[t]))
  }

  predicate GameOk(w: World, g: Game) {
    g.player1 < |w.names| && g.player2 < |w.names|
  }

  /** The player locked first, p1 in the source: the one with the smaller name. */
  function First(w: World, g: Game): (p: nat)
    requires GameOk(w, g)
    ensures p < |w.names|
  {
    if Cmp(w.names[g.player2], w.names[g.player1]) > 0 then g.player1 else g.player2
  }

  function Second(w: World, g: Game): (p: nat)
    requires GameOk(w, g)
    ensures p < |w.names|
  {
    if Cmp(w.names[g.player2], w.names[g.player1]) > 0 then g.player2 else g.player1
  }

  function Points(result: int, winner: int): real {
    if result == 0 then 0.5 else if result == winner then 1.0 else 0.0
  }

  /** What storing x in an int leaves of it: the whole number next to it on the side of zero. */
  function Trunc(x: real): (n: int)
    ensures x >= 0.0 ==> 0.0 <= n as real <= x < n as real + 1.0
    ensures x <= 0.0 ==> n as real - 1.0 < x <= n as real <= 0.0
  {
    if x >= 0.0 then x.Floor else -(-x).Floor
  }

  /** The rating computed from rating r, points scored s and points expected e, before it is stored. */
  function Computation(r: int, s: real, e: real): real {
    r as real + 32.0 * (s - e)
  }

  function NewRating(r: int, s: real, e: real): int {
    Trunc(Computation(r, s, e))
  }

  function Score1(w: World, g: Game): real
    requires GameOk(w, g)
  {
    Points(g.result, if Cmp(w.names[g.player2], w.names[g.player1]) > 0 then 1 else 2)
  }

  function Score2(w: World, g: Game): real
    requires GameOk(w, g)
  {
    Points(g.result, if Cmp(w.names[g.player2], w.names[g.player1]) > 0 then 2 else 1)
  }

  /** Locks a thread holds. */
  function Held(w: World, g: Game, pc: Pc): set<nat>
    requires GameOk(w, g)
  {
    match pc
    case ReadingSecond => {g.player2}
    case ReadingFirst => {g.player1}
    case HoldsOne => {First(w, g)}
    case HoldsBoth => {First(w, g), Second(w, g)}
    case Computed(_, _) => {First(w, g), Second(w, g)}
    case WroteOne(_) => {First(w, g), Second(w, g)}
    case WroteBoth => {First(w, g), Second(w, g)}
    case HoldsLast => {First(w, g)}
    case _ => {}
  }

  /** The lock a thread asks for next, if its next step is one. */
  function Wanted(w: World, g: Game, pc: Pc): set<nat>
    requires GameOk(w, g)
  {
    match pc
    case Start => {g.player2}
    case HaveSecond => {g.player1}
    case HaveNames => {First(w, g)}
    case HoldsOne => {Second(w, g)}
    case _ => {}
  }

  /** The lock its next step gives up, if it is one that does. */
  function Released(w: World, g: Game, pc: Pc): set<nat>
    requires GameOk(w, g)
  {
    match pc
    case ReadingSecond => {g.player2}
    case ReadingFirst => {g.player1}
    case WroteBoth => {Second(w, g)}
    case HoldsLast => {First(w, g)}
    case _ => {}
  }

  predicate StateOk(w: World, s: State) {
    WorldOk(w) && |s.pcs| == |w.games| && |s.ratings| == |w.names|
  }

  /** Thread t can take a step: it is not done, and the lock it asks for, if any, is free. */
  predicate Enabled(w: World, s: State, t: nat)
    requires StateOk(w, s) && t < |s.pcs|
  {
    !s.pcs[t].Done? && forall p :: p in Wanted(w, w.games[t], s.pcs[t]) ==> p !in s.owner
  }

  function Lock(s: State, t: nat, p: nat, pc: Pc): State
    requires t < |s.pcs|
  {
    s.(pcs := s.pcs[t := pc], owner := s.owner[p := t])
  }

  function Unlock(s: State, t: nat, p: nat, pc: Pc): State
    requires t < |s.pcs|
  {
    s.(pcs := s.pcs[t := pc], owner := s.owner - {p})
  }

  /** Thread t takes its next step. */
  function Step(w: World, s: State, t: nat): State
    requires StateOk(w, s) && t < |s.pcs| && Enabled(w, s, t)
  {
    var g := w.games[t];
    var p1, p2 := First(w, g), Second(w, g);
    match s.pcs[t]
    case Start => Lock(s, t, g.player2, ReadingSecond)
    case ReadingSecond => Unlock(s, t, g.player2, HaveSecond)
    case HaveSecond => Lock(s, t, g.player1, ReadingFirst)
    case ReadingFirst => Unlock(s, t, g.player1, HaveNames)
    case HaveNames => Lock(s, t, p1, HoldsOne)
    case HoldsOne => Lock(s, t, p2, HoldsBoth)
    case HoldsBoth =>
      var r1, r2 := s.ratings[p1], s.ratings[p2];
      s.(pcs := s.pcs[t := Computed(w.chance(r1, r2), w.chance(r2, r1))], log := s.log + [t])
    case Computed(e1, e2) => s.(pcs := s.pcs[t := WroteOne(e2)], ratings := s.ratings[p1 := NewRating(s.ratings[p1], Score1(w, g), e1)])
    case WroteOne(e2) => s.(pcs := s.pcs[t := WroteBoth], ratings := s.ratings[p2 := NewRating(s.ratings[p2], Score2(w, g), e2)])
    case WroteBoth => Unlock(s, t, p2, HoldsLast)
    case HoldsLast => Unlock(s, t, p1, Done)
  }

  function Init(w: World, ratings: seq<int>): State {
    State(seq(|w.games|, i => Start), map[], ratings, [])
  }

  /** The states a schedule leads to; a thread that cannot step is passed over. */
  function Run(w: World, ratings: seq<int>, schedule: seq<nat>): (s: State)
    requires WorldOk(w) && |ratings| == |w.names|
    ensures StateOk(w, s)
  {
    if schedule == [] then Init(w, ratings)
    else
      var s, t := Run(w, ratings, schedule[..|schedule| - 1]), schedule[|schedule| - 1];
      if t < |s.pcs| && Enabled(w, s, t) then Step(w, s, t) else s
  }

  // ---------------------------------------------------------------- locks

  /** A lock is owned by the one thread whose place in the code holds it, and by no other. */
  predicate LocksOk(w: World, s: State)
    requires StateOk(w, s)
  {
    && (forall p :: p in s.owner ==> s.owner[p] < |s.pcs| && p in Held(w, w.games[s.owner[p]], s.pcs[s.owner[p]]))
    && (forall t, p :: 0 <= t < |s.pcs| && p in Held(w, w.games[t], s.pcs[t]) ==> p in s.owner && s.owner[p] == t)
  }

  /** A game of a player against himself never gets past its first lock. */
  predicate SelfStuck(w: World, s: State)
    requires StateOk(w, s)
  {
    forall t :: 0 <= t < |s.pcs| && w.games[t].player1 == w.games[t].player2 ==>
      s.pcs[t] in {Start, ReadingSecond, HaveSecond, ReadingFirst, HaveNames, HoldsOne}
  }

  lemma StepShape(w: World, s: State, t: nat)
    requires StateOk(w, s) && t < |s.pcs| && Enabled(w, s, t)
    ensures var n := Step(w, s, t); StateOk(w, n) && |n.pcs| == |s.pcs| && forall u :: 0 <= u < |s.pcs| && u != t ==> n.pcs[u] == s.pcs[u]
  {
    hide First, Second, Score1, Score2, NewRating, Enabled, WorldOk;
  }

  /** What the step of thread t does to lock p. */
  lemma OwnerStep(w: World, s: State, t: nat, p: nat)
    requires StateOk(w, s) && t < |s.pcs| && Enabled(w, s, t)
    ensures var n := Step(w, s, t); var g, pc := w.games[t], s.pcs[t];
      && (p in n.owner <==> p in Wanted(w, g, pc) || (p in s.owner && p !in Released(w, g, pc)))
      && (p in n.owner ==> n.owner[p] == if p in Wanted(w, g, pc) then t else s.owner[p])
  {
    hide First, Second, Score1, Score2, NewRating;
  }

  /** What it does to the locks its place holds. */
  lemma HeldStep(w: World, s: State, t: nat)
    requires StateOk(w, s) && SelfStuck(w, s) && t < |s.pcs| && Enabled(w, s, t)
    ensures var g, pc := w.games[t], s.pcs[t];
      && Held(w, g, Step(w, s, t).pcs[t]) == Held(w, g, pc) + Wanted(w, g, pc) - Released(w, g, pc)
      && Released(w, g, pc) <= Held(w, g, pc) && Wanted(w, g, pc) !! Released(w, g, pc)
  {
    BothPlayers(w, w.games[t]);
    hide First, Second, Score1, Score2, NewRating, Cmp;
  }

  lemma StepStuck(w: World, s: State, t: nat)
    requires StateOk(w, s) && LocksOk(w, s) && SelfStuck(w, s) && t < |s.pcs| && Enabled(w, s, t)
    ensures StateOk(w, Step(w, s, t)) && SelfStuck(w, Step(w, s, t))
  {
    StepShape(w, s, t);
    BothPlayers(w, w.games[t]);
    hide First, Second, Score1, Score2, NewRating, Cmp;
    var g := w.games[t];
    assert s.pcs[t].HoldsOne? ==> First(w, g) in Held(w, g, s.pcs[t]) && Second(w, g) in Wanted(w, g, s.pcs[t]);
  }

  lemma StepLocks(w: World, s: State, t: nat)
    requires StateOk(w, s) && LocksOk(w, s) && SelfStuck(w, s) && t < |s.pcs| && Enabled(w, s, t)
    ensures StateOk(w, Step(w, s, t)) && LocksOk(w, Step(w, s, t)) && SelfStuck(w, Step(w, s, t))
  {
    hide Step, Held, SelfStuck, Enabled, GameOk;
    StepShape(w, s, t);
    StepStuck(w, s, t);
    StepHeld(w, s, t);
    var n := Step(w, s, t);
    forall p | p in n.owner ensures n.owner[p] < |n.pcs| && p in Held(w, w.games[n.owner[p]], n.pcs[n.owner[p]]) {
      if p in s.owner && s.owner[p] != t { assert p in Held(w, w.games[s.owner[p]], s.pcs[s.owner[p]]); }
    }
    forall u, p | 0 <= u < |n.pcs| && p in Held(w, w.games[u], n.pcs[u]) ensures p in n.owner && n.owner[p] == u {
      if u != t { assert p in Held(w, w.games[u], s.pcs[u]); }
    }
  }

  /** One step changes the locks of its own thread only, and gives and takes what its place holds. */
  lemma StepHeld(w: World, s: State, t: nat)
    requires StateOk(w, s) && LocksOk(w, s) && SelfStuck(w, s) && t < |s.pcs| && Enabled(w, s, t)
    ensures var n := Step(w, s, t); var g := w.games[t];
      (forall p :: p in n.owner && n.owner[p] == t <==> p in Held(w, g, n.pcs[t]))
      && (forall p :: p in s.owner && s.owner[p] != t <==> p in n.owner && n.owner[p] != t)
      && (forall p :: p in s.owner && s.owner[p] != t ==> n.owner[p] == s.owner[p])
  {
    hide First, Second, Held, LocksOk, SelfStuck, Score1, Score2, NewRating;
    forall p: nat
      ensures var n := Step(w, s, t); (p in n.owner && n.owner[p] == t <==> p in Held(w, w.games[t], n.pcs[t]))
      ensures var n := Step(w, s, t); (p in s.owner && s.owner[p] != t <==> p in n.owner && n.owner[p] != t) && (p in s.owner && s.owner[p] != t ==> n.owner[p] == s.owner[p])
    {
      StepHeldAt(w, s, t, p);
    }
  }

  lemma StepHeldAt(w: World, s: State, t: nat, p: nat)
    requires StateOk(w, s) && LocksOk(w, s) && SelfStuck(w, s) && t < |s.pcs| && Enabled(w, s, t)
    ensures var n := Step(w, s, t); (p in n.owner && n.owner[p] == t <==> p in Held(w, w.games[t], n.pcs[t]))
    ensures var n := Step(w, s, t); (p in s.owner && s.owner[p] != t <==> p in n.owner && n.owner[p] != t) && (p in s.owner && s.owner[p] != t ==> n.owner[p] == s.owner[p])
  {
    hide Step, Held, Wanted, Released, SelfStuck;
    OwnerStep(w, s, t, p);
    HeldStep(w, s, t);
    assert p in s.owner && s.owner[p] == t <==> p in Held(w, w.games[t], s.pcs[t]);
    assert p in Released(w, w.games[t], s.pcs[t]) ==> p in s.owner && s.owner[p] == t;
  }

  lemma BothPlayers(w: World, g: Game)
    requires GameOk(w, g)
    ensures {First(w, g), Second(w, g)} == {g.player1, g.player2} && (First(w, g) == Second(w, g) <==> g.player1 == g.player2)
  {
  }

  lemma {:induction false} RunLocks(w: World, ratings: seq<int>, schedule: seq<nat>)
    requires WorldOk(w) && |ratings| == |w.names|
    ensures LocksOk(w, Run(w, ratings, schedule)) && SelfStuck(w, Run(w, ratings, schedule))
  {
    if schedule != [] {
      var s, t := Run(w, ratings, schedule[..|schedule| - 1]), schedule[|schedule| - 1];
      RunLocks(w, ratings, schedule[..|schedule| - 1]);
      if t < |s.pcs| && Enabled(w, s, t) { StepLocks(w, s, t); }
    }
  }

  // ---------------------------------------------------------------- no deadlock

  predicate DistinctGames(w: World) {
    forall t :: 0 <= t < |w.games| ==> w.games[t].player1 != w.games[t].player2
  }

  /** Players whose names come after that of player q. */
  function Above(w: World, q: nat): set<nat>
    requires q < |w.names|
  {
    set p | 0 <= p < |w.names| && Cmp(w.names[p], w.names[q]) > 0
  }

  /** Locks are taken in the order of names. */
  lemma NameOrder(w: World, g: Game)
    requires WorldOk(w) && GameOk(w, g) && g.player1 != g.player2
    ensures Cmp(w.names[Second(w, g)], w.names[First(w, g)]) > 0 && Above(w, Second(w, g)) < Above(w, First(w, g))
  {
    CmpEqual(w.names[g.player1], w.names[g.player2]);
    assert w.names[g.player1] != w.names[g.player2] by {
      if g.player1 < g.player2 { assert w.names[g.player1] != w.names[g.player2]; }
    }
    var a, b := First(w, g), Second(w, g);
    forall p | p in Above(w, b) ensures p in Above(w, a) { CmpTransitive(w.names[p], w.names[b], w.names[a]); }
    assert b in Above(w, a);
    CmpEqual(w.names[b], w.names[b]);
    assert b !in Above(w, b);
  }

  /** The chain of threads that hold one lock and wait for the next ends, since the names grow along it. */
  lemma EndOfChain(w: World, s: State, t: nat) returns (u: nat)
    requires StateOk(w, s) && LocksOk(w, s) && DistinctGames(w) && t < |s.pcs| && s.pcs[t].HoldsOne?
    ensures u < |s.pcs| && Enabled(w, s, u)
    decreases Above(w, First(w, w.games[t]))
  {
    u := t;
    if !Enabled(w, s, t) {
      var p := Second(w, w.games[t]);
      u := s.owner[p];
      assert p in Held(w, w.games[u], s.pcs[u]);
      NameOrder(w, w.games[t]);
      if s.pcs[u].HoldsOne? { u := EndOfChain(w, s, u); }
    }
  }

  /** Some thread can step. */
  ghost predicate Progress(w: World, s: State)
    requires StateOk(w, s)
  {
    exists t :: 0 <= t < |s.pcs| && Enabled(w, s, t)
  }

  predicate AllDone(s: State) {
    forall t :: 0 <= t < |s.pcs| ==> s.pcs[t].Done?
  }

  lemma SomeEnabled(w: World, s: State, t: nat) returns (u: nat)
    requires StateOk(w, s) && LocksOk(w, s) && DistinctGames(w) && t < |s.pcs| && !s.pcs[t].Done?
    ensures u < |s.pcs| && Enabled(w, s, u)
  {
    u := t;
    if !Enabled(w, s, t) {
      var p :| p in Wanted(w, w.games[t], s.pcs[t]) && p in s.owner;
      u := s.owner[p];
      assert p in Held(w, w.games[u], s.pcs[u]);
      if s.pcs[u].HoldsOne? { u := EndOfChain(w, s, u); }
    }
  }

  /** No deadlock: for any number of threads and any schedule, as long as some thread is not done, some
      thread can step, provided nobody plays himself. */
  lemma DeadlockFree(w: World, ratings: seq<int>, schedule: seq<nat>)
    requires WorldOk(w) && |ratings| == |w.names| && DistinctGames(w)
    ensures AllDone(Run(w, ratings, schedule)) || Progress(w, Run(w, ratings, schedule))
  {
    var s := Run(w, ratings, schedule);
    RunLocks(w, ratings, schedule);
    if !AllDone(s) {
      var t :| 0 <= t < |s.pcs| && !s.pcs[t].Done?;
      var u := SomeEnabled(w, s, t);
    }
  }

  // ---------------------------------------------------------------- every run ends

  /** Steps a thread still has to take. */
  function ToGo(pc: Pc): nat {
    match pc
    case Start => 11 case ReadingSecond => 10 case HaveSecond => 9 case ReadingFirst => 8 case HaveNames => 7
    case HoldsOne => 6 case HoldsBoth => 5 case Computed(_, _) => 4 case WroteOne(_) => 3 case WroteBoth => 2
    case HoldsLast => 1 case Done => 0
  }

  function Total(pcs: seq<Pc>): nat {
    if pcs == [] then 0 else ToGo(pcs[0]) + Total(pcs[1..])
  }

  lemma {:induction false} TotalUpdate(pcs: seq<Pc>, t: nat, pc: Pc)
    requires t < |pcs|
    ensures Total(pcs[t := pc]) == Total(pcs) - ToGo(pcs[t]) + ToGo(pc)
  {
    if t == 0 {
      assert pcs[t := pc][1..] == pcs[1..];
    } else {
      TotalUpdate(pcs[1..], t - 1, pc);
      assert pcs[t := pc][1..] == pcs[1..][t - 1 := pc];
    }
  }

  /** Every step brings the system one step closer to its end, so no run takes more than eleven steps a
      thread. */
  lemma StepCounts(w: World, s: State, t: nat)
    requires StateOk(w, s) && t < |s.pcs| && Enabled(w, s, t)
    ensures Total(Step(w, s, t).pcs) == Total(s.pcs) - 1
  {
    TotalUpdate(s.pcs, t, Step(w, s, t).pcs[t]);
    assert Step(w, s, t).pcs == s.pcs[t := Step(w, s, t).pcs[t]];
  }

  lemma RunMore(w: World, ratings: seq<int>, schedule: seq<nat>, t: nat)
    requires WorldOk(w) && |ratings| == |w.names|
    ensures var s := Run(w, ratings, schedule); Run(w, ratings, schedule + [t]) == if t < |s.pcs| && Enabled(w, s, t) then Step(w, s, t) else s
  {
    assert (schedule + [t])[..|schedule + [t]| - 1] == schedule;
  }

  /** From any reachable state the system can be run to its end. */
  lemma {:induction false} CanFinish(w: World, ratings: seq<int>, schedule: seq<nat>) returns (whole: seq<nat>)
    requires WorldOk(w) && |ratings| == |w.names| && DistinctGames(w)
    ensures schedule <= whole && AllDone(Run(w, ratings, whole))
    decreases Total(Run(w, ratings, schedule).pcs)
  {
    var s := Run(w, ratings, schedule);
    whole := schedule;
    if !AllDone(s) {
      DeadlockFree(w, ratings, schedule);
      var t :| 0 <= t < |s.pcs| && Enabled(w, s, t);
      StepCounts(w, s, t);
      RunMore(w, ratings, schedule, t);
      whole := CanFinish(w, ratings, schedule + [t]);
    }
  }

  /** Under this schedule all calls return. */
  predicate Finishes(w: World, ratings: seq<int>, schedule: seq<nat>)
    requires WorldOk(w) && |ratings| == |w.names|
  {
    AllDone(Run(w, ratings, schedule))
  }

  /** All calls can return exactly if nobody plays himself. */
  lemma FinishesExactly(w: World, ratings: seq<int>)
    requires WorldOk(w) && |ratings| == |w.names|
    ensures DistinctGames(w) <==> exists schedule: seq<nat> :: Finishes(w, ratings, schedule)
  {
    if DistinctGames(w) {
      var whole := CanFinish(w, ratings, []);
      assert Finishes(w, ratings, whole);
    } else {
      forall schedule: seq<nat> ensures !Finishes(w, ratings, schedule) {
        RunLocks(w, ratings, schedule);
        var t :| 0 <= t < |w.games| && w.games[t].player1 == w.games[t].player2;
        assert !Run(w, ratings, schedule).pcs[t].Done?;
      }
    }
  }

  // ---------------------------------------------------------------- updates are atomic

  /** The update of one game, all at once. */
  function Update(w: World, g: Game, ratings: seq<int>): seq<int>
    requires GameOk(w, g) && |ratings| == |w.names|
  {
    var p1, p2 := First(w, g), Second(w, g);
    var r1, r2 := ratings[p1], ratings[p2];
    ratings[p1 := NewRating(r1, Score1(w, g), w.chance(r1, r2))][p2 := NewRating(r2, Score2(w, g), w.chance(r2, r1))]
  }

  /** The ratings after the games of a log, one at a time. */
  function Serial(w: World, ratings: seq<int>, log: seq<nat>): (r: seq<int>)
    requires WorldOk(w) && |ratings| == |w.names|
    requires forall i :: 0 <= i < |log| ==> log[i] < |w.games|
    ensures |r| == |ratings|
  {
    if log == [] then ratings
    else Update(w, w.games[log[|log| - 1]], Serial(w, ratings, log[..|log| - 1]))
  }

  /** What rating r of player p will be once the thread at pc, which holds it, has written what it has
      computed. */
  function Pending(w: World, g: Game, pc: Pc, p: nat, r: int): int
    requires GameOk(w, g)
  {
    match pc
    case Computed(e1, e2) => if p == First(w, g) then NewRating(r, Score1(w, g), e1) else NewRating(r, Score2(w, g), e2)
    case WroteOne(e2) => if p == First(w, g) then r else NewRating(r, Score2(w, g), e2)
    case _ => r
  }

  function Settled(w: World, s: State, p: nat): int
    requires StateOk(w, s) && p < |s.ratings|
  {
    if p !in s.owner || s.owner[p] >= |s.pcs| then s.ratings[p]
    else Pending(w, w.games[s.owner[p]], s.pcs[s.owner[p]], p, s.ratings[p])
  }

  predicate PastCompute(pc: Pc) {
    ToGo(pc) < 5
  }

  /** The log holds each thread that has computed its update, once. */
  predicate LogOk(w: World, s: State)
    requires StateOk(w, s)
  {
    && (forall i :: 0 <= i < |s.log| ==> s.log[i] < |w.games|)
    && (forall i, j :: 0 <= i < j < |s.log| ==> s.log[i] != s.log[j])
    && (forall t :: 0 <= t < |s.pcs| ==> (t in s.log <==> PastCompute(s.pcs[t])))
  }

  predicate Serializable(w: World, start: seq<int>, s: State)
    requires StateOk(w, s) && |start| == |w.names|
  {
    LogOk(w, s) && forall p :: 0 <= p < |s.ratings| ==> Settled(w, s, p) == Serial(w, start, s.log)[p]
  }

  lemma StepLog(w: World, s: State, t: nat)
    requires StateOk(w, s) && LogOk(w, s) && t < |s.pcs| && Enabled(w, s, t)
    ensures LogOk(w, Step(w, s, t))
  {
    var n := Step(w, s, t);
    forall u | 0 <= u < |n.pcs| ensures u in n.log <==> PastCompute(n.pcs[u]) {
      if u != t { assert n.pcs[u] == s.pcs[u]; }
    }
  }

  /** The step that computes logs the game, and settles the two ratings as the game's update does. */
  lemma ComputeSettles(w: World, s: State, t: nat, p: nat)
    requires StateOk(w, s) && LocksOk(w, s) && SelfStuck(w, s) && t < |s.pcs| && s.pcs[t].HoldsBoth? && p < |s.ratings|
    ensures var g := w.games[t]; var n := Step(w, s, t);
      (p != First(w, g) && p != Second(w, g) ==> Settled(w, n, p) == Settled(w, s, p))
      && (p == First(w, g) || p == Second(w, g) ==> Settled(w, s, p) == s.ratings[p])
      && Settled(w, n, First(w, g)) == NewRating(s.ratings[First(w, g)], Score1(w, g), w.chance(s.ratings[First(w, g)], s.ratings[Second(w, g)]))
      && Settled(w, n, Second(w, g)) == NewRating(s.ratings[Second(w, g)], Score2(w, g), w.chance(s.ratings[Second(w, g)], s.ratings[First(w, g)]))
      && First(w, g) != Second(w, g)
  {
    var g := w.games[t];
    assert GameOk(w, g) && g.player1 != g.player2;
    assert First(w, g) in Held(w, g, s.pcs[t]) && Second(w, g) in Held(w, g, s.pcs[t]);
  }

  lemma SettledElsewhere(w: World, s: State, t: nat, p: nat)
    requires StateOk(w, s) && LocksOk(w, s) && SelfStuck(w, s) && t < |s.pcs| && Enabled(w, s, t) && p < |s.ratings|
    requires p !in Held(w, w.games[t], s.pcs[t]) && p !in Held(w, w.games[t], Step(w, s, t).pcs[t])
    ensures Settled(w, Step(w, s, t), p) == Settled(w, s, p)
  {
    hide Cmp, Score1, Score2, First, Second, SelfStuck, Pending;
    assert GameOk(w, w.games[t]);
    StepHeld(w, s, t);
    var n, g := Step(w, s, t), w.games[t];
    assert p in s.owner ==> s.owner[p] != t;
    assert forall u :: 0 <= u < |s.pcs| && u != t ==> n.pcs[u] == s.pcs[u];
  }

  /** Any other step changes no settled rating. */
  lemma StepSettles(w: World, s: State, t: nat, p: nat)
    requires StateOk(w, s) && LocksOk(w, s) && SelfStuck(w, s) && t < |s.pcs| && Enabled(w, s, t) && !s.pcs[t].HoldsBoth? && p < |s.ratings|
    ensures Settled(w, Step(w, s, t), p) == Settled(w, s, p)
  {
    var g, n := w.games[t], Step(w, s, t);
    assert GameOk(w, g);
    if p !in Held(w, g, s.pcs[t]) && p !in Held(w, g, n.pcs[t]) {
      SettledElsewhere(w, s, t, p);
    } else {
      if s.pcs[t].Computed? || s.pcs[t].WroteOne? { assert g.player1 != g.player2 && First(w, g) != Second(w, g); }
      StepHeld(w, s, t);
      hide Cmp, Score1, Score2, First, Second, SelfStuck;
      if p in Held(w, g, s.pcs[t]) { assert s.owner[p] == t; }
      if p in Held(w, g, n.pcs[t]) { assert n.owner[p] == t; }
    }
  }

  lemma StepSerializable(w: World, start: seq<int>, s: State, t: nat)
    requires StateOk(w, s) && |start| == |w.names| && LocksOk(w, s) && SelfStuck(w, s) && t < |s.pcs| && Enabled(w, s, t) && Serializable(w, start, s)
    ensures Serializable(w, start, Step(w, s, t))
  {
    hide Cmp, Settled, First, Second, Score1, Score2, LocksOk, SelfStuck;
    StepLog(w, s, t);
    var n := Step(w, s, t);
    assert |n.ratings| == |s.ratings| && GameOk(w, w.games[t]);
    forall p | 0 <= p < |n.ratings| ensures Settled(w, n, p) == Serial(w, start, n.log)[p] {
      if s.pcs[t].HoldsBoth? {
        assert n.log[..|n.log| - 1] == s.log;
        var g := w.games[t];
        ComputeSettles(w, s, t, p);
        ComputeSettles(w, s, t, First(w, g));
        ComputeSettles(w, s, t, Second(w, g));
      } else {
        StepSettles(w, s, t, p);
      }
    }
  }

  lemma {:induction false} RunSerializable(w: World, ratings: seq<int>, schedule: seq<nat>)
    requires WorldOk(w) && |ratings| == |w.names|
    ensures Serializable(w, ratings, Run(w, ratings, schedule))
  {
    if schedule != [] {
      hide Settled, LocksOk, SelfStuck, Step, Enabled, Serializable;
      var before, t := schedule[..|schedule| - 1], schedule[|schedule| - 1];
      var s := Run(w, ratings, before);
      RunSerializable(w, ratings, before);
      RunLocks(w, ratings, before);
      if t < |s.pcs| && Enabled(w, s, t) { StepSerializable(w, ratings, s, t); }
    } else {
      SerializableAtStart(w, ratings);
    }
  }

  lemma SerializableAtStart(w: World, ratings: seq<int>)
    requires WorldOk(w) && |ratings| == |w.names|
    ensures Serializable(w, ratings, Init(w, ratings))
  {
  }

  /** Whatever the schedule, once all calls have returned the ratings are those of the games applied one
      at a time, each of them once, in the order in which they were computed. */
  lemma UpdatesAreAtomic(w: World, ratings: seq<int>, schedule: seq<nat>)
    requires WorldOk(w) && |ratings| == |w.names| && AllDone(Run(w, ratings, schedule))
    ensures var s := Run(w, ratings, schedule);
      LogOk(w, s) && (forall t :: 0 <= t < |w.games| ==> t in s.log) && s.ratings == Serial(w, ratings, s.log) && s.owner == map[]
  {
    hide Update, Step, SelfStuck;
    var s := Run(w, ratings, schedule);
    RunSerializable(w, ratings, schedule);
    RunLocks(w, ratings, schedule);
    assert forall p :: p !in s.owner;
    assert s.owner == map[];
    assert forall p :: 0 <= p < |s.ratings| ==> s.ratings[p] == Settled(w, s, p);
  }

  // ---------------------------------------------------------------- what happens to the points

  function Sum(rs: seq<int>): int {
    if rs == [] then 0 else rs[0] + Sum(rs[1..])
  }

  lemma {:induction false} SumUpdate(rs: seq<int>, p: nat, r: int)
    requires p < |rs|
    ensures Sum(rs[p := r]) == Sum(rs) - rs[p] + r
  {
    if p == 0 {
      assert rs[p := r][1..] == rs[1..];
    } else {
      SumUpdate(rs[1..], p - 1, r);
      assert rs[p := r][1..] == rs[1..][p - 1 := r];
    }
  }

  /** The two expected scores of a game add up to one, and its result is a draw or a win for one side. */
  ghost predicate FairWorld(w: World) {
    (forall a, b :: w.chance(a, b) + w.chance(b, a) == 1.0) && forall t :: 0 <= t < |w.games| ==> w.games[t].result in {0, 1, 2}
  }

  predicate Whole(x: real) {
    x.Floor as real == x
  }

  /** What the stored ratings x and y of two players gain over the computed ones: nothing if those are
      whole or on different sides of zero, else a point is lost above zero and won below. */
  function Gain(x: real, y: real): int {
    if Whole(x) || x < 0.0 <= y || y < 0.0 <= x then 0 else if x < 0.0 then 1 else -1
  }

  lemma TruncPair(x: real, y: real, n: int)
    requires x + y == n as real
    ensures Trunc(x) + Trunc(y) == n + Gain(x, y)
    ensures Whole(x) <==> Whole(y)
  {
    var k := x.Floor;
    var rest := x - k as real;
    assert 0.0 <= rest < 1.0 && y == (n - k) as real - rest;
    if rest == 0.0 {
      assert x == k as real && y == (n - k) as real;
    } else {
      assert (n - k - 1) as real < y < (n - k) as real;
      assert y.Floor == n - k - 1;
    }
  }

  /** The computed ratings of the two players of a game, from the ratings before it. */
  function Computed1(w: World, g: Game, rs: seq<int>): real
    requires GameOk(w, g) && |rs| == |w.names|
  {
    Computation(rs[First(w, g)], Score1(w, g), w.chance(rs[First(w, g)], rs[Second(w, g)]))
  }

  function Computed2(w: World, g: Game, rs: seq<int>): real
    requires GameOk(w, g) && |rs| == |w.names|
  {
    Computation(rs[Second(w, g)], Score2(w, g), w.chance(rs[Second(w, g)], rs[First(w, g)]))
  }

  lemma TwoUpdates(rs: seq<int>, p1: nat, p2: nat, x: int, y: int)
    requires p1 < |rs| && p2 < |rs| && p1 != p2
    ensures Sum(rs[p1 := x][p2 := y]) == Sum(rs) - rs[p1] - rs[p2] + x + y
  {
    SumUpdate(rs, p1, x);
    SumUpdate(rs[p1 := x], p2, y);
  }

  lemma UpdateGains(w: World, g: Game, rs: seq<int>)
    requires GameOk(w, g) && |rs| == |w.names| && g.player1 != g.player2 && g.result in {0, 1, 2} && FairWorld(w)
    ensures Sum(Update(w, g, rs)) == Sum(rs) + Gain(Computed1(w, g, rs), Computed2(w, g, rs))
  {
    BothPlayers(w, g);
    ScoresAddUp(w, g);
    hide Score1, Score2, First, Second, Sum, Trunc, Gain;
    var p1, p2 := First(w, g), Second(w, g);
    var x, y := Computed1(w, g, rs), Computed2(w, g, rs);
    assert x + y == (rs[p1] + rs[p2]) as real;
    TruncPair(x, y, rs[p1] + rs[p2]);
    TwoUpdates(rs, p1, p2, Trunc(x), Trunc(y));
  }

  lemma ScoresAddUp(w: World, g: Game)
    requires GameOk(w, g) && g.result in {0, 1, 2}
    ensures Score1(w, g) + Score2(w, g) == 1.0
  {
  }

  /** The points gained over a log of games, game by game. */
  function Gains(w: World, ratings: seq<int>, log: seq<nat>): (d: int)
    requires WorldOk(w) && |ratings| == |w.names|
    requires forall i :: 0 <= i < |log| ==> log[i] < |w.games|
  {
    if log == [] then 0
    else
      var before := log[..|log| - 1];
      var g, rs := w.games[log[|log| - 1]], Serial(w, ratings, before);
      Gains(w, ratings, before) + Gain(Computed1(w, g, rs), Computed2(w, g, rs))
  }

  lemma {:induction false} SerialGains(w: World, ratings: seq<int>, log: seq<nat>)
    requires WorldOk(w) && |ratings| == |w.names| && FairWorld(w) && DistinctGames(w)
    requires forall i :: 0 <= i < |log| ==> log[i] < |w.games|
    ensures Sum(Serial(w, ratings, log)) == Sum(ratings) + Gains(w, ratings, log)
    ensures -|log| <= Gains(w, ratings, log) <= |log|
  {
    if log != [] {
      hide Update, Sum, Computed1, Computed2;
      var before := log[..|log| - 1];
      SerialGains(w, ratings, before);
      var g, rs := w.games[log[|log| - 1]], Serial(w, ratings, before);
      assert GameOk(w, g);
      UpdateGains(w, g, rs);
    }
  }

  lemma {:induction false} DistinctBound(s: seq<nat>, n: nat)
    requires forall i :: 0 <= i < |s| ==> s[i] < n
    requires forall i, j :: 0 <= i < j < |s| ==> s[i] != s[j]
    ensures |s| <= n
    decreases n
  {
    if s != [] {
      assert s[0] < n;
      if n - 1 in s {
        var i :| 0 <= i < |s| && s[i] == n - 1;
        DistinctBound(s[..i] + s[i + 1..], n - 1);
      } else {
        DistinctBound(s, n - 1);
      }
    }
  }

  /** Whatever the schedule: each game gains or loses at most one point, and which is told by the two
      ratings it computes. */
  lemma PointsGained(w: World, ratings: seq<int>, schedule: seq<nat>)
    requires WorldOk(w) && |ratings| == |w.names| && FairWorld(w) && AllDone(Run(w, ratings, schedule))
    ensures var s := Run(w, ratings, schedule);
      LogOk(w, s) && Sum(s.ratings) == Sum(ratings) + Gains(w, ratings, s.log) && |s.log| <= |w.games|
      && -|w.games| <= Gains(w, ratings, s.log) <= |w.games|
  {
    UpdatesAreAtomic(w, ratings, schedule);
    FinishesExactly(w, ratings);
    assert Finishes(w, ratings, schedule);
    var s := Run(w, ratings, schedule);
    SerialGains(w, ratings, s.log);
    DistinctBound(s.log, |w.games|);
  }

  /** No game of the log computes a rating below zero. */
  predicate NeverNegative(w: World, ratings: seq<int>, log: seq<nat>)
    requires WorldOk(w) && |ratings| == |w.names|
    requires forall i :: 0 <= i < |log| ==> log[i] < |w.games|
  {
    log == [] ||
    var before := log[..|log| - 1];
    var g, rs := w.games[log[|log| - 1]], Serial(w, ratings, before);
    NeverNegative(w, ratings, before) && Computed1(w, g, rs) >= 0.0 && Computed2(w, g, rs) >= 0.0
  }

  /** Every game of the log moves a whole number of points. */
  predicate WholeMoves(w: World, ratings: seq<int>, log: seq<nat>)
    requires WorldOk(w) && |ratings| == |w.names|
    requires forall i :: 0 <= i < |log| ==> log[i] < |w.games|
  {
    log == [] ||
    var before := log[..|log| - 1];
    var g, rs := w.games[log[|log| - 1]], Serial(w, ratings, before);
    WholeMoves(w, ratings, before) && Whole(32.0 * (Score1(w, g) - w.chance(rs[First(w, g)], rs[Second(w, g)])))
  }

  lemma WholeShift(r: int, d: real)
    ensures Whole(r as real + d) <==> Whole(d)
  {
    var k := d.Floor;
    assert (r as real + d).Floor == r + k;
  }

  /** One game that leaves both ratings at zero or more makes no points, and loses none exactly if it moves
      a whole number of them. */
  lemma GainExact(w: World, g: Game, rs: seq<int>)
    requires WorldOk(w) && GameOk(w, g) && |rs| == |w.names| && Computed1(w, g, rs) >= 0.0 && Computed2(w, g, rs) >= 0.0
    ensures Gain(Computed1(w, g, rs), Computed2(w, g, rs)) <= 0
    ensures Gain(Computed1(w, g, rs), Computed2(w, g, rs)) == 0 <==> Whole(32.0 * (Score1(w, g) - w.chance(rs[First(w, g)], rs[Second(w, g)])))
  {
    hide Score1, Score2, First, Second;
    WholeShift(rs[First(w, g)], 32.0 * (Score1(w, g) - w.chance(rs[First(w, g)], rs[Second(w, g)])));
  }

  lemma {:induction false} GainsExact(w: World, ratings: seq<int>, log: seq<nat>)
    requires WorldOk(w) && |ratings| == |w.names|
    requires forall i :: 0 <= i < |log| ==> log[i] < |w.games|
    requires NeverNegative(w, ratings, log)
    ensures Gains(w, ratings, log) <= 0
    ensures Gains(w, ratings, log) == 0 <==> WholeMoves(w, ratings, log)
  {
    hide Gain, Computed1, Computed2, Whole, Score1, Score2, First, Second, Serial;
    if log != [] {
      var before := log[..|log| - 1];
      GainsExact(w, ratings, before);
      GainExact(w, w.games[log[|log| - 1]], Serial(w, ratings, before));
    }
  }

  /** As long as no rating falls below zero, points are never made, and they are all kept exactly if
      every game moves a whole number of them. */
  lemma PointsKeptExactly(w: World, ratings: seq<int>, schedule: seq<nat>)
    requires WorldOk(w) && |ratings| == |w.names| && FairWorld(w) && AllDone(Run(w, ratings, schedule))
    requires LogOk(w, Run(w, ratings, schedule)) && NeverNegative(w, ratings, Run(w, ratings, schedule).log)
    ensures var s := Run(w, ratings, schedule);
      Sum(s.ratings) <= Sum(ratings) && (Sum(s.ratings) == Sum(ratings) <==> WholeMoves(w, ratings, s.log))
  {
    PointsGained(w, ratings, schedule);
    GainsExact(w, ratings, Run(w, ratings, schedule).log);
  }

  /** Two wins of one player over another, both starting with the initial rating. */
  predicate TwoWins(w: World) {
    && WorldOk(w) && |w.names| == 2 && w.games == [Game(0, 1, 1), Game(0, 1, 1)]
    && w.chance(1500, 1500) == 0.5 && 0.54 < w.chance(1516, 1484) < 0.55 && w.chance(1484, 1516) == 1.0 - w.chance(1516, 1484)
  }

  lemma TwoWinsUpdate(w: World)
    requires TwoWins(w)
    ensures Update(w, w.games[0], [1500, 1500]) == [1516, 1484]
    ensures Update(w, w.games[0], [1516, 1484]) == [1530, 1469]
  {
    var g := w.games[0];
    UpdateEitherSide(w, g, [1500, 1500]);
    UpdateEitherSide(w, g, [1516, 1484]);
    hide Update;
    assert NewRating(1500, 1.0, 0.5) == 1516 && NewRating(1500, 0.0, 0.5) == 1484;
    var e := w.chance(1516, 1484);
    assert Computation(1516, 1.0, e) == 1548.0 - 32.0 * e;
    assert Computation(1484, 0.0, 1.0 - e) == 1452.0 + 32.0 * e;
    assert NewRating(1516, 1.0, e) == 1530 && NewRating(1484, 0.0, 1.0 - e) == 1469;
  }

  /** Points do get lost: after the second win the ratings are 1530 and 1469, whatever the schedule. */
  lemma PointLost(w: World, schedule: seq<nat>)
    requires TwoWins(w) && AllDone(Run(w, [1500, 1500], schedule))
    ensures Run(w, [1500, 1500], schedule).ratings == [1530, 1469]
    ensures Sum([1530, 1469]) == 2999 && Sum([1500, 1500]) == 3000
  {
    UpdatesAreAtomic(w, [1500, 1500], schedule);
    TwoWinsUpdate(w);
    hide Update;
    var log := Run(w, [1500, 1500], schedule).log;
    DistinctBound(log, 2);
    assert 0 in log && 1 in log;
    assert |log| == 2;
    assert log[..1][..0] == [] && log[..1] == [log[0]];
    assert Serial(w, [1500, 1500], log[..1]) == [1516, 1484];
    assert Sum([1530, 1469]) == 2999 by { assert [1530, 1469][1..] == [1469]; }
    assert Sum([1500, 1500]) == 3000 by { assert [1500, 1500][1..] == [1500]; }
  }

  // ---------------------------------------------------------------- one call by itself

  class Player {
    const name: string
    var rating: int

    constructor (name: string, rating: int)
      ensures this.name == name && this.rating == rating
    {
      this.name, this.rating := name, rating;
    }
  }

  /** player_post_result with both locks held throughout: each player moves by 32 times the points scored,
      half of one for a draw and one for a win, less those expected from both old ratings, whichever of the two is locked first, and what is stored is
      the whole number next to it on the side of zero. */
  method PostResult(player1: Player, player2: Player, result: int, chance: (int, int) -> real)
    requires player1 != player2
    modifies player1`rating, player2`rating
    ensures var s1 := if result == 0 then 0.5 else if result == 1 then 1.0 else 0.0;
      player1.rating == Trunc(old(player1.rating) as real + 32.0 * (s1 - chance(old(player1.rating), old(player2.rating))))
    ensures var s2 := if result == 0 then 0.5 else if result == 2 then 1.0 else 0.0;
      player2.rating == Trunc(old(player2.rating) as real + 32.0 * (s2 - chance(old(player2.rating), old(player1.rating))))
  {
    var p1, p2, s1, s2;
    if Cmp(player2.name, player1.name) > 0 {
      p1, p2 := player1, player2;
      s1 := if result == 0 then 0.5 else if result == 1 then 1.0 else 0.0;
      s2 := if result == 0 then 0.5 else if result == 2 then 1.0 else 0.0;
    } else {
      p1, p2 := player2, player1;
      s1 := if result == 0 then 0.5 else if result == 2 then 1.0 else 0.0;
      s2 := if result == 0 then 0.5 else if result == 1 then 1.0 else 0.0;
    }
    var e1, e2 := chance(p1.rating, p2.rating), chance(p2.rating, p1.rating);
    p1.rating := Trunc(p1.rating as real + 32.0 * (s1 - e1));
    p2.rating := Trunc(p2.rating as real + 32.0 * (s2 - e2));
  }

  /** The atomic update of the step system is that of one call by itself, seen from either side. */
  lemma UpdateEitherSide(w: World, g: Game, rs: seq<int>)
    requires GameOk(w, g) && |rs| == |w.names| && g.player1 != g.player2
    ensures var r1, r2 := rs[g.player1], rs[g.player2];
      var s1 := if g.result == 0 then 0.5 else if g.result == 1 then 1.0 else 0.0;
      var s2 := if g.result == 0 then 0.5 else if g.result == 2 then 1.0 else 0.0;
      var n1, n2 := Trunc(r1 as real + 32.0 * (s1 - w.chance(r1, r2))), Trunc(r2 as real + 32.0 * (s2 - w.chance(r2, r1)));
      Update(w, g, rs) == rs[g.player1 := n1][g.player2 := n2]
  {
    hide Trunc;
  }

  /** A draw of equals changes nothing. */
  lemma DrawOfEquals(w: World, g: Game, rs: seq<int>)
    requires GameOk(w, g) && |rs| == |w.names| && g.player1 != g.player2
    requires g.result == 0 && rs[g.player1] == rs[g.player2] && w.chance(rs[g.player1], rs[g.player1]) == 0.5
    ensures Update(w, g, rs) == rs
  {
    hide Update;
    UpdateEitherSide(w, g, rs);
    assert Trunc(rs[g.player1] as real) == rs[g.player1];
  }

  /** It makes no difference which of the two is called the first player. */
  lemma SidesExchange(w: World, g: Game, rs: seq<int>)
    requires GameOk(w, g) && |rs| == |w.names| && g.player1 != g.player2
    ensures var result' := if g.result == 1 then 2 else if g.result == 2 then 1 else g.result;
      Update(w, Game(g.player2, g.player1, result'), rs) == Update(w, g, rs)
  {
    hide Update, Trunc;
    UpdateEitherSide(w, g, rs);
    UpdateEitherSide(w, Game(g.player2, g.player1, if g.result == 1 then 2 else if g.result == 2 then 1 else g.result), rs);
  }
}
