/** The condition-variable benchmark: a producer and a consumer that pass items through a one-place queue,
    over every interleaving of their steps, with spurious wakeups. */
module ProducerConsumer {

  datatype Thread = Producer | Consumer

  /** Where a thread is in its loop. */
  datatype Pc =
    | Lock     // about to take the mutex
    | Check    // holds it, at the test of the inner loop
    | Waiting  // asleep in the condition wait, the mutex given back
    | Woken    // must take the mutex again before it leaves the wait
    | Change   // holds it, about to change the queue
    | Signal   // holds it, about to signal the other thread
    | Unlock   // holds it, about to give it back
    | Finished

  /** A thread: its place, and the rounds it has left, the current one included. */
  datatype Side = Side(pc: Pc, left: nat)

  datatype State = State(queued: int, holder: Option<Thread>, p: Side, c: Side)

  datatype Option<T> = None | Some(value: T)

  function Get(s: State, t: Thread): Side { if t == Producer then s.p else s.c }

  function Set(s: State, t: Thread, x: Side): State { if t == Producer then s.(p := x) else s.(c := x) }

  function Other(t: Thread): Thread { if t == Producer then Consumer else Producer }

  /** The wait condition: the producer waits while something is queued, the consumer while nothing is. */
  predicate MustWait(t: Thread, queued: int) { if t == Producer then queued > 0 else queued == 0 }

  /** What a thread may do next: go on, or be woken for no reason. */
  datatype Label = Go(t: Thread) | Spurious(t: Thread)

  predicate Enabled(s: State, l: Label) {
    match l
    case Go(t) =>
      (match Get(s, t).pc
       case Lock => s.holder == None
       case Woken => s.holder == None
       case Waiting => false
       case Finished => false
       case _ => true)
    case Spurious(t) => Get(s, t).pc == Waiting
  }

  /** One step of one thread. */
  function Step(s: State, l: Label): State
    requires Enabled(s, l) && s.p.left >= 0 && s.c.left >= 0
  {
    match l
    case Spurious(t) => Set(s, t, Get(s, t).(pc := Woken))
    case Go(t) =>
      var me := Get(s, t);
      (match me.pc
       case Lock => Set(s, t, me.(pc := Check)).(holder := Some(t))
       case Woken => Set(s, t, me.(pc := Check)).(holder := Some(t))
       case Check =>
         if MustWait(t, s.queued) then Set(s, t, me.(pc := Waiting)).(holder := None)
         else Set(s, t, me.(pc := Change))
       case Change =>
         Set(s, t, me.(pc := Signal)).(queued := if t == Producer then s.queued + 1 else s.queued - 1)
       case Signal =>
         var you := Get(s, Other(t));
         var s' := Set(s, t, me.(pc := Unlock));
         if you.pc == Waiting then Set(s', Other(t), you.(pc := Woken)) else s'
       case _ => // Unlock
         Set(s, t, if me.left <= 1 then Side(Finished, 0) else Side(Lock, me.left - 1)).(holder := None))
  }

  /** Both threads at the start of a benchmark with n rounds each. */
  function Start(n: nat): State {
    var side := if n == 0 then Side(Finished, 0) else Side(Lock, n);
    State(0, None, side, side)
  }

  // ----- runs -----

  /** A run: the labels of its steps, each enabled where it is taken. */
  predicate IsRun(s: State, ls: seq<Label>)
    decreases |ls|
  {
    ls == [] || (Enabled(s, ls[0]) && IsRun(Step(s, ls[0]), ls[1..]))
  }

  function After(s: State, ls: seq<Label>): State
    requires IsRun(s, ls)
    decreases |ls|
  {
    if ls == [] then s else After(Step(s, ls[0]), ls[1..])
  }

  function SpuriousCount(ls: seq<Label>): nat {
    if ls == [] then 0 else (if ls[0].Spurious? then 1 else 0) + SpuriousCount(ls[1..])
  }

  /** How many steps of a run put an item into the queue. */
  function Puts(s: State, ls: seq<Label>): nat
    requires IsRun(s, ls)
    decreases |ls|
  {
    if ls == [] then 0 else (if Step(s, ls[0]).queued > s.queued then 1 else 0) + Puts(Step(s, ls[0]), ls[1..])
  }

  /** How many steps of a run take one out. */
  function Takes(s: State, ls: seq<Label>): nat
    requires IsRun(s, ls)
    decreases |ls|
  {
    if ls == [] then 0 else (if Step(s, ls[0]).queued < s.queued then 1 else 0) + Takes(Step(s, ls[0]), ls[1..])
  }

  // ----- what every step keeps -----

  predicate Critical(pc: Pc) { pc == Check || pc == Change || pc == Signal || pc == Unlock }

  /** The rounds of its n in which a thread has changed the queue. */
  function Changed(n: nat, x: Side): int { n - x.left + if x.pc == Signal || x.pc == Unlock then 1 else 0 }

  predicate ThreadInv(s: State, t: Thread) {
    var me, you := Get(s, t), Get(s, Other(t));
    && (s.holder == Some(t) <==> Critical(me.pc))
    && (me.pc == Finished <==> me.left == 0)
    && (me.pc == Change ==> !MustWait(t, s.queued))
    && (me.pc == Signal ==> MustWait(t, s.queued))
    && (me.pc == Waiting ==> MustWait(t, s.queued) || you.pc == Signal)
  }

  /** The queue holds at most one item, items are neither lost nor made up, the mutex excludes, and whoever
      sleeps does so for a reason or is about to be woken. */
  predicate Inv(n: nat, s: State) {
    && 0 <= s.queued <= 1
    && s.p.left <= n && s.c.left <= n
    && Changed(n, s.p) - Changed(n, s.c) == s.queued
    && ThreadInv(s, Producer) && ThreadInv(s, Consumer)
  }

  lemma {:induction false} StartInv(n: nat)
    ensures Inv(n, Start(n))
  {
  }

  lemma {:induction false} StepInv(n: nat, s: State, l: Label)
    requires Inv(n, s) && Enabled(s, l)
    ensures Inv(n, Step(s, l))
  {
    match l {
      case Spurious(_) =>
      case Go(Producer) =>
      case Go(Consumer) =>
    }
  }

  /** Every reachable state satisfies the invariant. */
  lemma {:induction false} RunInv(n: nat, s: State, ls: seq<Label>)
    requires Inv(n, s) && IsRun(s, ls)
    ensures Inv(n, After(s, ls))
    decreases |ls|
  {
    if ls != [] {
      StepInv(n, s, ls[0]);
      RunInv(n, Step(s, ls[0]), ls[1..]);
    }
  }

  /** The two threads are never both asleep, and unless both have finished one of them can go on without
      help from a spurious wakeup. */
  lemma {:induction false} NeverStuck(n: nat, s: State)
    requires Inv(n, s)
    ensures !(s.p.pc == Waiting && s.c.pc == Waiting)
    ensures Enabled(s, Go(Producer)) || Enabled(s, Go(Consumer)) || (s.p.pc == Finished && s.c.pc == Finished)
  {
    match s.holder {
      case None =>
      case Some(Producer) =>
      case Some(Consumer) =>
    }
  }

  /** Only the producer's steps put items in, only the consumer's take them out, one at a time, once a round. */
  lemma {:induction false} StepCounts(n: nat, s: State, l: Label)
    requires Inv(n, s) && Enabled(s, l)
    ensures var s' := Step(s, l);
            && Changed(n, s'.p) == Changed(n, s.p) + (if s'.queued > s.queued then 1 else 0)
            && Changed(n, s'.c) == Changed(n, s.c) + (if s'.queued < s.queued then 1 else 0)
            && (s'.queued > s.queued ==> l == Go(Producer)) && (s'.queued < s.queued ==> l == Go(Consumer))
  {
    match l {
      case Spurious(_) =>
      case Go(Producer) =>
      case Go(Consumer) =>
    }
  }

  lemma {:induction false} RunCounts(n: nat, s: State, ls: seq<Label>)
    requires Inv(n, s) && IsRun(s, ls)
    ensures var r := After(s, ls);
            Puts(s, ls) == Changed(n, r.p) - Changed(n, s.p) && Takes(s, ls) == Changed(n, r.c) - Changed(n, s.c)
    decreases |ls|
  {
    if ls != [] {
      StepInv(n, s, ls[0]);
      StepCounts(n, s, ls[0]);
      RunCounts(n, Step(s, ls[0]), ls[1..]);
    }
  }

  // ----- runs are finite -----

  /** How far a thread is from the end of its current round. */
  function PcRank(t: Thread, x: Side, queued: int): nat {
    match x.pc
    case Lock => 8
    case Woken => if MustWait(t, queued) then 7 else 4
    case Check => if MustWait(t, queued) then 6 else 3
    case Waiting => 5
    case Change => 2
    case Signal => 1
    case Unlock => 0
    case Finished => 0
  }

  function Rank(s: State): nat {
    9 * s.p.left + PcRank(Producer, s.p, s.queued) + 9 * s.c.left + PcRank(Consumer, s.c, s.queued)
  }

  lemma {:induction false} StepRank(n: nat, s: State, l: Label)
    requires Inv(n, s) && Enabled(s, l)
    ensures Rank(Step(s, l)) <= Rank(s) + if l.Spurious? then 2 else -1
  {
    match l {
      case Spurious(_) =>
      case Go(Producer) =>
      case Go(Consumer) =>
    }
  }

  /** Every run is finite but for spurious wakeups: each adds at most three steps. */
  lemma {:induction false} RunBound(n: nat, s: State, ls: seq<Label>)
    requires Inv(n, s) && IsRun(s, ls)
    ensures |ls| + Rank(After(s, ls)) <= Rank(s) + 3 * SpuriousCount(ls)
    decreases |ls|
  {
    if ls != [] {
      StepInv(n, s, ls[0]);
      StepRank(n, s, ls[0]);
      RunBound(n, Step(s, ls[0]), ls[1..]);
    }
  }

  lemma {:induction false} StartRank(n: nat)
    ensures Rank(Start(n)) <= 18 * n + 16
  {
  }

  lemma {:induction false} NothingYet(n: nat)
    ensures Changed(n, Start(n).p) == 0 && Changed(n, Start(n).c) == 0
  {
  }

  lemma {:induction false} InvSays(n: nat, s: State)
    requires Inv(n, s)
    ensures 0 <= s.queued <= 1 && Changed(n, s.p) - Changed(n, s.c) == s.queued && !(Critical(s.p.pc) && Critical(s.c.pc))
    ensures (s.p.pc == Finished ==> Changed(n, s.p) == n) && (s.c.pc == Finished ==> Changed(n, s.c) == n)
  {
  }

  /** The whole benchmark with n rounds: in every interleaving the queue stays within its bounds, holds the items put
      in and not yet taken out, and is only touched by one thread at a time; a run has at most 18n + 16 steps and three
      more for each spurious wakeup; and a run that can go no further has finished both threads, with the queue empty
      after n items were put in and n taken out. */
  lemma {:induction false} Benchmark(n: nat, ls: seq<Label>)
    requires IsRun(Start(n), ls)
    ensures var s := After(Start(n), ls);
            && 0 <= s.queued <= 1 && Puts(Start(n), ls) - Takes(Start(n), ls) == s.queued
            && !(Critical(s.p.pc) && Critical(s.c.pc))
            && |ls| <= 18 * n + 16 + 3 * SpuriousCount(ls)
            && (!Enabled(s, Go(Producer)) && !Enabled(s, Go(Consumer)) ==>
                  s.p.pc == Finished && s.c.pc == Finished && s.queued == 0 && Puts(Start(n), ls) == n && Takes(Start(n), ls) == n)
  {
    hide Step, IsRun, After, SpuriousCount, Rank, Puts, Takes, Start, Inv, Changed, Critical, Enabled;
    StartInv(n);
    NothingYet(n);
    RunCounts(n, Start(n), ls);
    StartRank(n);
    RunInv(n, Start(n), ls);
    RunBound(n, Start(n), ls);
    NeverStuck(n, After(Start(n), ls));
    InvSays(n, After(Start(n), ls));
  }
}
