/**
 * meter/stepnumber.h with any number of threads: every atomic access is one step, and steps of different threads
 * interleave freely. Weak compare-and-swaps may fail for no reason; clocks may show anything.
 */
module StepNumberConcurrent {
  import S = StepNumbers

  datatype Call = AddInteger(amount: real) | AddDouble(amount: real) | UpdateMax(value: real) | Poll | Current

  /** Where a call is. Each state names what the thread holds in locals and what it does next. */
  datatype Local =
    | ReadClock
    | LoadLast(stepTime: int)
    | SwapLast(stepTime: int, seen: int)       // compare with, then swap, last_init_pos_
    | Exchange(stepTime: int, seen: int)       // take current_ out
    | StorePrevious(stepTime: int, seen: int, taken: real)
    | Rolled                                   // past RollCount, or about to reload current_
    | SwapAdd(expected: real)
    | TestMax(m: real)                         // compare with value, then swap current_
    | Returned(result: real)

  datatype Thread = Thread(call: Call, at: Local)

  /** The atomics, the threads, and a log of what happened. */
  datatype State = State(
    init: real, step: int,
    previous: real, current: real, last: int,
    threads: map<nat, Thread>,
    rolls: seq<int>,        // step numbers installed by successful swaps of last_init_pos_
    taken: seq<real>,       // values exchanged out of current_
    completed: seq<Call>,   // calls that returned
    lifts: seq<real>)       // amounts by which UpdateMax raised current_

  /** A scheduling decision: thread `t` starts a call, or takes its next atomic access. */
  datatype Move =
    | Start(t: nat, call: Call)
    | Access(t: nat, now: int, spurious: bool)

  function Initial(init: real, step: int, now: int): State
    requires step > 0
  {
    State(init, step, init, init, S.StepOf(now, step), map[], [], [], [], [])
  }

  function Goto(s: State, t: nat, at: Local): State
    requires t in s.threads
  {
    s.(threads := s.threads[t := s.threads[t].(at := at)])
  }

  function Return(s: State, t: nat, result: real): State
    requires t in s.threads
  {
    Goto(s, t, Returned(result)).(completed := s.completed + [s.threads[t].call])
  }

  /** The part of a call after RollCount. */
  function AfterRoll(s: State, t: nat): State
    requires t in s.threads
  {
    match s.threads[t].call
    case AddInteger(a) => Return(s.(current := s.current + a), t, 0.0)
    case AddDouble(_) => Goto(s, t, SwapAdd(s.current))
    case UpdateMax(_) => Goto(s, t, TestMax(s.current))
    case Poll => Return(s, t, s.previous)
    case Current => Return(s, t, s.current)
  }

  function Advance(s: State, t: nat, now: int, spurious: bool): State
    requires s.step > 0 && t in s.threads
  {
    var call := s.threads[t].call;
    match s.threads[t].at
    case ReadClock => Goto(s, t, LoadLast(S.StepOf(now, s.step)))
    case LoadLast(st) => Goto(s, t, SwapLast(st, s.last))
    case SwapLast(st, seen) =>
      if seen < st && s.last == seen
      then Goto(s.(last := st, rolls := s.rolls + [st]), t, Exchange(st, seen))
      else Goto(s, t, Rolled)
    case Exchange(st, seen) =>
      Goto(s.(current := s.init, taken := s.taken + [s.current]), t, StorePrevious(st, seen, s.current))
    case StorePrevious(st, seen, v) =>
      Goto(s.(previous := if seen == st - 1 then v else s.init), t, Rolled)
    case Rolled => AfterRoll(s, t)
    case SwapAdd(expected) =>
      if call.AddDouble? && s.current == expected && !spurious
      then Return(s.(current := expected + call.amount), t, 0.0)
      else Goto(s, t, Rolled)
    case TestMax(m) =>
      if !call.UpdateMax? || call.value <= m then Return(s, t, 0.0)
      else if s.current == m && !spurious
      then Return(s.(current := call.value, lifts := s.lifts + [call.value - m]), t, 0.0)
      else Goto(s, t, Rolled)
    case Returned(_) => s
  }

  function Next(s: State, m: Move): State
    requires s.step > 0
  {
    match m
    case Start(t, call) =>
      if t in s.threads && !s.threads[t].at.Returned? then s
      else s.(threads := s.threads[t := Thread(call, ReadClock)])
    case Access(t, now, spurious) =>
      if t in s.threads then Advance(s, t, now, spurious) else s
  }

  /** The state after `moves`: one interleaving. */
  function Run(s: State, moves: seq<Move>): (r: State)
    requires s.step > 0
    ensures r.step == s.step && r.init == s.init
  {
    if moves == [] then s else Next(Run(s, moves[..|moves| - 1]), moves[|moves| - 1])
  }

  // ----- One roll per step number -----

  ghost predicate Increasing(xs: seq<int>) { forall i, j :: 0 <= i < j < |xs| ==> xs[i] < xs[j] }

  /** The swaps of last_init_pos_ so far climbed strictly, from `start` to its present value. */
  ghost predicate RollsClimb(s: State, start: int) {
    && Increasing(s.rolls)
    && (forall i :: 0 <= i < |s.rolls| ==> start < s.rolls[i] <= s.last)
    && s.last == if s.rolls == [] then start else s.rolls[|s.rolls| - 1]
  }

  lemma {:induction false} AtMostOneRollPerStep(s: State, moves: seq<Move>)
    requires s.step > 0 && s.rolls == []
    ensures RollsClimb(Run(s, moves), s.last)
    ensures forall i, j :: 0 <= i < j < |Run(s, moves).rolls| ==> Run(s, moves).rolls[i] != Run(s, moves).rolls[j]
  {
    if moves != [] {
      var n := |moves| - 1;
      AtMostOneRollPerStep(s, moves[..n]);
      LastOnlyClimbs(Run(s, moves[..n]), moves[n]);
    }
  }

  /** Every access leaves last_init_pos_ alone or installs a later step, and then logs it. */
  lemma LastOnlyClimbs(s: State, m: Move)
    requires s.step > 0
    ensures var r := Next(s, m);
      (r.last == s.last && r.rolls == s.rolls) || (r.last > s.last && r.rolls == s.rolls + [r.last])
  {
  }

  // ----- Conservation -----

  function Sum(xs: seq<real>): real {
    if xs == [] then 0.0 else Sum(xs[..|xs| - 1]) + xs[|xs| - 1]
  }

  function Amount(c: Call): real {
    match c
    case AddInteger(a) => a
    case AddDouble(a) => a
    case _ => 0.0
  }

  /** Sum of the amounts of completed adds. */
  function SumAdds(cs: seq<Call>): real {
    if cs == [] then 0.0 else SumAdds(cs[..|cs| - 1]) + Amount(cs[|cs| - 1])
  }

  lemma SumSnoc(xs: seq<real>, x: real)
    ensures Sum(xs + [x]) == Sum(xs) + x
  {
    assert (xs + [x])[..|xs|] == xs;
  }

  lemma SumAddsSnoc(cs: seq<Call>, c: Call)
    ensures SumAdds(cs + [c]) == SumAdds(cs) + Amount(c)
  {
    assert (cs + [c])[..|cs|] == cs;
  }

  /** Each exchange puts `init` back. */
  function Refills(init: real, n: nat): real {
    if n == 0 then 0.0 else init + Refills(init, n - 1)
  }

  /** What is in `current_` plus what was taken out, less what was put in. */
  function Surplus(s: State): real {
    s.current + Sum(s.taken) - Refills(s.init, |s.taken|) - SumAdds(s.completed) - Sum(s.lifts)
  }

  /** Threads hold only locals their own call can reach. */
  ghost predicate Typed(s: State) {
    forall t :: t in s.threads ==>
      && (s.threads[t].at.SwapAdd? ==> s.threads[t].call.AddDouble?)
      && (s.threads[t].at.TestMax? ==> s.threads[t].call.UpdateMax?)
  }

  lemma MoveKeepsTyped(s: State, m: Move)
    requires s.step > 0 && Typed(s)
    ensures Typed(Next(s, m))
  {
  }

  lemma MoveConserves(s: State, m: Move)
    requires s.step > 0 && Typed(s)
    ensures Surplus(Next(s, m)) == Surplus(s)
  {
    if m.Access? && m.t in s.threads {
      var call, at := s.threads[m.t].call, s.threads[m.t].at;
      match at
      case Exchange(_, _) => SumSnoc(s.taken, s.current);
      case TestMax(x) => SumAddsSnoc(s.completed, call); SumSnoc(s.lifts, call.value - x);
      case _ => SumAddsSnoc(s.completed, call);
    }
  }

  /** In every interleaving nothing recorded is lost or counted twice. */
  lemma {:induction false} Conservation(s: State, moves: seq<Move>)
    requires s.step > 0 && Typed(s)
    ensures Typed(Run(s, moves)) && Surplus(Run(s, moves)) == Surplus(s)
  {
    if moves != [] {
      var n := |moves| - 1;
      Conservation(s, moves[..n]);
      MoveConserves(Run(s, moves[..n]), moves[n]);
      MoveKeepsTyped(Run(s, moves[..n]), moves[n]);
    }
  }

  ghost predicate NoMax(moves: seq<Move>) {
    forall m :: m in moves ==> m.Start? ==> !m.call.UpdateMax?
  }

  lemma {:induction false} NoLifts(s: State, moves: seq<Move>)
    requires s.step > 0 && NoMax(moves) && s.lifts == []
    requires forall t :: t in s.threads ==> !s.threads[t].call.UpdateMax?
    ensures Run(s, moves).lifts == []
    ensures forall t :: t in Run(s, moves).threads ==> !Run(s, moves).threads[t].call.UpdateMax?
  {
    if moves != [] { NoLifts(s, moves[..|moves| - 1]); }
  }

  lemma {:induction false} NoRefills(n: nat)
    ensures Refills(0.0, n) == 0.0
  {
    if n > 0 { NoRefills(n - 1); }
  }

  /** A counter (init 0): completed adds equal what is in `current_` plus everything exchanged out. */
  lemma AddsAreConserved(step: int, now: int, moves: seq<Move>)
    requires step > 0 && NoMax(moves)
    ensures var s := Run(Initial(0.0, step, now), moves);
      SumAdds(s.completed) == s.current + Sum(s.taken)
  {
    var s0 := Initial(0.0, step, now);
    Conservation(s0, moves);
    NoLifts(s0, moves);
    NoRefills(|Run(s0, moves).taken|);
  }

  // ----- UpdateCurrentMax -----

  /** At some instant after move `i` and up to move `j`, `current_` was at least `x`. */
  ghost predicate SawAtLeast(s: State, moves: seq<Move>, i: nat, j: nat, x: real)
    requires s.step > 0 && j <= |moves|
  {
    exists k :: i < k <= j && CurrentAt(s, moves, k) >= x
  }

  ghost function CurrentAt(s: State, moves: seq<Move>, k: nat): real
    requires s.step > 0 && k <= |moves|
  {
    Run(s, moves[..k]).current
  }

  /** Thread `t` is in the UpdateMax(v) call it started with move `i`, and has not started another by move `j`. */
  ghost predicate InMaxCall(s: State, moves: seq<Move>, t: nat, v: real, i: nat, j: nat)
    requires s.step > 0
  {
    && i < j <= |moves|
    && moves[i] == Start(t, UpdateMax(v))
    && (var before := Run(s, moves[..i]); t in before.threads ==> before.threads[t].at.Returned?)
    && (forall k :: i < k < j ==> !(moves[k].Start? && moves[k].t == t))
  }

  lemma {:induction false} MaxCallProgress(s: State, moves: seq<Move>, t: nat, v: real, i: nat, j: nat)
    requires s.step > 0 && InMaxCall(s, moves, t, v, i, j)
    ensures var r := Run(s, moves[..j]);
      && t in r.threads && r.threads[t].call == UpdateMax(v)
      && !r.threads[t].at.SwapAdd?
      && (r.threads[t].at.TestMax? ==> SawAtLeast(s, moves, i, j, r.threads[t].at.m))
      && (r.threads[t].at.Returned? ==> SawAtLeast(s, moves, i, j, v))
    decreases j
  {
    assert moves[..j][..j - 1] == moves[..j - 1];
    var p, r := Run(s, moves[..j - 1]), Run(s, moves[..j]);
    assert r == Next(p, moves[j - 1]);
    if j > i + 1 {
      MaxCallProgress(s, moves, t, v, i, j - 1);
      SawLonger(s, moves, i, j);
      var m := moves[j - 1];
      if m.t == t {
        if r.threads[t].at.TestMax? { assert SawAtLeast(s, moves, i, j, r.threads[t].at.m); }
        if r.threads[t].at.Returned? && !p.threads[t].at.Returned? { MaxReturns(p, m, t, v); }
      } else {
        OthersUntouched(p, m, t);
      }
    }
  }

  lemma SawLonger(s: State, moves: seq<Move>, i: nat, j: nat)
    requires s.step > 0 && i < j <= |moves|
    ensures forall x ::
      SawAtLeast(s, moves, i, j - 1, x) || CurrentAt(s, moves, j) >= x ==> SawAtLeast(s, moves, i, j, x)
  {
    forall x | SawAtLeast(s, moves, i, j - 1, x) ensures SawAtLeast(s, moves, i, j, x) {
      var k :| i < k <= j - 1 && CurrentAt(s, moves, k) >= x;
      assert i < k <= j;
    }
  }

  /** A call that returns either found `current_` high enough or has just made it so. */
  lemma MaxReturns(p: State, m: Move, t: nat, v: real)
    requires p.step > 0 && t in p.threads && p.threads[t].call == UpdateMax(v)
    requires m.Access? && m.t == t && !p.threads[t].at.SwapAdd?
    requires Next(p, m).threads[t].at.Returned? && !p.threads[t].at.Returned?
    ensures p.threads[t].at.TestMax? && (p.threads[t].at.m >= v || Next(p, m).current == v)
  {
  }

  lemma OthersUntouched(p: State, m: Move, t: nat)
    requires p.step > 0 && t in p.threads && m.t != t
    ensures t in Next(p, m).threads && Next(p, m).threads[t] == p.threads[t]
  {
  }

  /** An UpdateCurrentMax(v) that has returned saw `current_` at `v` or above at some instant of the call. */
  lemma ReturnedMaxWasReached(s: State, moves: seq<Move>, t: nat, v: real, i: nat, j: nat)
    requires s.step > 0 && InMaxCall(s, moves, t, v, i, j)
    requires t in Run(s, moves[..j]).threads && Run(s, moves[..j]).threads[t].at.Returned?
    ensures SawAtLeast(s, moves, i, j, v)
  {
    MaxCallProgress(s, moves, t, v, i, j);
  }

  // ----- One thread alone is the sequential object -----

  function Fields(s: State): S.Fields { S.Fields(s.init, s.step, s.previous, s.current, s.last) }

  function ActionOf(c: Call): S.Action {
    match c
    case AddInteger(a) => S.Record(S.Add(a))
    case AddDouble(a) => S.Record(S.Add(a))
    case UpdateMax(v) => S.Record(S.Max(v))
    case Poll => S.Poll
    case Current => S.Current
  }

  function Steps(s: State, t: nat, now: int, n: nat): State
    requires s.step > 0
    decreases n
  {
    if n == 0 then s else Steps(Next(s, Access(t, now, false)), t, now, n - 1)
  }

  /** RollCount takes three accesses, or five when it rolls. */
  lemma SoloRoll(s: State, t: nat, now: int)
    requires s.step > 0 && t in s.threads && s.threads[t].at == ReadClock
    ensures var n := if s.last < S.StepOf(now, s.step) then 5 else 3; var r := Steps(s, t, now, n);
      && Fields(r) == S.Roll(Fields(s), now)
      && r.threads == s.threads[t := Thread(s.threads[t].call, Rolled)]
  {
    var a := Next(s, Access(t, now, false));
    var b := Next(a, Access(t, now, false));
    var c := Next(b, Access(t, now, false));
    if s.last < S.StepOf(now, s.step) {
      var d := Next(c, Access(t, now, false));
      var e := Next(d, Access(t, now, false));
      assert Steps(s, t, now, 5) == Steps(a, t, now, 4) == Steps(b, t, now, 3) == Steps(c, t, now, 2)
        == Steps(d, t, now, 1) == Steps(e, t, now, 0);
    } else {
      assert Steps(s, t, now, 3) == Steps(a, t, now, 2) == Steps(b, t, now, 1) == Steps(c, t, now, 0);
    }
  }

  /** Past RollCount, at most two undisturbed accesses finish the call. */
  lemma SoloFinish(s: State, t: nat, now: int)
    requires s.step > 0 && t in s.threads && s.threads[t].at == Rolled
    ensures var r := Steps(s, t, now, 2);
      && t in r.threads && r.threads[t].call == s.threads[t].call && r.threads[t].at.Returned?
      && (match s.threads[t].call
          case Poll => Fields(r) == Fields(s) && r.threads[t].at.result == s.previous
          case Current => Fields(r) == Fields(s) && r.threads[t].at.result == s.current
          case c => Fields(r) == Fields(s).(current := S.Apply(ActionOf(c).op, s.current)))
  {
    var a := Next(s, Access(t, now, false));
    assert Steps(s, t, now, 2) == Steps(a, t, now, 1) == Steps(Next(a, Access(t, now, false)), t, now, 0);
  }

  /** The call of thread `t` has returned, a read with what the sequential object would return. */
  ghost predicate Answered(s: State, t: nat, call: Call, f: S.Fields) {
    && t in s.threads && s.threads[t].call == call && s.threads[t].at.Returned?
    && (call.Poll? ==> s.threads[t].at.result == f.previous)
    && (call.Current? ==> s.threads[t].at.result == f.current)
  }

  /** An undisturbed call returns, having done and answered exactly what the sequential object does. */
  lemma SoloCallIsSequential(s: State, t: nat, call: Call, now: int)
    requires s.step > 0 && (t in s.threads ==> s.threads[t].at.Returned?)
    ensures var f := S.Exec(Fields(s), S.Event(now, ActionOf(call)));
      exists n :: var r := Steps(Next(s, Start(t, call)), t, now, n); Fields(r) == f && Answered(r, t, call, f)
  {
    var started := Next(s, Start(t, call));
    SoloRoll(started, t, now);
    var n := if s.last < S.StepOf(now, s.step) then 5 else 3;
    var rolled := Steps(started, t, now, n);
    SoloFinish(rolled, t, now);
    StepsCompose(started, t, now, n, 2);
    var f := S.Exec(Fields(s), S.Event(now, ActionOf(call)));
    var done := Steps(started, t, now, n + 2);
    assert Fields(done) == f && Answered(done, t, call, f);
  }

  lemma {:induction false} StepsCompose(s: State, t: nat, now: int, m: nat, n: nat)
    requires s.step > 0
    ensures Steps(s, t, now, m).step > 0
    ensures Steps(s, t, now, m + n) == Steps(Steps(s, t, now, m), t, now, n)
    decreases m
  {
    if m > 0 { StepsCompose(Next(s, Access(t, now, false)), t, now, m - 1, n); }
  }
}
