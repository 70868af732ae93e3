/**
 Versions 2 and 3 of the word counter.  Version 2 brackets each increment of the shared counter
 with a mutex; version 3 gives each thread a counter of its own and adds the two after joining.
 Version 2's main never starts its threads, so its count_words runs under the main of version 1.
 */
module LockedCounter {
  import opened Wrappers
  import opened WordCount

  // ---- version 2: one counter under a mutex -------------------------------------------

  /** At a byte of the file, or inside the critical section entered there. */
  datatype Pc = At(pos: nat) | Locked(pos: nat) | Loaded(pos: nat, reg: nat) | Stored(pos: nat)

  datatype State = State(threads: seq<Pc>, total: nat, lock: Option<nat>)

  const START := State([At(0), At(0)], 0, None)

  /** Thread i has a step to make: not at the end of its file, and not waiting for the mutex. */
  predicate Enabled(texts: seq<string>, s: State, i: nat)
    requires |texts| == 2 == |s.threads|
  {
    i < 2 && match s.threads[i]
             case At(pos) => pos < |texts[i]| && (WordEnds(texts[i], pos) ==> s.lock.None?)
             case _ => true
  }

  function Step(texts: seq<string>, s: State, i: nat): (s': State)
    requires |texts| == 2 == |s.threads| && Enabled(texts, s, i)
    ensures |s'.threads| == 2
  {
    match s.threads[i]
    case At(pos) =>
      if WordEnds(texts[i], pos) then s.(threads := s.threads[i := Locked(pos)], lock := Some(i))
      else s.(threads := s.threads[i := At(pos + 1)])
    case Locked(pos) => s.(threads := s.threads[i := Loaded(pos, s.total)])
    case Loaded(pos, reg) => s.(threads := s.threads[i := Stored(pos)], total := reg + 1)
    case Stored(pos) => s.(threads := s.threads[i := At(pos + 1)], lock := None)
  }

  function Run(texts: seq<string>, sched: seq<nat>): (s: State)
    requires |texts| == 2
    ensures |s.threads| == 2
  {
    if sched == [] then START
    else
      var s, i := Run(texts, sched[..|sched| - 1]), sched[|sched| - 1];
      if Enabled(texts, s, i) then Step(texts, s, i) else s
  }

  predicate Finished(texts: seq<string>, s: State)
    requires |texts| == 2 == |s.threads|
  {
    s.threads[0] == At(|texts[0]|) && s.threads[1] == At(|texts[1]|)
  }

  /** The increments thread `pc` has stored. */
  function Done(text: string, pc: Pc): nat
    requires pc.pos <= |text|
  {
    Words(text, pc.pos) + if pc.Stored? then 1 else 0
  }

  predicate Inv(texts: seq<string>, s: State) {
    && |texts| == 2 == |s.threads|
    && (forall i :: 0 <= i < 2 ==>
          && s.threads[i].pos <= |texts[i]|
          && (!s.threads[i].At? <==> s.lock == Some(i))
          && (!s.threads[i].At? ==> WordEnds(texts[i], s.threads[i].pos))
          && (s.threads[i].Loaded? ==> s.threads[i].reg == s.total))
    && s.total == Done(texts[0], s.threads[0]) + Done(texts[1], s.threads[1])
    && (s.lock.Some? ==> s.lock.value < 2)
  }

  /** Steps left to thread i if it never waited. */
  function StepsLeft(text: string, pc: Pc): int {
    4 * (|text| - pc.pos) - match pc case At(_) => 0 case Locked(_) => 1 case Loaded(_, _) => 2 case Stored(_) => 3
  }

  function Measure(texts: seq<string>, s: State): int
    requires |texts| == 2 == |s.threads|
  {
    StepsLeft(texts[0], s.threads[0]) + StepsLeft(texts[1], s.threads[1])
  }

  lemma StepInv(texts: seq<string>, s: State, i: nat)
    requires Inv(texts, s) && Enabled(texts, s, i)
    ensures Inv(texts, Step(texts, s, i))
    ensures 0 <= Measure(texts, Step(texts, s, i)) < Measure(texts, s)
  {
    var pos := s.threads[i].pos;
    assert Words(texts[i], pos + 1) == Words(texts[i], pos) + if WordEnds(texts[i], pos) then 1 else 0;
  }

  lemma {:induction false} RunInv(texts: seq<string>, sched: seq<nat>)
    requires |texts| == 2
    ensures Inv(texts, Run(texts, sched))
  {
    if sched != [] {
      RunInv(texts, sched[..|sched| - 1]);
      var s, i := Run(texts, sched[..|sched| - 1]), sched[|sched| - 1];
      if Enabled(texts, s, i) {
        StepInv(texts, s, i);
      }
    }
  }

  lemma FinishedIffStuck(texts: seq<string>, s: State)
    requires Inv(texts, s)
    ensures Finished(texts, s) <==> !Enabled(texts, s, 0) && !Enabled(texts, s, 1)
  {
  }

  /** Under every schedule: no two threads are inside the lock, no unfinished state is stuck, every
      step shortens what is left, and a finished run has counted every word end. */
  lemma LockedCounts(texts: seq<string>, sched: seq<nat>)
    requires |texts| == 2
    ensures var s := Run(texts, sched);
            && Inv(texts, s)
            && (s.threads[0].At? || s.threads[1].At?)
            && (forall i :: Enabled(texts, s, i) ==> 0 <= Measure(texts, Step(texts, s, i)) < Measure(texts, s))
            && (Finished(texts, s) <==> !Enabled(texts, s, 0) && !Enabled(texts, s, 1))
            && (Finished(texts, s) ==> s.total == |WordEndSet(texts[0])| + |WordEndSet(texts[1])|)
  {
    RunInv(texts, sched);
    var s := Run(texts, sched);
    forall i | Enabled(texts, s, i) ensures 0 <= Measure(texts, Step(texts, s, i)) < Measure(texts, s) {
      StepInv(texts, s, i);
    }
    FinishedIffStuck(texts, s);
    WordsAreWordEnds(texts[0]);
    WordsAreWordEnds(texts[1]);
  }

  // ---- version 3: a counter per thread ------------------------------------------------

  datatype ArgSet = ArgSet(pos: nat, count: nat)

  function CountStep(text: string, a: ArgSet): ArgSet {
    if a.pos < |text| then ArgSet(a.pos + 1, a.count + if WordEnds(text, a.pos) then 1 else 0) else a
  }

  function RunOwn(texts: seq<string>, sched: seq<nat>): (s: seq<ArgSet>)
    requires |texts| == 2
    ensures |s| == 2
  {
    if sched == [] then [ArgSet(0, 0), ArgSet(0, 0)]
    else
      var s, i := RunOwn(texts, sched[..|sched| - 1]), sched[|sched| - 1];
      if i < 2 then s[i := CountStep(texts[i], s[i])] else s
  }

  /** Under every schedule, when both threads can be joined each has counted its own file's words, and
      main's sum is the total. */
  lemma {:induction false} OwnCountersCount(texts: seq<string>, sched: seq<nat>)
    requires |texts| == 2
    ensures var s := RunOwn(texts, sched);
            && (forall i :: 0 <= i < 2 ==> s[i].pos <= |texts[i]| && s[i].count == Words(texts[i], s[i].pos))
            && (s[0].pos == |texts[0]| && s[1].pos == |texts[1]| ==>
                  s[0].count + s[1].count == |WordEndSet(texts[0])| + |WordEndSet(texts[1])|)
  {
    if sched != [] {
      OwnCountersCount(texts, sched[..|sched| - 1]);
    }
    WordsAreWordEnds(texts[0]);
    WordsAreWordEnds(texts[1]);
  }
}
