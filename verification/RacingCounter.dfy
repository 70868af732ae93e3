/**
 Version 1 of the word counter: two threads increment one shared counter without a lock.  An
 increment is a load and a store with anything in between.  The final totals that some schedule
 produces are determined exactly.
 */
module RacingCounter {
  import opened Wrappers
  import opened WordCount

  /** A thread at byte `pos` of its file; `reg` holds a loaded counter value not yet stored back. */
  datatype Thread = Thread(pos: nat, reg: Option<nat>)

  datatype State = State(threads: seq<Thread>, total: nat)

  predicate TwoThreads(texts: seq<string>, s: State) { |texts| == 2 == |s.threads| }

  /** One step of thread i; a thread at the end of its file has none left. */
  function Step(texts: seq<string>, s: State, i: nat): (s': State)
    requires TwoThreads(texts, s) && i < 2
    ensures TwoThreads(texts, s')
  {
    var text, th := texts[i], s.threads[i];
    if th.reg.Some? then State(s.threads[i := Thread(th.pos + 1, None)], th.reg.value + 1)
    else if th.pos >= |text| then s
    else if WordEnds(text, th.pos) then s.(threads := s.threads[i := th.(reg := Some(s.total))])
    else s.(threads := s.threads[i := th.(pos := th.pos + 1)])
  }

  const START := State([Thread(0, None), Thread(0, None)], 0)

  /** A schedule says which thread steps next. */
  function Run(texts: seq<string>, s: State, sched: seq<nat>): (s': State)
    requires TwoThreads(texts, s) && forall k :: 0 <= k < |sched| ==> sched[k] < 2
    ensures TwoThreads(texts, s')
  {
    if sched == [] then s else Step(texts, Run(texts, s, sched[..|sched| - 1]), sched[|sched| - 1])
  }

  predicate IsSchedule(sched: seq<nat>) { forall k :: 0 <= k < |sched| ==> sched[k] < 2 }

  predicate Finished(texts: seq<string>, s: State)
    requires TwoThreads(texts, s)
  {
    forall i :: 0 <= i < 2 ==> s.threads[i] == Thread(|texts[i]|, None)
  }

  /** The totals that two racing threads with n1 and n2 increments can end with. */
  predicate Possible(n1: nat, n2: nat, v: nat) {
    if n1 == 0 || n2 == 0 then v == n1 + n2
    else (if n1 == 1 || n2 == 1 then 1 else 2) <= v <= n1 + n2
  }

  // ---- every schedule stays within the bounds -----------------------------------------

  predicate GoodThread(text: string, th: Thread) {
    th.pos <= |text| && (th.reg.Some? ==> WordEnds(text, th.pos))
  }

  function Done(text: string, th: Thread): nat
    requires th.pos <= |text|
  {
    Words(text, th.pos)
  }

  /** For one thread with d of its n increments done and register `reg`, beside one with e of m. */
  predicate Bounded(d: nat, n: nat, reg: Option<nat>, e: nat, m: nat, total: nat) {
    && (reg.Some? ==> d < n && reg.value <= d + e && (d > 0 ==> reg.value > 0))
    // Alone, a thread loses nothing.
    && (m == 0 ==> total == d && (reg.Some? ==> reg.value == d))
  }

  /** The counter after d and e stores. */
  predicate TotalBounded(d: nat, e: nat, total: nat) {
    && total <= d + e
    && (d + e > 0 ==> total > 0)
    // Whoever stored last: had it stored twice, it would have seen its own first store.
    && (d + e > 0 ==> (d > 0 && (d > 1 ==> total > 1)) || (e > 0 && (e > 1 ==> total > 1)))
  }

  predicate Inv(texts: seq<string>, s: State) {
    && TwoThreads(texts, s)
    && GoodThread(texts[0], s.threads[0]) && GoodThread(texts[1], s.threads[1])
    && var d, e := Done(texts[0], s.threads[0]), Done(texts[1], s.threads[1]);
       && d <= AllWords(texts[0]) && e <= AllWords(texts[1])
       && TotalBounded(d, e, s.total)
       && Bounded(d, AllWords(texts[0]), s.threads[0].reg, e, AllWords(texts[1]), s.total)
       && Bounded(e, AllWords(texts[1]), s.threads[1].reg, d, AllWords(texts[0]), s.total)
  }

  /** What a step of thread i does to its count, its register and the counter. */
  lemma StepEffect(texts: seq<string>, s: State, i: nat)
    requires TwoThreads(texts, s) && i < 2 && GoodThread(texts[i], s.threads[i])
    ensures var s' := Step(texts, s, i);
            && GoodThread(texts[i], s'.threads[i]) && s'.threads[1 - i] == s.threads[1 - i]
            && var d, d' := Done(texts[i], s.threads[i]), Done(texts[i], s'.threads[i]);
               var reg, reg' := s.threads[i].reg, s'.threads[i].reg;
               && d' <= AllWords(texts[i])
               && (if reg.Some? then d' == d + 1 && reg' == None && s'.total == reg.value + 1
                   else d' == d && s'.total == s.total
                        && (reg' == None || (reg' == Some(s.total) && d < AllWords(texts[i]))))
  {
    var text, pos := texts[i], s.threads[i].pos;
    WordsMonotone(text, pos, |text|);
    if pos < |text| {
      assert Words(text, pos + 1) == Words(text, pos) + if WordEnds(text, pos) then 1 else 0;
      WordsMonotone(text, pos + 1, |text|);
    }
  }

  lemma StepInv(texts: seq<string>, s: State, i: nat)
    requires Inv(texts, s) && i < 2
    ensures Inv(texts, Step(texts, s, i))
  {
    StepEffect(texts, s, i);
  }

  lemma {:induction false} RunInv(texts: seq<string>, sched: seq<nat>)
    requires |texts| == 2 && IsSchedule(sched)
    ensures Inv(texts, Run(texts, START, sched))
  {
    if sched != [] {
      RunInv(texts, sched[..|sched| - 1]);
      StepInv(texts, Run(texts, START, sched[..|sched| - 1]), sched[|sched| - 1]);
    }
  }

  // ---- every total within the bounds has its schedule ---------------------------------

  lemma {:induction false} RunConcat(texts: seq<string>, s: State, p: seq<nat>, q: seq<nat>)
    requires TwoThreads(texts, s) && IsSchedule(p) && IsSchedule(q)
    ensures Run(texts, s, p + q) == Run(texts, Run(texts, s, p), q)
  {
    if q == [] {
      assert p + q == p;
    } else {
      assert (p + q)[..|p + q| - 1] == p + q[..|q| - 1];
      RunConcat(texts, s, p, q[..|q| - 1]);
    }
  }

  /** Thread i is at rest after `d` of its increments. */
  predicate Rests(texts: seq<string>, s: State, i: nat, d: nat)
    requires TwoThreads(texts, s) && i < 2
  {
    s.threads[i].pos <= |texts[i]| && s.threads[i].reg.None? && Done(texts[i], s.threads[i]) == d
  }

  /** `t` comes from `s` by steps of thread i alone. */
  predicate OtherUntouched(s: State, t: State, i: nat) {
    |s.threads| == |t.threads| == 2 && i < 2 && s.threads[1 - i] == t.threads[1 - i]
  }

  /** Thread i walks to its next increment and loads the counter. */
  lemma {:induction false} Load(texts: seq<string>, s: State, i: nat, d: nat) returns (sched: seq<nat>)
    requires TwoThreads(texts, s) && i < 2 && Rests(texts, s, i, d) && d < AllWords(texts[i])
    ensures IsSchedule(sched)
    ensures var t := Run(texts, s, sched);
            && OtherUntouched(s, t, i) && t.total == s.total
            && GoodThread(texts[i], t.threads[i]) && Done(texts[i], t.threads[i]) == d
            && t.threads[i].reg == Some(s.total)
    decreases |texts[i]| - s.threads[i].pos
  {
    var t := Step(texts, s, i);
    assert Run(texts, s, [i]) == t by { assert [i][..0] == []; }
    if WordEnds(texts[i], s.threads[i].pos) {
      sched := [i];
    } else {
      assert s.threads[i].pos < |texts[i]|;
      var rest := Load(texts, t, i, d);
      RunConcat(texts, s, [i], rest);
      sched := [i] + rest;
    }
  }

  /** Thread i makes k increments undisturbed. */
  lemma {:induction false} Advance(texts: seq<string>, s: State, i: nat, d: nat, k: nat) returns (sched: seq<nat>)
    requires TwoThreads(texts, s) && i < 2 && Rests(texts, s, i, d) && d + k <= AllWords(texts[i])
    ensures IsSchedule(sched)
    ensures var t := Run(texts, s, sched);
            OtherUntouched(s, t, i) && t.total == s.total + k && Rests(texts, t, i, d + k)
    decreases k
  {
    sched := [];
    if k > 0 {
      var load := Load(texts, s, i, d);
      var loaded := Run(texts, s, load);
      var stored := Step(texts, loaded, i);
      assert Run(texts, loaded, [i]) == stored by { assert [i][..0] == []; }
      var rest := Advance(texts, stored, i, d + 1, k - 1);
      RunConcat(texts, loaded, [i], rest);
      RunConcat(texts, s, load, [i] + rest);
      sched := load + ([i] + rest);
    }
  }

  /** Thread i, its increments made, runs to the end of its file. */
  lemma {:induction false} Finish(texts: seq<string>, s: State, i: nat) returns (sched: seq<nat>)
    requires TwoThreads(texts, s) && i < 2 && Rests(texts, s, i, AllWords(texts[i]))
    ensures IsSchedule(sched)
    ensures var t := Run(texts, s, sched);
            OtherUntouched(s, t, i) && t.total == s.total && t.threads[i] == Thread(|texts[i]|, None)
    decreases |texts[i]| - s.threads[i].pos
  {
    sched := [];
    if s.threads[i].pos < |texts[i]| {
      WordsMonotone(texts[i], s.threads[i].pos, |texts[i]|);
      var t := Step(texts, s, i);
      assert Run(texts, s, [i]) == t by { assert [i][..0] == []; }
      var rest := Finish(texts, t, i);
      RunConcat(texts, s, [i], rest);
      sched := [i] + rest;
    }
  }

  lemma FinishBoth(texts: seq<string>, s: State) returns (sched: seq<nat>)
    requires TwoThreads(texts, s)
    requires Rests(texts, s, 0, AllWords(texts[0])) && Rests(texts, s, 1, AllWords(texts[1]))
    ensures IsSchedule(sched)
    ensures var t := Run(texts, s, sched); Finished(texts, t) && t.total == s.total
  {
    var first := Finish(texts, s, 0);
    var between := Run(texts, s, first);
    assert Rests(texts, between, 1, AllWords(texts[1]));
    var second := Finish(texts, between, 1);
    var done := Run(texts, between, second);
    assert Finished(texts, done) && done.total == s.total;
    sched := first + second;
    assert Run(texts, s, sched) == done by { RunConcat(texts, s, first, second); }
  }

  /** Thread i loads, and the other one makes k increments. */
  lemma LoadAndWait(texts: seq<string>, s: State, i: nat, d: nat, e: nat, k: nat) returns (sched: seq<nat>)
    requires TwoThreads(texts, s) && i < 2 && Rests(texts, s, i, d) && Rests(texts, s, 1 - i, e)
    requires d < AllWords(texts[i]) && e + k <= AllWords(texts[1 - i])
    ensures IsSchedule(sched)
    ensures var t := Run(texts, s, sched);
            && GoodThread(texts[i], t.threads[i]) && Done(texts[i], t.threads[i]) == d
            && t.threads[i].reg == Some(s.total) && Rests(texts, t, 1 - i, e + k)
  {
    var load := Load(texts, s, i, d);
    var loaded := Run(texts, s, load);
    assert Rests(texts, loaded, 1 - i, e);
    var others := Advance(texts, loaded, 1 - i, e, k);
    RunConcat(texts, s, load, others);
    sched := load + others;
    assert Run(texts, s, sched).threads[i] == loaded.threads[i];
  }

  /** Thread i loads, the other one makes k increments, thread i stores: the k are lost. */
  lemma Lose(texts: seq<string>, s: State, i: nat, d: nat, e: nat, k: nat) returns (sched: seq<nat>)
    requires TwoThreads(texts, s) && i < 2 && Rests(texts, s, i, d) && Rests(texts, s, 1 - i, e)
    requires d < AllWords(texts[i]) && e + k <= AllWords(texts[1 - i])
    ensures IsSchedule(sched)
    ensures var t := Run(texts, s, sched);
            t.total == s.total + 1 && Rests(texts, t, i, d + 1) && Rests(texts, t, 1 - i, e + k)
  {
    var before := LoadAndWait(texts, s, i, d, e, k);
    var between := Run(texts, s, before);
    assert Run(texts, between, [i]) == Step(texts, between, i) by { assert [i][..0] == []; }
    StepEffect(texts, between, i);
    RunConcat(texts, s, before, [i]);
    sched := before + [i];
  }

  /** Both threads advance undisturbed, one after the other. */
  lemma AdvanceBoth(texts: seq<string>, k: nat, m: nat) returns (sched: seq<nat>)
    requires |texts| == 2 && k <= AllWords(texts[0]) && m <= AllWords(texts[1])
    ensures IsSchedule(sched)
    ensures var t := Run(texts, START, sched); t.total == k + m && Rests(texts, t, 0, k) && Rests(texts, t, 1, m)
  {
    var first := Advance(texts, START, 0, 0, k);
    var second := Advance(texts, Run(texts, START, first), 1, 0, m);
    RunConcat(texts, START, first, second);
    sched := first + second;
  }

  /** Both threads have made all their increments, and the counter says v. */
  predicate AllMade(texts: seq<string>, sched: seq<nat>, v: nat) {
    && |texts| == 2 && IsSchedule(sched)
    && var t := Run(texts, START, sched);
       t.total == v && Rests(texts, t, 0, AllWords(texts[0])) && Rests(texts, t, 1, AllWords(texts[1]))
  }

  /** Undisturbed increments, k and m of them, then one increment of thread i that swallows all that
      are left of the other thread. */
  lemma LoseOnce(texts: seq<string>, i: nat, k: nat, m: nat) returns (sched: seq<nat>)
    requires |texts| == 2 && i < 2 && k <= AllWords(texts[0]) && m <= AllWords(texts[1])
    requires if i == 0 then k + 1 == AllWords(texts[0]) else m + 1 == AllWords(texts[1])
    ensures AllMade(texts, sched, k + m + 1)
  {
    var a := AdvanceBoth(texts, k, m);
    var s := Run(texts, START, a);
    var b;
    if i == 0 {
      b := Lose(texts, s, 0, k, m, AllWords(texts[1]) - m);
    } else {
      b := Lose(texts, s, 1, m, k, AllWords(texts[0]) - k);
    }
    RunConcat(texts, START, a, b);
    sched := a + b;
  }

  /** Undisturbed increments, k and m of them; then thread 0 swallows all of thread 1's but the last,
      and that one swallows the rest of thread 0's. */
  lemma LoseTwice(texts: seq<string>, k: nat, m: nat) returns (sched: seq<nat>)
    requires |texts| == 2 && k + 2 <= AllWords(texts[0]) && m + 2 <= AllWords(texts[1])
    ensures AllMade(texts, sched, k + m + 2)
  {
    var n1, n2 := AllWords(texts[0]), AllWords(texts[1]);
    var a := AdvanceBoth(texts, k, m);
    var b := Lose(texts, Run(texts, START, a), 0, k, m, n2 - 1 - m);
    RunConcat(texts, START, a, b);
    var c := Lose(texts, Run(texts, START, a + b), 1, n2 - 1, k + 1, n1 - (k + 1));
    RunConcat(texts, START, a + b, c);
    sched := a + b + c;
  }

  lemma ReachTotal(texts: seq<string>, v: nat) returns (sched: seq<nat>)
    requires |texts| == 2 && Possible(AllWords(texts[0]), AllWords(texts[1]), v)
    ensures AllMade(texts, sched, v)
  {
    var n1, n2 := AllWords(texts[0]), AllWords(texts[1]);
    if v == n1 + n2 {
      sched := AdvanceBoth(texts, n1, n2);
    } else if n1 == 1 || v == n1 + n2 - 1 {
      sched := LoseOnce(texts, 0, n1 - 1, v - n1);
    } else if n2 == 1 {
      sched := LoseOnce(texts, 1, v - n2, n2 - 1);
    } else {
      var k := if v <= n1 then v - 2 else n1 - 2;
      sched := LoseTwice(texts, k, v - 2 - k);
    }
  }

  /** The race, exactly: a total comes out of some complete schedule if and only if it is possible;
      in particular 2 does whenever both files hold at least two words. */
  lemma RaceOutcomes(texts: seq<string>, v: nat)
    requires |texts| == 2
    ensures (exists sched :: IsSchedule(sched) && Finished(texts, Run(texts, START, sched))
                             && Run(texts, START, sched).total == v)
       <==> Possible(|WordEndSet(texts[0])|, |WordEndSet(texts[1])|, v)
  {
    WordsAreWordEnds(texts[0]);
    WordsAreWordEnds(texts[1]);
    forall sched | IsSchedule(sched) && Finished(texts, Run(texts, START, sched))
      ensures Possible(AllWords(texts[0]), AllWords(texts[1]), Run(texts, START, sched).total)
    {
      RunInv(texts, sched);
    }
    if Possible(AllWords(texts[0]), AllWords(texts[1]), v) {
      var a := ReachTotal(texts, v);
      var b := FinishBoth(texts, Run(texts, START, a));
      RunConcat(texts, START, a, b);
      assert IsSchedule(a + b);
    }
  }
}
