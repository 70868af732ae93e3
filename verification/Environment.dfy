/**
 The environment over a whole session.  The history of executed assignments and marks determines the
 variable table: the strings of the startup environment in their order, all exported, then the names
 assigned since, in the order of their first assignment, exported if marked while present; and each
 carries the last assignment that was executed.
 */
module Environment {
  import opened Wrappers
  import opened VarTable
  import opened Commands
  import opened ControlFlow

  // ---- reading the history ------------------------------------------------------------

  /** The value of the last assignment to a name. */
  function LastValue(log: seq<Event>, n: string): Option<string> {
    if log == [] then None
    else match log[|log| - 1]
      case Stored(m, v) => if m == n then Some(v) else LastValue(log[..|log| - 1], n)
      case _ => LastValue(log[..|log| - 1], n)
  }

  predicate InStartup(startup: seq<string>, n: string) { exists i :: 0 <= i < |startup| && Matches(startup[i], n) }

  /** The names that are not in the startup environment, in the order of their first assignment. */
  function NewNames(startup: seq<string>, log: seq<Event>): (names: seq<string>)
  {
    if log == [] then []
    else
      var before := NewNames(startup, log[..|log| - 1]);
      match log[|log| - 1]
      case Stored(n, _) => if InStartup(startup, n) || n in before then before else before + [n]
      case _ => before
  }

  /** The startup string i as it reads after the history: only the first entry of a name is assigned to. */
  function StartupText(startup: seq<string>, log: seq<Event>, i: nat): string
    requires i < |startup|
  {
    var s := startup[i];
    var n := s[..FirstEq(s)];
    if FirstEq(s) < |s| && (forall j :: 0 <= j < i ==> !Matches(startup[j], n)) && LastValue(log, n).Some?
    then NewString(n, LastValue(log, n).value)
    else s
  }

  function NewText(log: seq<Event>, n: string): string {
    NewString(n, match LastValue(log, n) case Some(v) => v case None => "")
  }

  /** Entry i of the table: startup strings first, then the new names. */
  function EntryAt(startup: seq<string>, log: seq<Event>, added: seq<string>, i: nat): Entry
    requires i < |startup| + |added|
  {
    if i < |startup| then Entry(StartupText(startup, log, i), true)
    else Entry(NewText(log, added[i - |startup|]), Marked(added[i - |startup|]) in log)
  }

  function TableOf(startup: seq<string>, log: seq<Event>, added: seq<string>): (t: Table)
    ensures |t| == |startup| + |added| && forall i :: 0 <= i < |t| ==> t[i] == EntryAt(startup, log, added, i)
  {
    seq(|startup| + |added|, i requires 0 <= i < |startup| + |added| => EntryAt(startup, log, added, i))
  }

  /** The table the history describes. */
  function Expected(startup: seq<string>, log: seq<Event>): (t: Table) { TableOf(startup, log, NewNames(startup, log)) }

  /** Names that commands can assign to. */
  predicate LegalNames(log: seq<Event>) {
    forall e :: e in log ==> (e.Stored? ==> NoEq(e.name)) && (e.Marked? ==> NoEq(e.name))
  }

  // ---- one more event -----------------------------------------------------------------

  lemma LastValueExtend(log: seq<Event>, e: Event, n: string)
    ensures LastValue(log + [e], n) == if e.Stored? && e.name == n then Some(e.val) else LastValue(log, n)
  {
    assert (log + [e])[..|log|] == log;
  }

  lemma NewNamesExtend(startup: seq<string>, log: seq<Event>, e: Event)
    ensures var added := NewNames(startup, log);
            NewNames(startup, log + [e]) ==
            if e.Stored? && !InStartup(startup, e.name) && e.name !in added then added + [e.name] else added
  {
    assert (log + [e])[..|log|] == log;
  }

  /** New names are legal, distinct, and not in the startup environment. */
  lemma {:induction false} NewNamesAre(startup: seq<string>, log: seq<Event>, k: nat)
    requires LegalNames(log) && k < |NewNames(startup, log)|
    ensures var added := NewNames(startup, log);
            && NoEq(added[k]) && !InStartup(startup, added[k])
            && forall j :: 0 <= j < |added| && added[j] == added[k] ==> j == k
  {
    var init, e := log[..|log| - 1], log[|log| - 1];
    var before, added := NewNames(startup, init), NewNames(startup, log);
    if k < |before| {
      NewNamesAre(startup, init, k);
      assert added[k] == before[k];
    } else {
      assert e.Stored? && added == before + [e.name] && e.name !in before;
    }
  }

  /** Rewriting a startup string keeps its name. */
  lemma StartupMatches(startup: seq<string>, log: seq<Event>, i: nat, n: string)
    requires i < |startup| && NoEq(n)
    ensures Matches(StartupText(startup, log, i), n) <==> Matches(startup[i], n)
  {
    var s := startup[i];
    MatchesIff(s, n);
    if StartupText(startup, log, i) != s {
      NewStringMatches(s[..FirstEq(s)], LastValue(log, s[..FirstEq(s)]).value, n);
    }
  }

  /** Entry i is the one that assignments to n go to. */
  predicate IsEntryOf(startup: seq<string>, added: seq<string>, n: string, i: nat)
    requires i < |startup| + |added|
  {
    if i < |startup| then Matches(startup[i], n) && forall j :: 0 <= j < i ==> !Matches(startup[j], n)
    else added[i - |startup|] == n
  }

  lemma EntryMatches(startup: seq<string>, log: seq<Event>, i: nat, n: string)
    requires LegalNames(log) && NoEq(n) && i < |startup| + |NewNames(startup, log)|
    ensures var added := NewNames(startup, log);
            Matches(EntryAt(startup, log, added, i).str, n) <==>
            if i < |startup| then Matches(startup[i], n) else added[i - |startup|] == n
  {
    if i < |startup| {
      StartupMatches(startup, log, i, n);
    } else {
      var m := NewNames(startup, log)[i - |startup|];
      NewNamesAre(startup, log, i - |startup|);
      NewStringMatches(m, match LastValue(log, m) case Some(v) => v case None => "", n);
    }
  }

  /** No earlier entry is of the name that assignments to this one are of. */
  lemma NoneBefore(startup: seq<string>, log: seq<Event>, n: string, i: nat, j: nat)
    requires LegalNames(log) && NoEq(n) && j < i < |Expected(startup, log)|
    requires IsEntryOf(startup, NewNames(startup, log), n, i)
    ensures !Matches(Expected(startup, log)[j].str, n)
  {
    EntryMatches(startup, log, j, n);
    if i >= |startup| {
      NewNamesAre(startup, log, i - |startup|);
    }
  }

  /** find_item finds the entry that assignments to the name go to, if there is one. */
  lemma ExpectedFind(startup: seq<string>, log: seq<Event>, n: string, i: nat)
    requires LegalNames(log) && NoEq(n) && i < |Expected(startup, log)|
    ensures i == Find(Expected(startup, log), n) <==> IsEntryOf(startup, NewNames(startup, log), n, i)
  {
    var t := Expected(startup, log);
    EntryMatches(startup, log, i, n);
    if IsEntryOf(startup, NewNames(startup, log), n, i) {
      forall j: nat | j < i ensures !Matches(t[j].str, n) {
        NoneBefore(startup, log, n, i, j);
      }
      FindIs(t, n, i);
    } else if i == Find(t, n) && i < |startup| {
      var j :| 0 <= j < i && Matches(startup[j], n);
      EntryMatches(startup, log, j, n);
    }
  }

  /** A name that is not found is neither in the startup environment nor new. */
  lemma ExpectedAbsent(startup: seq<string>, log: seq<Event>, n: string)
    requires LegalNames(log) && NoEq(n)
    ensures Present(Expected(startup, log), n) <==> InStartup(startup, n) || n in NewNames(startup, log)
  {
    var t, added := Expected(startup, log), NewNames(startup, log);
    if i :| 0 <= i < |startup| && Matches(startup[i], n) {
      EntryMatches(startup, log, i, n);
      assert Matches(t[i].str, n);
    }
    if k :| 0 <= k < |added| && added[k] == n {
      EntryMatches(startup, log, |startup| + k, n);
      assert Matches(t[|startup| + k].str, n);
    }
    if Present(t, n) {
      EntryMatches(startup, log, Find(t, n), n);
    }
  }

  /** A startup entry's text after one more event. */
  lemma StartupTextExtend(startup: seq<string>, log: seq<Event>, e: Event, i: nat)
    requires i < |startup| && (e.Stored? ==> NoEq(e.name))
    ensures StartupText(startup, log + [e], i) ==
            if e.Stored? && Matches(startup[i], e.name) && (forall j :: 0 <= j < i ==> !Matches(startup[j], e.name))
            then NewString(e.name, e.val) else StartupText(startup, log, i)
  {
    var s := startup[i];
    LastValueExtend(log, e, s[..FirstEq(s)]);
    if e.Stored? {
      MatchesIff(s, e.name);
    }
  }

  /** The name is in the table after the history: from the startup environment, or assigned since. */
  predicate WasPresent(startup: seq<string>, log: seq<Event>, n: string) {
    InStartup(startup, n) || LastValue(log, n).Some?
  }

  lemma {:induction false} AddedIff(startup: seq<string>, log: seq<Event>, n: string)
    ensures n in NewNames(startup, log) <==> !InStartup(startup, n) && LastValue(log, n).Some?
  {
    if log != [] {
      AddedIff(startup, log[..|log| - 1], n);
    }
  }

  /** Names are marked only while present: each at a moment when it was in the table. */
  predicate MarkedWhilePresent(startup: seq<string>, log: seq<Event>) {
    forall j :: 0 <= j < |log| && log[j].Marked? ==> WasPresent(startup, log[..j], log[j].name)
  }

  lemma MarkedWhilePresentExtend(startup: seq<string>, log: seq<Event>, e: Event)
    requires MarkedWhilePresent(startup, log) && (e.Marked? ==> WasPresent(startup, log, e.name))
    ensures MarkedWhilePresent(startup, log + [e])
  {
    assert (log + [e])[..|log|] == log;
    forall j | 0 <= j < |log| ensures (log + [e])[..j] == log[..j] {
    }
  }

  /** What was true of a history was true of it at every earlier moment. */
  lemma PrefixIsLikewise(startup: seq<string>, log: seq<Event>, k: nat)
    requires MarkedWhilePresent(startup, log) && LegalNames(log) && k <= |log|
    ensures MarkedWhilePresent(startup, log[..k]) && LegalNames(log[..k])
  {
    forall j | 0 <= j < k ensures log[..k][..j] == log[..j] {
    }
  }

  lemma {:induction false} ValuesLast(log: seq<Event>, j: nat, n: string)
    requires j <= |log| && LastValue(log[..j], n).Some?
    ensures LastValue(log, n).Some?
  {
    if j < |log| {
      var init := log[..|log| - 1];
      assert init[..j] == log[..j];
      ValuesLast(init, j, n);
    } else {
      assert log[..j] == log;
    }
  }

  /** Names marked while present are present still. */
  predicate MarkedArePresent(startup: seq<string>, log: seq<Event>) {
    forall e :: e in log && e.Marked? ==> InStartup(startup, e.name) || e.name in NewNames(startup, log)
  }

  lemma MarkedStayPresent(startup: seq<string>, log: seq<Event>)
    requires MarkedWhilePresent(startup, log)
    ensures MarkedArePresent(startup, log)
  {
    forall e | e in log && e.Marked? ensures InStartup(startup, e.name) || e.name in NewNames(startup, log) {
      var j :| 0 <= j < |log| && log[j] == e;
      AddedIff(startup, log, e.name);
      if LastValue(log[..j], e.name).Some? {
        ValuesLast(log, j, e.name);
      }
    }
  }

  /** One old entry after an assignment. */
  lemma StoreEntry(startup: seq<string>, log: seq<Event>, added: seq<string>, added2: seq<string>,
                   n: string, v: string, i: nat)
    requires NoEq(n) && i < |startup| + |added| && added <= added2
    ensures var e := EntryAt(startup, log, added, i);
            EntryAt(startup, log + [Stored(n, v)], added2, i) ==
            if IsEntryOf(startup, added, n, i) then e.(str := NewString(n, v)) else e
  {
    if i < |startup| {
      StartupTextExtend(startup, log, Stored(n, v), i);
    } else {
      var m := added[i - |startup|];
      LastValueExtend(log, Stored(n, v), m);
      assert Marked(m) in log + [Stored(n, v)] <==> Marked(m) in log;
    }
  }

  /** One entry after an event that assigns nothing. */
  lemma QuietEntry(startup: seq<string>, log: seq<Event>, added: seq<string>, e: Event, i: nat)
    requires !e.Stored? && i < |startup| + |added|
    ensures EntryAt(startup, log + [e], added, i) ==
            var t := EntryAt(startup, log, added, i);
            if e.Marked? && i >= |startup| && added[i - |startup|] == e.name then t.(global := true) else t
  {
    if i < |startup| {
      StartupTextExtend(startup, log, e, i);
    } else {
      var n := added[i - |startup|];
      LastValueExtend(log, e, n);
      assert Marked(n) in log + [e] <==> Marked(n) in log || e == Marked(n);
    }
  }

  /** An executed assignment acts on the expected table as on the real one. */
  lemma ExpectedStore(startup: seq<string>, log: seq<Event>, n: string, v: string)
    requires LegalNames(log) && MarkedArePresent(startup, log) && NoEq(n)
    requires Store(Expected(startup, log), n, v).1 == 0
    ensures Store(Expected(startup, log), n, v).0 == Expected(startup, log + [Stored(n, v)])
  {
    var t, added := Expected(startup, log), NewNames(startup, log);
    var u, added2 := Expected(startup, log + [Stored(n, v)]), NewNames(startup, log + [Stored(n, v)]);
    NewNamesExtend(startup, log, Stored(n, v));
    ExpectedAbsent(startup, log, n);
    forall i | 0 <= i < |t| ensures u[i] == if i == Find(t, n) then t[i].(str := NewString(n, v)) else t[i] {
      StoreEntry(startup, log, added, added2, n, v, i);
      ExpectedFind(startup, log, n, i);
    }
    if Find(t, n) == |t| {
      LastValueExtend(log, Stored(n, v), n);
      assert u[|t|] == Entry(NewString(n, v), false);
    }
  }

  /** So does a mark on a present name. */
  lemma ExpectedMark(startup: seq<string>, log: seq<Event>, n: string)
    requires LegalNames(log) && MarkedArePresent(startup, log) && NoEq(n)
    requires Present(Expected(startup, log), n)
    ensures Export(Expected(startup, log), n).0 == Expected(startup, log + [Marked(n)])
  {
    var t, u, added := Expected(startup, log), Expected(startup, log + [Marked(n)]), NewNames(startup, log);
    NewNamesExtend(startup, log, Marked(n));
    ExpectedAbsent(startup, log, n);
    forall i | 0 <= i < |t| ensures u[i] == if i == Find(t, n) then t[i].(global := true) else t[i] {
      QuietEntry(startup, log, added, Marked(n), i);
      ExpectedFind(startup, log, n, i);
    }
  }

  /** Running a program leaves the table alone. */
  lemma ExpectedRan(startup: seq<string>, log: seq<Event>, e: Event)
    requires e.Ran?
    ensures Expected(startup, log) == Expected(startup, log + [e])
  {
    var t, u, added := Expected(startup, log), Expected(startup, log + [e]), NewNames(startup, log);
    NewNamesExtend(startup, log, e);
    forall i | 0 <= i < |t| ensures u[i] == t[i] {
      QuietEntry(startup, log, added, e, i);
    }
  }

  // ---- whole sessions -----------------------------------------------------------------

  /** Every program was run with the environment that its history describes. */
  predicate EnvironmentsRight(startup: seq<string>, log: seq<Event>) {
    forall k :: 0 <= k < |log| && log[k].Ran? ==> log[k].environ == Environ(Expected(startup, log[..k]))
  }

  predicate Faithful<E>(startup: seq<string>, core: Core<E>) {
    && LegalNames(core.trace) && MarkedWhilePresent(startup, core.trace)
    && EnvironmentsRight(startup, core.trace)
    && core.vars == Expected(startup, core.trace)
  }

  lemma EnvironmentsRightExtend(startup: seq<string>, log: seq<Event>, e: Event)
    requires EnvironmentsRight(startup, log) && (e.Ran? ==> e.environ == Environ(Expected(startup, log)))
    ensures EnvironmentsRight(startup, log + [e])
  {
    assert (log + [e])[..|log|] == log;
    forall k | 0 <= k < |log| ensures (log + [e])[..k] == log[..k] {
    }
  }

  lemma StartFaithful<E>(startup: seq<string>, world: E)
    requires |startup| <= MAXVARS
    ensures Faithful(startup, Core(Load(startup), world, [], false))
  {
    assert Load(startup) == Expected(startup, []);
  }

  lemma StoreFaithful<E>(startup: seq<string>, core: Core<E>, n: string, v: string)
    requires Faithful(startup, core) && NoEq(n) && Store(core.vars, n, v).1 == 0
    ensures Faithful(startup, core.(vars := Store(core.vars, n, v).0, trace := core.trace + [Stored(n, v)]))
  {
    MarkedStayPresent(startup, core.trace);
    ExpectedStore(startup, core.trace, n, v);
    EnvironmentsRightExtend(startup, core.trace, Stored(n, v));
    MarkedWhilePresentExtend(startup, core.trace, Stored(n, v));
  }

  lemma MarkFaithful<E>(startup: seq<string>, core: Core<E>, n: string)
    requires Faithful(startup, core) && NoEq(n) && Present(core.vars, n)
    ensures Faithful(startup, core.(vars := Export(core.vars, n).0, trace := core.trace + [Marked(n)]))
  {
    MarkedStayPresent(startup, core.trace);
    ExpectedMark(startup, core.trace, n);
    EnvironmentsRightExtend(startup, core.trace, Marked(n));
    ExpectedAbsent(startup, core.trace, n);
    AddedIff(startup, core.trace, n);
    MarkedWhilePresentExtend(startup, core.trace, Marked(n));
  }

  lemma AssignFaithful<E>(startup: seq<string>, core: Core<E>, word: string)
    requires Faithful(startup, core) && FirstEq(word) < |word|
    ensures Faithful(startup, Assign(core, word).0)
  {
    var name, val := word[..FirstEq(word)], word[FirstEq(word) + 1..];
    if OkName(name) && Store(core.vars, name, val).1 == 0 {
      OkNameHasNoEq(name);
      StoreFaithful(startup, core, name, val);
    }
  }

  lemma ExportFaithful<E>(startup: seq<string>, core: Core<E>, args: seq<string>)
    requires Faithful(startup, core)
    ensures Faithful(startup, ExportCommand(core, args).0)
  {
    if |args| >= 2 && OkName(args[1]) && ExportReturns(core.vars, args[1]) {
      OkNameHasNoEq(args[1]);
      if Present(core.vars, args[1]) {
        MarkFaithful(startup, core, args[1]);
      } else {
        StoreFaithful(startup, core, args[1], "");
      }
    }
  }

  lemma ExecuteFaithful<E>(o: Oracle<E>, startup: seq<string>, core: Core<E>, args: seq<string>)
    requires Faithful(startup, core)
    ensures Faithful(startup, Execute(o, core, args).0)
  {
    var env := Environ(core.vars);
    var e := Ran(args, env, o(core.world, args, env).0);
    ExpectedRan(startup, core.trace, e);
    EnvironmentsRightExtend(startup, core.trace, e);
    MarkedWhilePresentExtend(startup, core.trace, e);
  }

  lemma CommandFaithful<E>(o: Oracle<E>, startup: seq<string>, core: Core<E>, args: seq<string>)
    requires Faithful(startup, core)
    ensures Faithful(startup, RunCommand(o, core, args).0)
  {
    if !core.hung && args != [] && args[0] != "set" {
      if FirstEq(args[0]) < |args[0]| {
        AssignFaithful(startup, core, args[0]);
      } else if args[0] == "export" {
        ExportFaithful(startup, core, args);
      }
      ExecuteFaithful(o, startup, core, args);
    }
  }

  lemma {:induction false} ProcessFaithful<E>(o: Oracle<E>, startup: seq<string>, s: Shell<E>, args: Words)
    requires Faithful(startup, s.core)
    ensures Faithful(startup, Process(o, s, args).0.core)
    decreases |args|
  {
    CommandFaithful(o, startup, s.core, args);
    ProcessCore(o, s, args);
    if args != [] && args[0] == "if" {
      ProcessFaithful(o, startup, s, args[1..]);
    }
  }

  lemma {:induction false} LinesFaithful<E>(o: Oracle<E>, startup: seq<string>, s: Shell<E>, lines: seq<Words>)
    requires Faithful(startup, s.core)
    ensures Faithful(startup, RunLines(o, s, lines).core)
    decreases |lines|
  {
    if lines != [] {
      ProcessFaithful(o, startup, s, lines[0]);
      LinesFaithful(o, startup, Process(o, s, lines[0]).0, lines[1..]);
    }
  }

  function Start<E>(startup: seq<string>, world: E): Shell<E> { Shell(FRESH, Core(Load(startup), world, [], false)) }

  /** The startup strings that fit into the table. */
  function Kept(startup: seq<string>): (kept: seq<string>)
    ensures |kept| <= MAXVARS
  {
    if |startup| <= MAXVARS then startup else startup[..MAXVARS]
  }

  /** After any lines, well-formed or not, every program that was run got exactly the environment that
      the startup strings and the assignments and marks executed before it describe. */
  lemma ChildrenGetTheEnvironment<E>(o: Oracle<E>, startup: seq<string>, world: E, lines: seq<Words>)
    ensures var core := RunLines(o, Start(startup, world), lines).core;
            && EnvironmentsRight(Kept(startup), core.trace) && core.vars == Expected(Kept(startup), core.trace)
            && LegalNames(core.trace) && MarkedWhilePresent(Kept(startup), core.trace)
  {
    assert Load(startup) == Load(Kept(startup));
    StartFaithful(Kept(startup), world);
    LinesFaithful(o, Kept(startup), Start(startup, world), lines);
  }

  // ---- the programs really ran --------------------------------------------------------

  /** The world after running the programs of a history one by one, each with its recorded words and
      environment. */
  function WorldAfter<E>(o: Oracle<E>, world: E, log: seq<Event>): E {
    if log == [] then world
    else
      var before := WorldAfter(o, world, log[..|log| - 1]);
      match log[|log| - 1]
      case Ran(args, environ, _) => o(before, args, environ).1
      case _ => before
  }

  /** Every recorded status is the one that its program returns in the world of that moment. */
  predicate StatusesRight<E>(o: Oracle<E>, world: E, log: seq<Event>) {
    forall k :: 0 <= k < |log| && log[k].Ran? ==>
      log[k].status == o(WorldAfter(o, world, log[..k]), log[k].args, log[k].environ).0
  }

  ghost predicate Replayed<E>(o: Oracle<E>, world: E, core: Core<E>) {
    core.world == WorldAfter(o, world, core.trace) && StatusesRight(o, world, core.trace)
  }

  lemma ReplayedExtend<E>(o: Oracle<E>, world: E, core: Core<E>, after: Core<E>, e: Event)
    requires Replayed(o, world, core) && after.trace == core.trace + [e]
    requires match e
             case Ran(args, environ, status) => (status, after.world) == o(core.world, args, environ)
             case _ => after.world == core.world
    ensures Replayed(o, world, after)
  {
    var log := core.trace;
    assert (log + [e])[..|log|] == log;
    forall k | 0 <= k < |log| ensures (log + [e])[..k] == log[..k] {
    }
  }

  lemma CommandReplayed<E>(o: Oracle<E>, world: E, core: Core<E>, args: seq<string>)
    requires Replayed(o, world, core)
    ensures Replayed(o, world, RunCommand(o, core, args).0)
  {
    var after := RunCommand(o, core, args).0;
    if after.trace != core.trace {
      var e := after.trace[|core.trace|];
      assert after.trace == core.trace + [e];
      ReplayedExtend(o, world, core, after, e);
    }
  }

  /** All that a line can do to the shell's core is to run one command. */
  lemma ProcessCore<E>(o: Oracle<E>, s: Shell<E>, args: Words)
    ensures var core := Process(o, s, args).0.core;
            || core == s.core || core == RunCommand(o, s.core, args).0
            || (args != [] && args[0] == "if" && core == Process(o, s, args[1..]).0.core)
  {
  }

  lemma {:induction false} ProcessReplayed<E>(o: Oracle<E>, world: E, s: Shell<E>, args: Words)
    requires Replayed(o, world, s.core)
    ensures Replayed(o, world, Process(o, s, args).0.core)
    decreases |args|
  {
    CommandReplayed(o, world, s.core, args);
    ProcessCore(o, s, args);
    if args != [] && args[0] == "if" {
      ProcessReplayed(o, world, s, args[1..]);
    }
  }

  lemma {:induction false} LinesReplayed<E>(o: Oracle<E>, world: E, s: Shell<E>, lines: seq<Words>)
    requires Replayed(o, world, s.core)
    ensures Replayed(o, world, RunLines(o, s, lines).core)
    decreases |lines|
  {
    if lines != [] {
      ProcessReplayed(o, world, s, lines[0]);
      LinesReplayed(o, world, Process(o, s, lines[0]).0, lines[1..]);
    }
  }

  /** The history is what happened: after any lines, running the recorded programs one by one from the
      first world, each with its recorded words in its recorded environment, gives every recorded status
      and the final world; and each recorded environment is the one the history before it describes. */
  lemma HistoryIsWhatHappened<E>(o: Oracle<E>, startup: seq<string>, world: E, lines: seq<Words>)
    ensures var core := RunLines(o, Start(startup, world), lines).core;
            && core.world == WorldAfter(o, world, core.trace) && StatusesRight(o, world, core.trace)
            && EnvironmentsRight(Kept(startup), core.trace)
  {
    LinesReplayed(o, world, Start(startup, world), lines);
    ChildrenGetTheEnvironment(o, startup, world, lines);
  }

  // ---- what a child sees --------------------------------------------------------------

  /** The string getenv would find for a name. */
  function Getenv(env: seq<string>, n: string): Option<string> {
    if env == [] then None
    else match Getenv(env[..|env| - 1], n)
      case Some(s) => Some(s)
      case None => if Matches(env[|env| - 1], n) then Some(env[|env| - 1]) else None
  }

  /** Entry i is exported and has the name. */
  predicate Shows(t: Table, n: string, i: nat)
    requires i < |t|
  {
    t[i].global && Matches(t[i].str, n)
  }

  lemma {:induction false} GetenvOfEnviron(t: Table, k: nat, n: string, i: nat)
    requires k <= |t| && i <= k && (i < k ==> Shows(t, n, i)) && forall j :: 0 <= j < i ==> !Shows(t, n, j)
    ensures Getenv(EnvironUpTo(t, k), n) == if i < k then Some(t[i].str) else None
  {
    if k > 0 {
      GetenvOfEnviron(t, k - 1, n, if i < k then i else k - 1);
      if t[k - 1].global {
        var env := EnvironUpTo(t, k - 1) + [t[k - 1].str];
        assert env[..|env| - 1] == EnvironUpTo(t, k - 1) && env == EnvironUpTo(t, k);
        assert i < k || !Shows(t, n, k - 1);
      } else {
        assert EnvironUpTo(t, k) == EnvironUpTo(t, k - 1);
      }
    }
  }

  lemma StartupNameSeen(startup: seq<string>, log: seq<Event>, n: string, i: nat)
    requires LegalNames(log) && NoEq(n) && i < |startup| && IsEntryOf(startup, NewNames(startup, log), n, i)
    ensures Getenv(Environ(Expected(startup, log)), n) == Some(StartupText(startup, log, i))
  {
    var t := Expected(startup, log);
    forall j | 0 <= j <= i ensures Matches(t[j].str, n) <==> Matches(startup[j], n) {
      EntryMatches(startup, log, j, n);
    }
    GetenvOfEnviron(t, |t|, n, i);
  }

  lemma OtherNameSeen(startup: seq<string>, log: seq<Event>, n: string)
    requires LegalNames(log) && MarkedArePresent(startup, log) && NoEq(n) && !InStartup(startup, n)
    ensures Getenv(Environ(Expected(startup, log)), n) == if Marked(n) in log then Some(NewText(log, n)) else None
  {
    var t, added := Expected(startup, log), NewNames(startup, log);
    forall i | 0 <= i < |t| ensures Matches(t[i].str, n) <==> i >= |startup| && added[i - |startup|] == n {
      EntryMatches(startup, log, i, n);
    }
    if Marked(n) in log {
      var k :| 0 <= k < |added| && added[k] == n;
      NewNamesAre(startup, log, k);
      GetenvOfEnviron(t, |t|, n, |startup| + k);
    } else {
      GetenvOfEnviron(t, |t|, n, |t|);
    }
  }

  /** What a child with environment `env` sees under a name after a history: something if and only if
      the name was in the startup environment or marked while present; and then the last executed
      assignment, or the startup string if there was none. */
  predicate SeesName(startup: seq<string>, log: seq<Event>, env: seq<string>, n: string) {
    var seen := Getenv(env, n);
    && (seen.Some? <==> InStartup(startup, n) || Marked(n) in log)
    && (seen.Some? && LastValue(log, n).Some? ==> seen.value == NewString(n, LastValue(log, n).value))
    && (seen.Some? && LastValue(log, n).None? ==> InStartup(startup, n) && Getenv(startup, n) == seen)
  }

  lemma HistoryShows(startup: seq<string>, log: seq<Event>, n: string)
    requires LegalNames(log) && MarkedWhilePresent(startup, log) && NoEq(n)
    ensures SeesName(startup, log, Environ(Expected(startup, log)), n)
  {
    MarkedStayPresent(startup, log);
    AddedIff(startup, log, n);
    if InStartup(startup, n) {
      var i := FirstIn(startup, n);
      MatchesIff(startup[i], n);
      StartupNameSeen(startup, log, n, i);
    } else {
      OtherNameSeen(startup, log, n);
    }
  }

  /** Over whole sessions: after any lines, well-formed or not, whatever program was run, and whatever
      the name, the program saw under it what the history up to its start says; and names were marked
      only at moments when they were in the table. */
  lemma ChildSees<E>(o: Oracle<E>, startup: seq<string>, world: E, lines: seq<Words>, k: nat, n: string)
    requires NoEq(n)
    requires var log := RunLines(o, Start(startup, world), lines).core.trace; k < |log| && log[k].Ran?
    ensures var log := RunLines(o, Start(startup, world), lines).core.trace;
            SeesName(Kept(startup), log[..k], log[k].environ, n) && MarkedWhilePresent(Kept(startup), log)
  {
    ChildrenGetTheEnvironment(o, startup, world, lines);
    var log := RunLines(o, Start(startup, world), lines).core.trace;
    PrefixIsLikewise(Kept(startup), log, k);
    HistoryShows(Kept(startup), log[..k], n);
  }

  lemma {:induction false} FirstIn(startup: seq<string>, n: string) returns (i: nat)
    requires InStartup(startup, n)
    ensures i < |startup| && Matches(startup[i], n) && forall j :: 0 <= j < i ==> !Matches(startup[j], n)
    ensures Getenv(startup, n) == Some(startup[i])
  {
    var init := startup[..|startup| - 1];
    if InStartup(init, n) {
      i := FirstIn(init, n);
      assert forall j :: 0 <= j <= i ==> init[j] == startup[j];
    } else {
      i := |startup| - 1;
      assert forall j :: 0 <= j < i ==> init[j] == startup[j];
      GetenvNone(init, n);
    }
  }

  lemma {:induction false} GetenvNone(env: seq<string>, n: string)
    requires !InStartup(env, n)
    ensures Getenv(env, n) == None
  {
    if env != [] {
      var init := env[..|env| - 1];
      assert forall j :: 0 <= j < |init| ==> init[j] == env[j];
      GetenvNone(init, n);
    }
  }
}
