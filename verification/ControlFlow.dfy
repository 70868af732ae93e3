/**
 The line-at-a-time if/then/fi automaton, mutually recursive with the command dispatcher.  A program
 made of commands and if-blocks has a structured meaning; feeding its lines to the automaton one at
 a time has that meaning, and conversely only the lines of such programs get through without a
 syntax error.
 */
module ControlFlow {
  import opened VarTable
  import opened Commands

  type Words = seq<string>

  datatype IfState = NEUTRAL | WANT_THEN | THEN_BLOCK

  /** The automaton's statics, and a count of the syntax errors reported. */
  datatype Control = Control(ifState: IfState, success: bool, lastStat: int, errors: nat)

  datatype Shell<E> = Shell(ctl: Control, core: Core<E>)

  const FRESH := Control(NEUTRAL, true, 0, 0)

  predicate IsControl(word: string) { word == "if" || word == "then" || word == "fi" }

  function SyntaxError(ctl: Control): Control { ctl.(ifState := NEUTRAL, errors := ctl.errors + 1) }

  /** process: the new state and the result.  A shell that hangs inside a command never comes back to
      update its control state. */
  function Process<E>(o: Oracle<E>, s: Shell<E>, args: Words): (Shell<E>, int)
    decreases |args|, 1
  {
    if s.core.hung || args == [] then (s, 0)
    else if IsControl(args[0]) then ControlCommand(o, s, args)
    else match s.ctl.ifState
      case WANT_THEN => (s.(ctl := SyntaxError(s.ctl)), 0)
      case THEN_BLOCK => if s.ctl.success then Dispatch(o, s, args) else (s, 0)
      case NEUTRAL => Dispatch(o, s, args)
  }

  function Dispatch<E>(o: Oracle<E>, s: Shell<E>, args: Words): (Shell<E>, int) {
    var (core, status) := RunCommand(o, s.core, args);
    (s.(core := core), status)
  }

  /** do_control_command. */
  function ControlCommand<E>(o: Oracle<E>, s: Shell<E>, args: Words): (Shell<E>, int)
    requires args != [] && IsControl(args[0])
    decreases |args|, 0
  {
    if args[0] == "if" then
      if s.ctl.ifState != NEUTRAL then (s.(ctl := SyntaxError(s.ctl)), -1)
      else
        var (s1, status) := Process(o, s, args[1..]);
        if s1.core.hung then (s1, 0)
        else (s1.(ctl := s1.ctl.(lastStat := status, success := status == 0, ifState := WANT_THEN)), 0)
    else if args[0] == "then" then
      if s.ctl.ifState != WANT_THEN then (s.(ctl := SyntaxError(s.ctl)), -1)
      else (s.(ctl := s.ctl.(ifState := THEN_BLOCK)), 0)
    else
      if s.ctl.ifState != THEN_BLOCK then (s.(ctl := SyntaxError(s.ctl)), -1)
      else (s.(ctl := s.ctl.(ifState := NEUTRAL)), 0)
  }

  /** The main loop over the lines of a script. */
  function RunLines<E>(o: Oracle<E>, s: Shell<E>, lines: seq<Words>): Shell<E>
    decreases |lines|
  {
    if lines == [] then s else RunLines(o, Process(o, s, lines[0]).0, lines[1..])
  }

  // ---- structured programs ------------------------------------------------------------

  /** A command, or an if-block: `if` repeated 1 + extraIfs times before the condition, blank lines, a
      then line, the body, a fi line.  Words after then and fi are ignored, as in the source. */
  datatype Item =
    | Simple(args: Words)
    | Block(extraIfs: nat, cond: Words, blanks: nat, thenWords: Words, body: seq<Words>, fiWords: Words)

  predicate IsPlain(args: Words) { args == [] || !IsControl(args[0]) }

  predicate WellFormed(item: Item) {
    match item
    case Simple(args) => IsPlain(args)
    case Block(_, cond, _, _, body, _) => IsPlain(cond) && forall i :: 0 <= i < |body| ==> IsPlain(body[i])
  }

  predicate IsProgram(prog: seq<Item>) { forall i :: 0 <= i < |prog| ==> WellFormed(prog[i]) }

  /** What a structured reading of the program does. */
  function RunBody<E>(o: Oracle<E>, core: Core<E>, body: seq<Words>): Core<E>
    decreases |body|
  {
    if body == [] then core else RunBody(o, RunCommand(o, core, body[0]).0, body[1..])
  }

  function EvalItem<E>(o: Oracle<E>, core: Core<E>, item: Item): Core<E> {
    match item
    case Simple(args) => RunCommand(o, core, args).0
    case Block(extraIfs, cond, _, _, body, _) =>
      // A repeated `if` is itself a command that succeeds.
      var (after, status) := RunCommand(o, core, cond);
      if status == 0 || extraIfs > 0 then RunBody(o, after, body) else after
  }

  function Eval<E>(o: Oracle<E>, core: Core<E>, prog: seq<Item>): Core<E>
    decreases |prog|
  {
    if prog == [] then core else Eval(o, EvalItem(o, core, prog[0]), prog[1..])
  }

  /** The program's lines. */
  function IfLine(extraIfs: nat, cond: Words): (l: Words)
    ensures l != [] && l[0] == "if"
  {
    if extraIfs == 0 then ["if"] + cond else ["if"] + IfLine(extraIfs - 1, cond)
  }

  function Blanks(n: nat): (ls: seq<Words>)
    ensures |ls| == n
  {
    if n == 0 then [] else [[]] + Blanks(n - 1)
  }

  function ItemLines(item: Item): seq<Words> {
    match item
    case Simple(args) => [args]
    case Block(extraIfs, cond, blanks, thenWords, body, fiWords) =>
      [IfLine(extraIfs, cond)] + (Blanks(blanks) + ([["then"] + thenWords] + (body + [["fi"] + fiWords])))
  }

  function Lines(prog: seq<Item>): seq<Words>
    decreases |prog|
  {
    if prog == [] then [] else ItemLines(prog[0]) + Lines(prog[1..])
  }

  // ---- the automaton keeps the meaning ------------------------------------------------

  lemma {:induction false} RunLinesConcat<E>(o: Oracle<E>, s: Shell<E>, a: seq<Words>, b: seq<Words>)
    ensures RunLines(o, s, a + b) == RunLines(o, RunLines(o, s, a), b)
    decreases |a|
  {
    if a == [] {
      assert a + b == b;
    } else {
      assert (a + b)[1..] == a[1..] + b;
      RunLinesConcat(o, Process(o, s, a[0]).0, a[1..], b);
    }
  }

  lemma {:induction false} HungForGood<E>(o: Oracle<E>, s: Shell<E>, lines: seq<Words>)
    requires s.core.hung
    ensures RunLines(o, s, lines) == s
    decreases |lines|
  {
    if lines != [] {
      HungForGood(o, s, lines[1..]);
    }
  }

  lemma {:induction false} HungBody<E>(o: Oracle<E>, core: Core<E>, body: seq<Words>)
    requires core.hung
    ensures RunBody(o, core, body) == core
    decreases |body|
  {
    if body != [] {
      HungBody(o, core, body[1..]);
    }
  }

  /** The state after an `if` line whose condition ended with `status`. */
  function AfterIf<E>(s: Shell<E>, core: Core<E>, status: int): Shell<E> {
    Shell(s.ctl.(lastStat := status, success := status == 0, ifState := WANT_THEN), core)
  }

  lemma {:induction false} ProcessIfLine<E>(o: Oracle<E>, s: Shell<E>, extraIfs: nat, cond: Words)
    requires s.ctl.ifState == NEUTRAL && !s.core.hung && IsPlain(cond)
    ensures var (core, status) := RunCommand(o, s.core, cond);
            var (s1, rv) := Process(o, s, IfLine(extraIfs, cond));
            && rv == 0 && s1.core == core
            && (!core.hung ==> s1 == AfterIf(s, core, if extraIfs == 0 then status else 0))
  {
    var line := IfLine(extraIfs, cond);
    if extraIfs == 0 {
      assert line[1..] == cond;
      assert Process(o, s, cond) == Dispatch(o, s, cond);
    } else {
      assert line[1..] == IfLine(extraIfs - 1, cond);
      ProcessIfLine(o, s, extraIfs - 1, cond);
    }
    assert Process(o, s, line) == ControlCommand(o, s, line);
  }

  lemma {:induction false} RunBlanks<E>(o: Oracle<E>, s: Shell<E>, n: nat)
    ensures RunLines(o, s, Blanks(n)) == s
  {
    if n > 0 {
      assert Blanks(n)[1..] == Blanks(n - 1);
      RunBlanks(o, s, n - 1);
    }
  }

  lemma {:induction false} RunBlock<E>(o: Oracle<E>, s: Shell<E>, body: seq<Words>)
    requires s.ctl.ifState == THEN_BLOCK && forall i :: 0 <= i < |body| ==> IsPlain(body[i])
    ensures RunLines(o, s, body) == Shell(s.ctl, if s.ctl.success then RunBody(o, s.core, body) else s.core)
    decreases |body|
  {
    if body != [] {
      var s1 := Process(o, s, body[0]).0;
      assert s1 == Shell(s.ctl, if s.ctl.success then RunCommand(o, s.core, body[0]).0 else s.core);
      RunBlock(o, s1, body[1..]);
    }
  }

  lemma RunOne<E>(o: Oracle<E>, s: Shell<E>, line: Words)
    ensures RunLines(o, s, [line]) == Process(o, s, line).0
  {
    assert [line][1..] == [];
  }

  /** Between the if line and the end of the block. */
  lemma RunThenPart<E>(o: Oracle<E>, s: Shell<E>, blanks: nat, thenWords: Words, body: seq<Words>, fiWords: Words)
    requires s.ctl.ifState == WANT_THEN && !s.core.hung && forall i :: 0 <= i < |body| ==> IsPlain(body[i])
    ensures var rest := Blanks(blanks) + ([["then"] + thenWords] + (body + [["fi"] + fiWords]));
            var core := if s.ctl.success then RunBody(o, s.core, body) else s.core;
            RunLines(o, s, rest) == Shell(s.ctl.(ifState := if core.hung then THEN_BLOCK else NEUTRAL), core)
  {
    var fi, thenLine := ["fi"] + fiWords, ["then"] + thenWords;
    RunLinesConcat(o, s, Blanks(blanks), [thenLine] + (body + [fi]));
    RunBlanks(o, s, blanks);
    RunLinesConcat(o, s, [thenLine], body + [fi]);
    RunOne(o, s, thenLine);
    var s1 := s.(ctl := s.ctl.(ifState := THEN_BLOCK));
    RunLinesConcat(o, s1, body, [fi]);
    RunBlock(o, s1, body);
    RunOne(o, RunLines(o, s1, body), fi);
  }

  lemma RunItem<E>(o: Oracle<E>, s: Shell<E>, item: Item)
    requires s.ctl.ifState == NEUTRAL && !s.core.hung && WellFormed(item)
    ensures var s1 := RunLines(o, s, ItemLines(item));
            && s1.core == EvalItem(o, s.core, item)
            && (!s1.core.hung ==> s1.ctl.ifState == NEUTRAL && s1.ctl.errors == s.ctl.errors)
  {
    match item
    case Simple(args) => RunOne(o, s, args);
    case Block(extraIfs, cond, blanks, thenWords, body, fiWords) =>
      var line := IfLine(extraIfs, cond);
      var rest := Blanks(blanks) + ([["then"] + thenWords] + (body + [["fi"] + fiWords]));
      RunLinesConcat(o, s, [line], rest);
      RunOne(o, s, line);
      ProcessIfLine(o, s, extraIfs, cond);
      var s1 := Process(o, s, line).0;
      if s1.core.hung {
        HungForGood(o, s1, rest);
        HungBody(o, s1.core, body);
      } else {
        RunThenPart(o, s1, blanks, thenWords, body, fiWords);
      }
  }

  lemma {:induction false} HungEval<E>(o: Oracle<E>, core: Core<E>, prog: seq<Item>)
    requires core.hung
    ensures Eval(o, core, prog) == core
    decreases |prog|
  {
    if prog != [] {
      if prog[0].Block? {
        HungBody(o, core, prog[0].body);
      }
      HungEval(o, core, prog[1..]);
    }
  }

  /** Meaning preservation: for every program and every oracle, the automaton fed with the program's
      lines executes the same commands in the same order, with the same environments, statuses and
      final world, as the structured evaluator; and unless a command hangs it ends in NEUTRAL without
      a syntax error. */
  lemma {:induction false} MeaningPreserved<E>(o: Oracle<E>, s: Shell<E>, prog: seq<Item>)
    requires s.ctl.ifState == NEUTRAL && !s.core.hung && IsProgram(prog)
    ensures var s1 := RunLines(o, s, Lines(prog));
            && s1.core == Eval(o, s.core, prog)
            && (!s1.core.hung ==> s1.ctl.ifState == NEUTRAL && s1.ctl.errors == s.ctl.errors)
    decreases |prog|
  {
    if prog != [] {
      RunItem(o, s, prog[0]);
      RunLinesConcat(o, s, ItemLines(prog[0]), Lines(prog[1..]));
      var s1 := RunLines(o, s, ItemLines(prog[0]));
      if s1.core.hung {
        HungForGood(o, s1, Lines(prog[1..]));
        HungEval(o, s1.core, prog[1..]);
      } else {
        MeaningPreserved(o, s1, prog[1..]);
      }
    }
  }

  // ---- only structured programs get through -------------------------------------------

  /** No hang and no further syntax error. */
  predicate Clean<E>(s: Shell<E>, s1: Shell<E>) { !s1.core.hung && s1.ctl.errors == s.ctl.errors }

  lemma {:induction false} ErrorsGrow<E>(o: Oracle<E>, s: Shell<E>, args: Words)
    ensures Process(o, s, args).0.ctl.errors >= s.ctl.errors
    decreases |args|
  {
    if args != [] && args[0] == "if" {
      ErrorsGrow(o, s, args[1..]);
    }
  }

  /** If a run is clean then so is its first step and the run from there. */
  lemma {:induction false} CleanSplits<E>(o: Oracle<E>, s: Shell<E>, lines: seq<Words>)
    requires lines != [] && !RunLines(o, s, lines).core.hung
    ensures !s.core.hung && !Process(o, s, lines[0]).0.core.hung
    ensures s.ctl.errors <= Process(o, s, lines[0]).0.ctl.errors <= RunLines(o, s, lines).ctl.errors
    decreases |lines|
  {
    var s1 := Process(o, s, lines[0]).0;
    ErrorsGrow(o, s, lines[0]);
    if s1.core.hung {
      HungForGood(o, s1, lines[1..]);
    } else if |lines| > 1 {
      CleanSplits(o, s1, lines[1..]);
    }
    if s.core.hung {
      HungForGood(o, s, lines);
    }
  }

  /** An if line that reports no error is some number of ifs and a plain condition. */
  lemma {:induction false} ParseIfLine<E>(o: Oracle<E>, s: Shell<E>, line: Words) returns (extraIfs: nat, cond: Words)
    requires s.ctl.ifState == NEUTRAL && !s.core.hung && line != [] && line[0] == "if"
    requires Clean(s, Process(o, s, line).0)
    ensures IsPlain(cond) && line == IfLine(extraIfs, cond)
    decreases |line|
  {
    cond := line[1..];
    assert line == ["if"] + cond;
    assert Process(o, s, line) == ControlCommand(o, s, line);
    if IsPlain(cond) {
      extraIfs := 0;
    } else {
      assert Process(o, s, cond) == ControlCommand(o, s, cond);
      var k;
      k, cond := ParseIfLine(o, s, cond);
      extraIfs := k + 1;
    }
  }

  /** From the if line on: blank lines, then a then line. */
  lemma {:induction false} ParseThen<E>(o: Oracle<E>, s: Shell<E>, lines: seq<Words>)
      returns (blanks: nat, thenWords: Words, rest: seq<Words>, s1: Shell<E>)
    requires s.ctl.ifState == WANT_THEN
    requires Clean(s, RunLines(o, s, lines)) && RunLines(o, s, lines).ctl.ifState == NEUTRAL
    ensures lines == Blanks(blanks) + ([["then"] + thenWords] + rest)
    ensures s1.ctl.ifState == THEN_BLOCK && s1.ctl.errors == s.ctl.errors
    ensures RunLines(o, s, lines) == RunLines(o, s1, rest)
    decreases |lines|
  {
    CleanSplits(o, s, lines);
    var line := lines[0];
    assert lines == [line] + lines[1..];
    if line == [] {
      var k;
      k, thenWords, rest, s1 := ParseThen(o, s, lines[1..]);
      blanks := k + 1;
      assert Blanks(blanks) == [[]] + Blanks(k);
    } else {
      assert line[0] == "then";
      blanks, thenWords, rest, s1 := 0, line[1..], lines[1..], Process(o, s, line).0;
      assert line == ["then"] + thenWords;
    }
  }

  /** Inside a block: plain lines, then a fi line. */
  lemma {:induction false} ParseBody<E>(o: Oracle<E>, s: Shell<E>, lines: seq<Words>)
      returns (body: seq<Words>, fiWords: Words, rest: seq<Words>, s1: Shell<E>)
    requires s.ctl.ifState == THEN_BLOCK
    requires Clean(s, RunLines(o, s, lines)) && RunLines(o, s, lines).ctl.ifState == NEUTRAL
    ensures lines == body + ([["fi"] + fiWords] + rest) && forall i :: 0 <= i < |body| ==> IsPlain(body[i])
    ensures s1.ctl.ifState == NEUTRAL && s1.ctl.errors == s.ctl.errors && RunLines(o, s, lines) == RunLines(o, s1, rest)
    decreases |lines|
  {
    CleanSplits(o, s, lines);
    var line := lines[0];
    assert lines == [line] + lines[1..];
    if IsPlain(line) {
      var more;
      more, fiWords, rest, s1 := ParseBody(o, Process(o, s, line).0, lines[1..]);
      body := [line] + more;
    } else {
      assert line[0] == "fi";
      body, fiWords, rest, s1 := [], line[1..], lines[1..], Process(o, s, line).0;
      assert line == ["fi"] + fiWords;
    }
  }

  /** Lines that get through without a syntax error and end in NEUTRAL are those of some program. */
  lemma {:induction false} CleanLinesAreStructured<E>(o: Oracle<E>, s: Shell<E>, lines: seq<Words>)
      returns (prog: seq<Item>)
    requires s.ctl.ifState == NEUTRAL
    requires Clean(s, RunLines(o, s, lines)) && RunLines(o, s, lines).ctl.ifState == NEUTRAL
    ensures IsProgram(prog) && lines == Lines(prog)
    decreases |lines|
  {
    if lines == [] {
      prog := [];
    } else {
      CleanSplits(o, s, lines);
      var item, rest, s1 := ParseItem(o, s, lines);
      var more := CleanLinesAreStructured(o, s1, rest);
      prog := [item] + more;
      assert prog[1..] == more;
    }
  }

  lemma Regroup(a: seq<Words>, b: seq<Words>, c: seq<Words>, d: seq<Words>, e: seq<Words>, rest: seq<Words>)
    ensures (a + (b + (c + (d + e)))) + rest == a + (b + (c + (d + (e + rest))))
  {
  }

  lemma ParseItem<E>(o: Oracle<E>, s: Shell<E>, lines: seq<Words>) returns (item: Item, rest: seq<Words>, s1: Shell<E>)
    requires s.ctl.ifState == NEUTRAL && lines != []
    requires Clean(s, RunLines(o, s, lines)) && RunLines(o, s, lines).ctl.ifState == NEUTRAL
    ensures WellFormed(item) && lines == ItemLines(item) + rest && |rest| < |lines|
    ensures s1.ctl.ifState == NEUTRAL && s1.ctl.errors == s.ctl.errors && RunLines(o, s, lines) == RunLines(o, s1, rest)
  {
    CleanSplits(o, s, lines);
    var line, tail := lines[0], lines[1..];
    assert lines == [line] + tail;
    s1 := Process(o, s, line).0;
    if IsPlain(line) {
      item, rest := Simple(line), tail;
    } else {
      assert line[0] == "if";
      var extraIfs, cond := ParseIfLine(o, s, line);
      ProcessIfLine(o, s, extraIfs, cond);
      var blanks, thenWords, afterThen, s2 := ParseThen(o, s1, tail);
      var body, fiWords, afterFi, s3 := ParseBody(o, s2, afterThen);
      item, rest, s1 := Block(extraIfs, cond, blanks, thenWords, body, fiWords), afterFi, s3;
      Regroup([line], Blanks(blanks), [["then"] + thenWords], body, [["fi"] + fiWords], rest);
    }
  }

  /** The automaton accepts exactly the lines of structured programs: for lines whose commands do not
      hang, no syntax error and NEUTRAL at the end if and only if they are some program's lines. */
  lemma AcceptsExactlyPrograms<E>(o: Oracle<E>, s: Shell<E>, lines: seq<Words>)
    requires s.ctl.ifState == NEUTRAL && !RunLines(o, s, lines).core.hung
    ensures RunLines(o, s, lines).ctl.errors == s.ctl.errors && RunLines(o, s, lines).ctl.ifState == NEUTRAL
       <==> exists prog :: IsProgram(prog) && lines == Lines(prog)
  {
    if s.core.hung {
      HungForGood(o, s, lines);
    }
    if RunLines(o, s, lines).ctl.errors == s.ctl.errors && RunLines(o, s, lines).ctl.ifState == NEUTRAL {
      var prog := CleanLinesAreStructured(o, s, lines);
    }
    if prog :| IsProgram(prog) && lines == Lines(prog) {
      MeaningPreserved(o, s, prog);
    }
  }

  // ---- what errors leave behind -------------------------------------------------------

  /** Outside an if line met in NEUTRAL: a line is an error exactly where it does not belong, and then it
      is counted once, executes nothing, and puts the automaton back into NEUTRAL.  A misplaced control word
      gives -1, one in its place 0. */
  lemma ErrorsResynchronize<E>(o: Oracle<E>, s: Shell<E>, line: Words)
    requires !s.core.hung && line != [] && (line[0] == "if" ==> s.ctl.ifState != NEUTRAL)
    ensures var (s1, rv) := Process(o, s, line);
            var misplaced := match line[0]
              case "if" => true
              case "then" => s.ctl.ifState != WANT_THEN
              case "fi" => s.ctl.ifState != THEN_BLOCK
              case _ => s.ctl.ifState == WANT_THEN;
            && (s1.ctl.errors != s.ctl.errors <==> misplaced)
            && (misplaced ==> s1.core == s.core && s1.ctl.ifState == NEUTRAL && s1.ctl.errors == s.ctl.errors + 1)
            && (line[0] in ["if", "then", "fi"] ==> rv == if misplaced then -1 else 0)
  {
    if IsPlain(line) {
      assert line[0] != "if" && line[0] != "then" && line[0] != "fi";
    } else {
      assert Process(o, s, line) == ControlCommand(o, s, line);
    }
  }

  /** So after such an error the shell is as good as new: a program that follows has its meaning. */
  lemma ProgramAfterError<E>(o: Oracle<E>, s: Shell<E>, line: Words, prog: seq<Item>)
    requires !s.core.hung && line != [] && (line[0] == "if" ==> s.ctl.ifState != NEUTRAL)
    requires Process(o, s, line).0.ctl.errors != s.ctl.errors && IsProgram(prog)
    ensures var s1 := RunLines(o, s, [line] + Lines(prog));
            && s1.core == Eval(o, s.core, prog)
            && (!s1.core.hung ==> s1.ctl.ifState == NEUTRAL && s1.ctl.errors == s.ctl.errors + 1)
  {
    ErrorsResynchronize(o, s, line);
    RunLinesConcat(o, s, [line], Lines(prog));
    RunOne(o, s, line);
    MeaningPreserved(o, Process(o, s, line).0, prog);
  }

  /** An error inside an if line, as in "if then", is the one that does not lead back to NEUTRAL: nothing
      is executed, but the line counts as a condition, which failed, or succeeded if `if` is repeated. */
  lemma {:induction false} ErrorInCondition<E>(o: Oracle<E>, s: Shell<E>, extraIfs: nat, cond: Words)
    requires !s.core.hung && s.ctl.ifState == NEUTRAL && cond != [] && (cond[0] == "then" || cond[0] == "fi")
    ensures Process(o, s, IfLine(extraIfs, cond)) ==
            (s.(ctl := Control(WANT_THEN, extraIfs > 0, if extraIfs > 0 then 0 else -1, s.ctl.errors + 1)), 0)
  {
    var line := IfLine(extraIfs, cond);
    if extraIfs == 0 {
      assert line[1..] == cond;
      assert Process(o, s, cond) == ControlCommand(o, s, cond) == (s.(ctl := SyntaxError(s.ctl)), -1);
    } else {
      assert line[1..] == IfLine(extraIfs - 1, cond);
      ErrorInCondition(o, s, extraIfs - 1, cond);
    }
    assert Process(o, s, line) == ControlCommand(o, s, line);
  }

  /** The block behind such a line is therefore skipped, or executed if `if` is repeated. */
  lemma BlockAfterErrorInCondition<E>(o: Oracle<E>, s: Shell<E>, extraIfs: nat, cond: Words, blanks: nat,
                                      thenWords: Words, body: seq<Words>, fiWords: Words)
    requires !s.core.hung && s.ctl.ifState == NEUTRAL && cond != [] && (cond[0] == "then" || cond[0] == "fi")
    requires forall i :: 0 <= i < |body| ==> IsPlain(body[i])
    ensures var s1 := RunLines(o, s, ItemLines(Block(extraIfs, cond, blanks, thenWords, body, fiWords)));
            && s1.core == (if extraIfs > 0 then RunBody(o, s.core, body) else s.core)
            && (!s1.core.hung ==> s1.ctl.ifState == NEUTRAL && s1.ctl.errors == s.ctl.errors + 1)
  {
    var line := IfLine(extraIfs, cond);
    var rest := Blanks(blanks) + ([["then"] + thenWords] + (body + [["fi"] + fiWords]));
    RunLinesConcat(o, s, [line], rest);
    RunOne(o, s, line);
    ErrorInCondition(o, s, extraIfs, cond);
    RunThenPart(o, Process(o, s, line).0, blanks, thenWords, body, fiWords);
  }
}
