/**
 The small shell as it runs: the main loop reads a line, splits it and processes it, with the
 automaton's statics, the variable table and the outside world as state.  A program printed as text
 and read back does what the structured evaluator says.
 */
module SmallShell {
  import VarTable
  import opened Commands
  import opened ControlFlow
  import Environment
  import LineReader

  // ---- whole scripts ------------------------------------------------------------------

  /** The main loop from position i of the input on. */
  function RunText<E>(o: Oracle<E>, s: Shell<E>, input: string, i: nat): Shell<E>
    requires i <= |input|
    decreases |input| - i
  {
    if i == |input| then s
    else
      var line := input[i..LineReader.LineEnd(input, i)];
      RunText(o, Process(o, s, LineReader.WordsFrom(line, 0)).0, input, LineReader.AfterLine(input, i))
  }

  function SplitAll(lines: seq<string>): (ws: seq<Words>)
    ensures |ws| == |lines|
    ensures forall k :: 0 <= k < |lines| ==> ws[k] == LineReader.WordsFrom(lines[k], 0)
  {
    seq(|lines|, k requires 0 <= k < |lines| => LineReader.WordsFrom(lines[k], 0))
  }

  lemma {:induction false} RunTextIsRunLines<E>(o: Oracle<E>, s: Shell<E>, input: string, i: nat)
    requires i <= |input|
    ensures RunText(o, s, input, i) == RunLines(o, s, SplitAll(LineReader.LinesFrom(input, i)))
    decreases |input| - i
  {
    if i < |input| {
      var line, next := input[i..LineReader.LineEnd(input, i)], LineReader.AfterLine(input, i);
      var words := LineReader.WordsFrom(line, 0);
      RunTextIsRunLines(o, Process(o, s, words).0, input, next);
      var more := LineReader.LinesFrom(input, next);
      assert SplitAll([line] + more) == [words] + SplitAll(more);
    }
  }

  /** Each text line consists of the words of the program's line, with any non-empty blanks between
      them and any blanks around them. */
  ghost predicate IsTextOf(text: seq<string>, lines: seq<Words>) {
    |text| == |lines| &&
    forall k :: 0 <= k < |text| ==>
      LineReader.NoNewline(text[k]) && exists starts :: LineReader.LaidOut(text[k], 0, lines[k], starts)
  }

  /** From the text of a script to its effect: however the program's words are laid out on its lines,
      the shell's main loop does what the structured evaluator says. */
  lemma ScriptsKeepTheirMeaning<E>(o: Oracle<E>, s: Shell<E>, prog: seq<Item>, text: seq<string>)
    requires s.ctl.ifState == NEUTRAL && !s.core.hung && IsProgram(prog) && IsTextOf(text, Lines(prog))
    ensures var s1 := RunText(o, s, LineReader.Unlines(text), 0);
            && s1.core == Eval(o, s.core, prog)
            && (!s1.core.hung ==> s1.ctl.ifState == NEUTRAL && s1.ctl.errors == s.ctl.errors)
  {
    RunTextIsRunLines(o, s, LineReader.Unlines(text), 0);
    LineReader.LinesOfUnlines("", text);
    assert "" + LineReader.Unlines(text) == LineReader.Unlines(text);
    forall k | 0 <= k < |text| ensures LineReader.WordsFrom(text[k], 0) == Lines(prog)[k] {
      LineReader.SplitsIff(text[k], Lines(prog)[k]);
    }
    assert SplitAll(text) == Lines(prog);
    MeaningPreserved(o, s, prog);
  }

  /** From a new shell: whatever the startup environment, the program and its layout, the script does
      what the structured evaluator says from the loaded table on, and ends without a syntax error. */
  lemma ScriptsOfANewShell<E>(o: Oracle<E>, startup: seq<string>, world: E, prog: seq<Item>, text: seq<string>)
    requires IsProgram(prog) && IsTextOf(text, Lines(prog))
    ensures var s1 := RunText(o, Environment.Start(startup, world), LineReader.Unlines(text), 0);
            && s1.core == Eval(o, Core(VarTable.Load(startup), world, [], false), prog)
            && (!s1.core.hung ==> s1.ctl.ifState == NEUTRAL && s1.ctl.errors == 0)
  {
    ScriptsKeepTheirMeaning(o, Environment.Start(startup, world), prog, text);
  }

  // ---- the shell in place -------------------------------------------------------------

  class SmallShell<E> {
    const exec: Oracle<E>
    const vars: VarTable.Tab
    var ifState: IfState
    var success: bool
    var lastStat: int
    var world: E
    ghost var errors: nat
    ghost var trace: seq<Event>

    ghost predicate Valid()
      reads this, vars, vars.tab
    {
      vars.Valid()
    }

    ghost function Model(): Shell<E>
      requires Valid()
      reads this, vars, vars.tab
    {
      Shell(Control(ifState, success, lastStat, errors), Core(vars.Contents(), world, trace, false))
    }

    /** setup: the table is loaded from the startup environment. */
    constructor (exec: Oracle<E>, world: E, environ: seq<string>)
      ensures Valid() && fresh(vars) && fresh(vars.tab)
      ensures this.exec == exec
      ensures Model() == Environment.Start(environ, world)
      ensures ifState == NEUTRAL && vars.Contents() == VarTable.Load(environ) && this.world == world && trace == []
    {
      this.exec, this.world := exec, world;
      ifState, success, lastStat := NEUTRAL, true, 0;
      errors, trace := 0, [];
      vars := new VarTable.Tab();
      new;
      var _ := vars.VLenviron2table(environ);
    }

    method SynErr() returns (rv: int)
      requires Valid()
      modifies this
      ensures Valid() && rv == -1 && vars.Contents() == old(vars.Contents())
      ensures Model() == old(Model()).(ctl := SyntaxError(old(Model()).ctl))
    {
      ifState := NEUTRAL;
      errors := errors + 1;
      rv := -1;
    }

    method OkToExecute() returns (ok: bool)
      requires Valid()
      modifies this
      ensures Valid()
      ensures ok == (old(ifState) == NEUTRAL || (old(ifState) == THEN_BLOCK && success))
      ensures Model() == if old(ifState) == WANT_THEN then old(Model()).(ctl := SyntaxError(old(Model()).ctl))
                         else old(Model())
    {
      ok := true;
      if ifState == WANT_THEN {
        var _ := SynErr();
        ok := false;
      } else if ifState == THEN_BLOCK && success {
        ok := true;
      } else if ifState == THEN_BLOCK && !success {
        ok := false;
      }
    }

    method AssignWord(str: string) returns (rv: int)
      requires Valid() && VarTable.FirstEq(str) < |str|
      modifies this, vars, vars.tab
      ensures Valid() && Model().ctl == old(Model()).ctl
      ensures (Model().core, rv) == Assign(old(Model()).core, str)
    {
      var eq := VarTable.FirstEq(str);
      var ok := CheckName(str[..eq]);
      if !ok {
        return -1;
      }
      rv := vars.VLstore(str[..eq], str[eq + 1..]);
      if rv == 0 {
        trace := trace + [Stored(str[..eq], str[eq + 1..])];
      }
    }

    method ExportWord(args: Words) returns (rv: int)
      requires Valid() && !ExportCommand(Model().core, args).0.hung
      modifies this, vars, vars.tab
      ensures Valid() && Model().ctl == old(Model()).ctl
      ensures (Model().core, rv) == ExportCommand(old(Model()).core, args)
    {
      if |args| < 2 {
        return 1;
      }
      var ok := CheckName(args[1]);
      if !ok {
        return 1;
      }
      rv := vars.VLexport(args[1]);
      trace := trace + [if rv == 0 then Marked(args[1]) else Stored(args[1], "")];
    }

    method ExecuteProgram(args: Words) returns (status: int)
      requires Valid()
      modifies this
      ensures Valid() && vars.Contents() == old(vars.Contents())
      ensures Model().ctl == old(Model()).ctl
      ensures (Model().core, status) == Execute(exec, old(Model()).core, args)
    {
      var env := vars.EnvironStrings();
      var result := exec(world, args, env);
      status, world := result.0, result.1;
      trace := trace + [Ran(args, env, status)];
    }

    /** The dispatcher's last branch: built-ins first, then programs. */
    method RunPlain(args: Words) returns (rv: int)
      requires Valid() && args != [] && !RunCommand(exec, Model().core, args).0.hung
      modifies this, vars, vars.tab
      ensures Valid() && Model().ctl == old(Model()).ctl
      ensures (Model().core, rv) == RunCommand(exec, old(Model()).core, args)
    {
      if args[0] == "set" {
        return 0;
      } else if VarTable.FirstEq(args[0]) < |args[0]| {
        rv := AssignWord(args[0]);
        if rv != -1 {
          return;
        }
      } else if args[0] == "export" {
        rv := ExportWord(args);
        return;
      }
      rv := ExecuteProgram(args);
    }

    /** process. */
    method ProcessLine(args: Words) returns (rv: int)
      requires Valid() && !Process(exec, Model(), args).0.core.hung
      modifies this, vars, vars.tab
      ensures Valid() && (Model(), rv) == Process(exec, old(Model()), args)
      decreases |args|, 1
    {
      rv := 0;
      if args != [] {
        if IsControl(args[0]) {
          rv := DoControlCommand(args);
        } else {
          var ok := OkToExecute();
          if ok {
            rv := RunPlain(args);
          }
        }
      }
    }

    method DoControlCommand(args: Words) returns (rv: int)
      requires Valid() && args != [] && IsControl(args[0]) && !ControlCommand(exec, Model(), args).0.core.hung
      modifies this, vars, vars.tab
      ensures Valid() && (Model(), rv) == ControlCommand(exec, old(Model()), args)
      decreases |args|, 0
    {
      rv := 0;
      if args[0] == "if" {
        if ifState != NEUTRAL {
          rv := SynErr();
        } else {
          lastStat := ProcessLine(args[1..]);
          success := lastStat == 0;
          ifState := WANT_THEN;
        }
      } else if args[0] == "then" {
        if ifState != WANT_THEN {
          rv := SynErr();
        } else {
          ifState := THEN_BLOCK;
        }
      } else if ifState != THEN_BLOCK {
        rv := SynErr();
      } else {
        ifState := NEUTRAL;
      }
    }

    /** main: until next_cmd returns NULL. */
    method RunScript(input: string)
      requires Valid() && !RunText(exec, Model(), input, 0).core.hung
      modifies this, vars, vars.tab
      ensures Valid() && Model() == RunText(exec, old(Model()), input, 0)
    {
      var pos := 0;
      while pos < |input|
        invariant pos <= |input| && Valid()
        invariant RunText(exec, Model(), input, pos) == RunText(exec, old(Model()), input, 0)
      {
        var line, next := LineReader.NextCmd(input, pos);
        var args, argnum := LineReader.Splitline(line.value);
        var words := seq(argnum, k requires 0 <= k < argnum && argnum < args.Length && args[k].Some? reads args =>
          args[k].value);
        assert words == LineReader.WordsFrom(line.value, 0);
        HungNow(exec, Model(), words, input, next);
        var _ := ProcessLine(words);
        pos := next;
      }
    }
  }

  lemma HungNow<E>(o: Oracle<E>, s: Shell<E>, args: Words, input: string, next: nat)
    requires next <= |input| && !RunText(o, Process(o, s, args).0, input, next).core.hung
    ensures !Process(o, s, args).0.core.hung
  {
    RunTextIsRunLines(o, Process(o, s, args).0, input, next);
    if Process(o, s, args).0.core.hung {
      HungForGood(o, Process(o, s, args).0, SplitAll(LineReader.LinesFrom(input, next)));
    }
  }
}
