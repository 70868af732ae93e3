/**
 What the shell does with one simple command: the built-ins in front of the variable table, and
 execution of everything else.  Programs are an oracle: from the outside world, the arguments and
 the environment array it computes a status and a new world.
 */
module Commands {
  import opened Characters
  import opened Wrappers
  import opened VarTable

  type Oracle<!E> = (E, seq<string>, seq<string>) -> (int, E)

  /** The history of what was executed: a program run with its environment and status, an assignment
      that reached the table, a name marked for export. */
  datatype Event =
    | Ran(args: seq<string>, environ: seq<string>, status: int)
    | Stored(name: string, val: string)
    | Marked(name: string)

  /** `hung`: the shell is inside a VLexport that never returns. */
  datatype Core<E> = Core(vars: Table, world: E, trace: seq<Event>, hung: bool)

  predicate IsNameChar(c: char) { IsAlnum(c) || c == '_' }

  /** okname. */
  predicate OkName(s: string) {
    s != "" && !IsDigit(s[0]) && forall i :: 0 <= i < |s| ==> IsNameChar(s[i])
  }

  method CheckName(s: string) returns (ok: bool)
    ensures ok <==> OkName(s)
  {
    var cp := 0;
    while cp < |s|
      invariant cp <= |s| && (cp > 0 ==> !IsDigit(s[0])) && forall i :: 0 <= i < cp ==> IsNameChar(s[i])
    {
      if (IsDigit(s[cp]) && cp == 0) || !IsNameChar(s[cp]) {
        return false;
      }
      cp := cp + 1;
    }
    return cp != 0;
  }

  lemma OkNameHasNoEq(s: string)
    requires OkName(s)
    ensures NoEq(s)
  {
  }

  /** assign: name=value with a legal name is stored; -1 stands for an illegal name. */
  function Assign<E>(core: Core<E>, word: string): (Core<E>, int)
    requires FirstEq(word) < |word|
  {
    var name, val := word[..FirstEq(word)], word[FirstEq(word) + 1..];
    if !OkName(name) then (core, -1)
    else
      var (vars, status) := Store(core.vars, name, val);
      if status == 0 then (core.(vars := vars, trace := core.trace + [Stored(name, val)]), 0)
      else (core, status)
  }

  function ExportCommand<E>(core: Core<E>, args: seq<string>): (Core<E>, int) {
    if |args| < 2 || !OkName(args[1]) then (core, 1)
    else if !ExportReturns(core.vars, args[1]) then (core.(hung := true), 0)
    else
      var (vars, status) := Export(core.vars, args[1]);
      var event := if status == 0 then Marked(args[1]) else Stored(args[1], "");
      (core.(vars := vars, trace := core.trace + [event]), status)
  }

  function Execute<E>(o: Oracle<E>, core: Core<E>, args: seq<string>): (Core<E>, int) {
    var env := Environ(core.vars);
    var (status, world) := o(core.world, args, env);
    (core.(world := world, trace := core.trace + [Ran(args, env, status)]), status)
  }

  /** A command that is not a control word; an assignment to an illegal name is executed as a program. */
  function RunCommand<E>(o: Oracle<E>, core: Core<E>, args: seq<string>): (Core<E>, int) {
    if core.hung || args == [] then (core, 0)
    else if args[0] == "set" then (core, 0)
    else if FirstEq(args[0]) < |args[0]| then
      var (after, status) := Assign(core, args[0]);
      if status != -1 then (after, status) else Execute(o, core, args)
    else if args[0] == "export" then ExportCommand(core, args)
    else Execute(o, core, args)
  }

  // ---- what the commands mean ---------------------------------------------------------

  predicate IsNamed(c: char) {
    c in "0123456789" || c in "ABCDEFGHIJKLMNOPQRSTUVWXYZ" || c in "abcdefghijklmnopqrstuvwxyz" || c == '_'
  }

  /** A legal name is a non-empty string of letters, digits and underscores that begins with no digit. */
  lemma LegalNamesAre(s: string)
    ensures OkName(s) <==> s != "" && s[0] !in "0123456789" && forall i :: 0 <= i < |s| ==> IsNamed(s[i])
  {
    if s != "" {
      CharactersAre(s[0]);
    }
    forall i | 0 <= i < |s| ensures IsNamed(s[i]) <==> IsNameChar(s[i]) {
      CharactersAre(s[i]);
    }
  }

  lemma FirstEqOf(n: string, v: string)
    requires NoEq(n)
    ensures var word := n + "=" + v; FirstEq(word) == |n| && word[..|n|] == n && word[|n| + 1..] == v
  {
    var word := n + "=" + v;
    assert word[|n|] == '=';
    assert forall i :: 0 <= i < |n| ==> word[i] == n[i];
  }

  /** The command runs as a program: with exactly these words, in the environment the table gives, and
      with the oracle's status and world. */
  ghost predicate RanAsProgram<E>(o: Oracle<E>, core: Core<E>, args: seq<string>, after: Core<E>, status: int) {
    && (status, after.world) == o(core.world, args, Environ(core.vars))
    && after.trace == core.trace + [Ran(args, Environ(core.vars), status)]
    && after.vars == core.vars && !after.hung
  }

  /** name=value with a legal name: while the name is present or the table has room, exactly that
      assignment is recorded, the value reads back with one space in front, no other name changes, the
      command succeeds and nothing is run; otherwise it fails with 1 and changes nothing.  Further words
      are ignored. */
  lemma AssignmentMeans<E>(o: Oracle<E>, core: Core<E>, n: string, v: string, more: seq<string>)
    requires OkName(n) && !core.hung
    ensures var (after, status) := RunCommand(o, core, [n + "=" + v] + more);
            if Present(core.vars, n) || |core.vars| < 200 then
              && status == 0 && Value(after.vars, n) == Some(" " + v)
              && after.trace == core.trace + [Stored(n, v)] && after.world == core.world && !after.hung
              && forall m :: NoEq(m) ==> (m != n ==> Value(after.vars, m) == Value(core.vars, m))
                                         && (Exported(after.vars, m) <==> Exported(core.vars, m))
            else status == 1 && after == core
  {
    OkNameHasNoEq(n);
    FirstEqOf(n, v);
    assert ([n + "=" + v] + more)[0] == n + "=" + v != "set" by { assert (n + "=" + v)[|n|] == '='; }
    StoreIsUpdate(core.vars, n, v, n);
    forall m | NoEq(m)
      ensures var u := Store(core.vars, n, v).0;
              Present(core.vars, n) || |core.vars| < 200 ==>
                (m != n ==> Value(u, m) == Value(core.vars, m)) && (Exported(u, m) <==> Exported(core.vars, m))
    {
      StoreIsUpdate(core.vars, n, v, m);
    }
  }

  /** A first word with '=' behind an illegal name, and every word that is no built-in, is a program. */
  lemma ProgramMeans<E>(o: Oracle<E>, core: Core<E>, args: seq<string>)
    requires args != [] && !core.hung
    requires if FirstEq(args[0]) < |args[0]| then !OkName(args[0][..FirstEq(args[0])])
             else args[0] != "set" && args[0] != "export"
    ensures var (after, status) := RunCommand(o, core, args); RanAsProgram(o, core, args, after, status)
  {
    assert FirstEq("set") == 3;
  }

  /** `set` succeeds and `export` without a legal name fails, neither with any other effect. */
  lemma QuietBuiltins<E>(o: Oracle<E>, core: Core<E>, args: seq<string>)
    requires args != []
    ensures args[0] == "set" ==> RunCommand(o, core, args) == (core, 0)
    ensures args[0] == "export" && !core.hung && (|args| < 2 || !OkName(args[1])) ==>
              RunCommand(o, core, args) == (core, 1)
    ensures RunCommand(o, core, []) == (core, 0)
  {
    assert FirstEq("export") == 6 && "export" != "set";
  }

  /** `export` of a legal name: a present one is marked, with success, and nothing else changes; an absent
      one is assigned the empty value, unmarked, with failure; in a full table the shell hangs. */
  lemma ExportMeans<E>(o: Oracle<E>, core: Core<E>, n: string, more: seq<string>)
    requires OkName(n) && !core.hung
    ensures var (after, status) := RunCommand(o, core, ["export", n] + more);
            && after.world == core.world
            && (forall m :: NoEq(m) && m != n ==> Value(after.vars, m) == Value(core.vars, m)
                                                  && (Exported(after.vars, m) <==> Exported(core.vars, m)))
            && if Present(core.vars, n) then
                 && status == 0 && !after.hung && after.trace == core.trace + [Marked(n)]
                 && Value(after.vars, n) == Value(core.vars, n) && Exported(after.vars, n)
               else if |core.vars| < 200 then
                 && status == 1 && !after.hung && after.trace == core.trace + [Stored(n, "")]
                 && Value(after.vars, n) == Some(" ") && !Exported(after.vars, n)
               else after == core.(hung := true)
  {
    OkNameHasNoEq(n);
    var args := ["export", n] + more;
    assert FirstEq("export") == 6 && "export" != "set" && args[0] == "export" && args[1] == n;
    if ExportReturns(core.vars, n) {
      ExportIsMark(core.vars, n, n);
      forall m | NoEq(m) && m != n
        ensures var u := Export(core.vars, n).0;
                Value(u, m) == Value(core.vars, m) && (Exported(u, m) <==> Exported(core.vars, m))
      {
        ExportIsMark(core.vars, n, m);
      }
    }
  }
}
