/**
 The shell's variable table: an array of "name=value" strings with an export flag each, standing for
 a map from names to values.  A blank entry ends the part in use.  Storing prints "name= value", so
 a stored value reads back with one leading space.
 */
module VarTable {
  import opened Wrappers

  const MAXVARS: nat := 200

  datatype Entry = Entry(str: string, global: bool)

  /** The entries in use, in order. */
  type Table = seq<Entry>

  // ---- names --------------------------------------------------------------------------

  /** The index of the first '=', or the length. */
  function FirstEq(s: string): (k: nat)
    ensures k <= |s| && (forall i :: 0 <= i < k ==> s[i] != '=') && (k < |s| ==> s[k] == '=')
  {
    if s == [] || s[0] == '=' then 0 else 1 + FirstEq(s[1..])
  }

  predicate NoEq(s: string) { forall i :: 0 <= i < |s| ==> s[i] != '=' }

  /** find_item's test: strncmp on the name's length, then '='. */
  predicate Matches(s: string, name: string) {
    |name| < |s| && s[..|name|] == name && s[|name|] == '='
  }

  /** A string matches exactly the name in front of its first '='. */
  lemma MatchesIff(s: string, name: string)
    requires NoEq(name)
    ensures Matches(s, name) <==> FirstEq(s) < |s| && name == s[..FirstEq(s)]
  {
    if Matches(s, name) {
      assert forall i :: 0 <= i < |name| ==> s[i] == s[..|name|][i];
    }
  }

  /** new_string. */
  function NewString(name: string, val: string): string { name + "= " + val }

  lemma NewStringMatches(name: string, val: string, other: string)
    requires NoEq(name) && NoEq(other)
    ensures Matches(NewString(name, val), other) <==> name == other
    ensures NewString(name, val)[|name| + 1..] == " " + val
  {
    var s := NewString(name, val);
    assert s[..|name|] == name && s[|name|] == '=';
    MatchesIff(s, name);
    MatchesIff(s, other);
  }

  // ---- the operations as functions ----------------------------------------------------

  /** The index of the first entry from i on that matches, or the table's length. */
  function FindFrom(t: Table, name: string, i: nat): (r: nat)
    requires i <= |t|
    ensures i <= r <= |t| && (forall j :: i <= j < r ==> !Matches(t[j].str, name))
    ensures r < |t| ==> Matches(t[r].str, name)
    decreases |t| - i
  {
    if i == |t| || Matches(t[i].str, name) then i else FindFrom(t, name, i + 1)
  }

  function Find(t: Table, name: string): (r: nat)
    ensures r <= |t| && (forall j :: 0 <= j < r ==> !Matches(t[j].str, name))
    ensures r < |t| ==> Matches(t[r].str, name)
  {
    FindFrom(t, name, 0)
  }

  predicate Present(t: Table, name: string) { Find(t, name) < |t| }

  /** The new table and VLstore's status. */
  function Store(t: Table, name: string, val: string): (Table, int) {
    var i := Find(t, name);
    if i < |t| then (t[i := t[i].(str := NewString(name, val))], 0)
    else if |t| < MAXVARS then (t + [Entry(NewString(name, val), false)], 0)
    else (t, 1)
  }

  function Lookup(t: Table, name: string): string {
    var i := Find(t, name);
    if i < |t| then t[i].str[|name| + 1..] else ""
  }

  /** VLexport of an absent name in a full table calls itself for ever. */
  predicate ExportReturns(t: Table, name: string) { Present(t, name) || |t| < MAXVARS }

  /** An absent name is stored with an empty value, not marked, and reported as a failure. */
  function Export(t: Table, name: string): (Table, int)
    requires ExportReturns(t, name)
  {
    var i := Find(t, name);
    if i < |t| then (t[i := t[i].(global := true)], 0) else (Store(t, name, "").0, 1)
  }

  /** VLexport as it is written, given room for so many calls of itself; None when they do not suffice. */
  function ExportCalls(t: Table, name: string, calls: nat): Option<(Table, int)> {
    var i := Find(t, name);
    if calls == 0 then None
    else if i < |t| then Some((t[i := t[i].(global := true)], 0))
    else
      var (u, status) := Store(t, name, "");
      if status == 1 then ExportCalls(u, name, calls - 1) else Some((u, 1))
  }

  /** VLexport returns if and only if the name is present or the table has room, and then with the
      first call; otherwise each call finds the table as the one before did. */
  lemma ExportReturnsIff(t: Table, name: string)
    ensures (exists calls :: ExportCalls(t, name, calls).Some?) <==> ExportReturns(t, name)
    ensures forall calls :: calls > 0 && ExportReturns(t, name) ==> ExportCalls(t, name, calls) == Some(Export(t, name))
  {
    if ExportReturns(t, name) {
      assert ExportCalls(t, name, 1).Some?;
    } else {
      forall calls: nat ensures ExportCalls(t, name, calls) == None {
        ExportNeverReturns(t, name, calls);
      }
    }
  }

  lemma {:induction false} ExportNeverReturns(t: Table, name: string, calls: nat)
    requires !ExportReturns(t, name)
    ensures ExportCalls(t, name, calls) == None
  {
    if calls > 0 {
      ExportNeverReturns(t, name, calls - 1);
    }
  }

  /** The exported strings among the first k entries, in table order. */
  function EnvironUpTo(t: Table, k: nat): (env: seq<string>)
    requires k <= |t|
    ensures |env| <= k
  {
    if k == 0 then [] else EnvironUpTo(t, k - 1) + if t[k - 1].global then [t[k - 1].str] else []
  }

  function Environ(t: Table): seq<string> { EnvironUpTo(t, |t|) }

  /** VLenviron2table: at most MAXVARS strings, all exported. */
  function Load(env: seq<string>): (t: Table)
    ensures |t| <= MAXVARS
  {
    seq(if |env| <= MAXVARS then |env| else MAXVARS, i requires 0 <= i < |env| => Entry(env[i], true))
  }

  // ---- the table as a map -------------------------------------------------------------

  /** The map: a name's value is the text after its '=' in the first entry that has the name. */
  function Value(t: Table, name: string): Option<string> {
    if Present(t, name) then Some(Lookup(t, name)) else None
  }

  predicate Exported(t: Table, name: string) { Present(t, name) && t[Find(t, name)].global }

  /** No two entries have the same name. */
  predicate DistinctNames(t: Table) {
    forall i, j :: 0 <= i < j < |t| && FirstEq(t[i].str) < |t[i].str| && FirstEq(t[j].str) < |t[j].str|
      ==> t[i].str[..FirstEq(t[i].str)] != t[j].str[..FirstEq(t[j].str)]
  }

  lemma FindIs(t: Table, name: string, i: nat)
    requires i <= |t| && (forall j :: 0 <= j < i ==> !Matches(t[j].str, name)) && (i < |t| ==> Matches(t[i].str, name))
    ensures Find(t, name) == i
  {
  }

  /** VLstore is map update: it fails exactly for an absent name in a full table, and otherwise changes
      the one value, keeping all other values, all flags, and the order of the entries. */
  lemma StoreIsUpdate(t: Table, name: string, val: string, other: string)
    requires NoEq(name) && NoEq(other)
    ensures var (u, status) := Store(t, name, val);
            && status in {0, 1}
            && (status == 0 <==> Present(t, name) || |t| < 200)
            && (status != 0 ==> u == t)
            && (status == 0 ==> Value(u, other) == if other == name then Some(" " + val) else Value(t, other))
            && (Exported(u, other) <==> Exported(t, other))
            && |t| <= |u| && (forall i :: 0 <= i < |t| && i != Find(t, name) ==> u[i] == t[i])
  {
    var u := Store(t, name, val).0;
    NewStringMatches(name, val, other);
    var k, m := Find(t, other), Find(t, name);
    if other != name && m < |t| {
      MatchesIff(t[m].str, name);
      MatchesIff(t[m].str, other);
    }
    if m < |t| || |t| < MAXVARS {
      if other == name {
        FindIs(u, other, m);
      } else {
        FindIs(u, other, if k < |t| then k else |u|);
      }
    }
  }

  /** VLexport of a present name sets its flag and nothing else; of an absent one it stores an empty
      value, unmarked. */
  lemma ExportIsMark(t: Table, name: string, other: string)
    requires NoEq(name) && NoEq(other) && ExportReturns(t, name)
    ensures var (u, status) := Export(t, name);
            && (status == 0 <==> Present(t, name))
            && (status == 0 ==> Value(u, other) == Value(t, other)
                                && (Exported(u, other) <==> other == name || Exported(t, other)))
            && (status != 0 ==> Value(u, other) == (if other == name then Some(" ") else Value(t, other))
                                && (Exported(u, other) <==> Exported(t, other)))
  {
    var u, m := Export(t, name).0, Find(t, name);
    if m < |t| {
      FindIs(u, other, Find(t, other));
      MatchesIff(t[m].str, name);
      MatchesIff(t[m].str, other);
    } else {
      StoreIsUpdate(t, name, "", other);
      assert " " + "" == " ";
    }
  }

  /** VLlookup: the text behind the '=' of the first entry with the name, or nothing. */
  lemma LookupMeans(t: Table, name: string)
    ensures Present(t, name) ==> t[Find(t, name)].str == name + "=" + Lookup(t, name)
    ensures !Present(t, name) ==> Lookup(t, name) == ""
  {
    if Present(t, name) {
      var s := t[Find(t, name)].str;
      assert s == s[..|name|] + [s[|name|]] + s[|name| + 1..];
    }
  }

  lemma StoreKeepsDistinct(t: Table, name: string, val: string)
    requires NoEq(name) && DistinctNames(t)
    ensures DistinctNames(Store(t, name, val).0)
  {
    var m, s := Find(t, name), NewString(name, val);
    NewStringMatches(name, val, name);
    MatchesIff(s, name);
    if m < |t| {
      MatchesIff(t[m].str, name);
    } else {
      forall i | 0 <= i < |t| ensures FirstEq(t[i].str) < |t[i].str| ==> t[i].str[..FirstEq(t[i].str)] != name {
        MatchesIff(t[i].str, name);
      }
    }
  }

  /** Loading an environment and rebuilding it gives the same strings in the same order, as many of them
      as there are, up to 200. */
  lemma {:induction false} EnvironmentRoundTrip(env: seq<string>, k: nat)
    requires k <= |env| && k <= 200
    ensures |Load(env)| == if |env| <= 200 then |env| else 200
    ensures EnvironUpTo(Load(env), k) == env[..k]
    ensures k == |Load(env)| ==> Environ(Load(env)) == env[..k]
  {
    if k > 0 {
      EnvironmentRoundTrip(env, k - 1);
      assert env[..k] == env[..k - 1] + [env[k - 1]];
    }
  }

  // ---- the table in place -------------------------------------------------------------

  /** An array element; a NULL string is a blank entry. */
  datatype Var = Var(str: Option<string>, global: bool)

  class Tab {
    const tab: array<Var>
    ghost var used: nat

    /** The entries in use come first, and blank entries are not exported. */
    ghost predicate Valid()
      reads this, tab
    {
      && tab.Length == MAXVARS && used <= MAXVARS
      && (forall i :: 0 <= i < used ==> tab[i].str.Some?)
      && (forall i :: used <= i < MAXVARS ==> tab[i] == Var(None, false))
    }

    ghost function Contents(): (t: Table)
      requires Valid()
      reads this, tab
      ensures |t| == used && forall i :: 0 <= i < used ==> tab[i] == Var(Some(t[i].str), t[i].global)
    {
      seq(used, i requires 0 <= i < used && Valid() reads this, tab => Entry(tab[i].str.value, tab[i].global))
    }

    constructor ()
      ensures Valid() && fresh(tab) && Contents() == []
    {
      tab := new Var[MAXVARS](_ => Var(None, false));
      used := 0;
    }

    /** find_item: the index of the entry whose address the source returns. */
    method FindItem(name: string, firstBlank: bool) returns (r: Option<nat>)
      requires Valid()
      ensures var i := Find(Contents(), name);
              r == if i < used || (i < MAXVARS && firstBlank) then Some(i) else None
    {
      var i := 0;
      while i < MAXVARS && tab[i].str.Some?
        invariant i <= used
        invariant forall j :: 0 <= j < i ==> !Matches(Contents()[j].str, name)
      {
        if Matches(tab[i].str.value, name) {
          FindIs(Contents(), name, i);
          return Some(i);
        }
        i := i + 1;
      }
      FindIs(Contents(), name, i);
      if i < MAXVARS && firstBlank {
        return Some(i);
      }
      return None;
    }

    method VLstore(name: string, val: string) returns (rv: int)
      requires Valid()
      modifies this, tab
      ensures Valid() && (Contents(), rv) == Store(old(Contents()), name, val)
    {
      rv := 1;
      ghost var before := Contents();
      var item := FindItem(name, true);
      if item.Some? {
        tab[item.value] := Var(Some(NewString(name, val)), tab[item.value].global);
        if item.value == used {
          used := used + 1;
        }
        rv := 0;
        assert Contents() == Store(before, name, val).0;
      }
    }

    method VLlookup(name: string) returns (val: string)
      requires Valid()
      ensures val == Lookup(Contents(), name)
    {
      var item := FindItem(name, false);
      if item.Some? {
        return tab[item.value].str.value[1 + |name|..];
      }
      return "";
    }

    method VLexport(name: string) returns (rv: int)
      requires Valid() && ExportReturns(Contents(), name)
      modifies this, tab
      ensures Valid() && (Contents(), rv) == Export(old(Contents()), name)
    {
      rv := 1;
      ghost var before := Contents();
      var item := FindItem(name, false);
      if item.Some? {
        tab[item.value] := Var(tab[item.value].str, true);
        rv := 0;
        assert Contents() == Export(before, name).0;
      } else {
        var status := VLstore(name, "");
        if status == 1 {
          // The source calls itself here; only a full table leads here.
          assert false;
        }
      }
    }

    method VLenviron2table(env: seq<string>) returns (rv: int)
      modifies this, tab
      requires Valid()
      ensures Valid() && Contents() == Load(env) && rv == if |env| <= MAXVARS then 1 else 0
    {
      var i := 0;
      while i < |env| && i < MAXVARS
        invariant i <= |env| && i <= MAXVARS
        invariant forall j :: 0 <= j < i ==> tab[j] == Var(Some(env[j]), true)
      {
        tab[i] := Var(Some(env[i]), true);
        i := i + 1;
      }
      used := i;
      rv := if |env| > MAXVARS then 0 else 1;
      while i < MAXVARS
        invariant used <= i <= MAXVARS && used == |Load(env)|
        invariant forall j :: 0 <= j < used ==> tab[j] == Var(Some(env[j]), true)
        invariant forall j :: used <= j < i ==> tab[j] == Var(None, false)
      {
        tab[i] := Var(None, false);
        i := i + 1;
      }
      assert Contents() == Load(env);
    }

    /** The array for a child: a counting pass, then a filling pass that fits it exactly, NULL last. */
    method VLtable2environ() returns (envtab: array<Option<string>>)
      requires Valid()
      ensures fresh(envtab) && envtab.Length == |Environ(Contents())| + 1
      ensures forall k :: 0 <= k < |Environ(Contents())| ==> envtab[k] == Some(Environ(Contents())[k])
      ensures envtab[envtab.Length - 1] == None
    {
      ghost var t := Contents();
      var i, n := 0, 0;
      while i < MAXVARS && tab[i].str.Some?
        invariant i <= used && n == |EnvironUpTo(t, i)|
      {
        if tab[i].global {
          n := n + 1;
        }
        i := i + 1;
      }
      envtab := new Option<string>[n + 1](_ => None);
      FillEnviron(envtab, n);
    }

    /** What execve reads from that array: the strings before the NULL. */
    method EnvironStrings() returns (env: seq<string>)
      requires Valid()
      ensures env == Environ(Contents())
    {
      var envtab := VLtable2environ();
      env := [];
      for k := 0 to envtab.Length - 1
        invariant env == Environ(Contents())[..k]
      {
        env := env + [envtab[k].value];
      }
    }

    /** The filling pass. */
    method FillEnviron(envtab: array<Option<string>>, ghost n: nat)
      requires Valid() && n == |Environ(Contents())| && envtab.Length == n + 1
      modifies envtab
      ensures forall k :: 0 <= k < n ==> envtab[k] == Some(Environ(Contents())[k])
      ensures envtab[n] == None
    {
      ghost var t := Contents();
      var i, j := 0, 0;
      while i < MAXVARS && tab[i].str.Some?
        invariant i <= used && j == |EnvironUpTo(t, i)| <= n == |EnvironUpTo(t, used)| && envtab.Length == n + 1
        invariant forall k :: 0 <= k < j ==> envtab[k] == Some(EnvironUpTo(t, i)[k])
      {
        EnvironGrows(t, i + 1);
        if tab[i].global {
          envtab[j] := tab[i].str;
          j := j + 1;
        }
        i := i + 1;
      }
      envtab[j] := None;
    }
  }

  lemma {:induction false} EnvironGrows(t: Table, k: nat)
    requires k <= |t|
    ensures |EnvironUpTo(t, k)| <= |EnvironUpTo(t, |t|)|
    decreases |t| - k
  {
    if k < |t| {
      EnvironGrows(t, k + 1);
    }
  }
}
