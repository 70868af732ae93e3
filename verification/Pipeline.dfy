/**
 The n-command pipeline builder: all pipes are opened first, then a chain of forks in which each
 parent redirects its standard input and runs the last command left, while its child redirects its
 standard output and goes on.  Commands are numbered from 0; pipe i lies between the processes at
 fork depth i (reader) and i + 1 (writer).
 */
module Pipeline {
  /** What a descriptor refers to: something inherited, or an end of pipe i. */
  datatype End = Inherited(id: int) | ReadEnd(pipe: nat) | WriteEnd(pipe: nat)

  type Table = map<nat, End>

  /** A process's descriptor table and the system calls that change it. */
  class Process {
    var fds: Table

    constructor (fds: Table)
      ensures this.fds == fds
    {
      this.fds := fds;
    }

    method Close(fd: nat)
      modifies this
      ensures fds == old(fds) - {fd}
    {
      fds := fds - {fd};
    }

    method Dup2(from: nat, to: nat)
      requires from in fds
      modifies this
      ensures fds == old(fds)[to := old(fds)[from]]
    {
      fds := fds[to := fds[from]];
    }

    /** The two ends of a new pipe on two unused descriptors. */
    method Pipe(pipe: nat, rd: nat, wr: nat)
      requires rd !in fds && wr !in fds && rd != wr
      modifies this
      ensures fds == old(fds)[rd := ReadEnd(pipe)][wr := WriteEnd(pipe)]
    {
      fds := fds[rd := ReadEnd(pipe)][wr := WriteEnd(pipe)];
    }

    /** The child starts with a copy of the table. */
    method Fork() returns (child: Process)
      ensures fresh(child) && child.fds == fds
    {
      child := new Process(fds);
    }
  }

  /** A process at its execlp: which command it becomes, with which descriptors. */
  datatype Exec = Exec(command: nat, fds: Table)

  /** Standard input and output are open, and the descriptors that pipe() will return, one pair a pipe,
      are unused and distinct. */
  predicate GoodStart(start: Table, pairs: seq<(nat, nat)>) {
    && 0 in start && 1 in start
    && (forall fd :: fd in start ==> start[fd].Inherited?)
    && (forall i :: 0 <= i < |pairs| ==> pairs[i].0 !in start && pairs[i].1 !in start && pairs[i].0 != pairs[i].1)
    && (forall i, j :: 0 <= i < j < |pairs| ==>
          && pairs[i].0 != pairs[j].0 && pairs[i].0 != pairs[j].1
          && pairs[i].1 != pairs[j].0 && pairs[i].1 != pairs[j].1)
  }

  // ---- what a process of the chain holds ----------------------------------------------

  predicate BothEnds(t: Table, pairs: seq<(nat, nat)>, j: nat)
    requires j < |pairs|
  {
    && pairs[j].0 in t && t[pairs[j].0] == ReadEnd(j)
    && pairs[j].1 in t && t[pairs[j].1] == WriteEnd(j)
  }

  /** fd is one of the descriptors of pipe number from, from + 1, …, to - 1. */
  predicate IsPipeFd(pairs: seq<(nat, nat)>, from: nat, to: nat, fd: nat)
    requires to <= |pairs|
  {
    exists j :: from <= j < to && (fd == pairs[j].0 || fd == pairs[j].1)
  }

  /** The table, exactly: the given standard input and output, everything else that was inherited, and
      both ends of the pipes from number `from` up to, not including, number `to`. */
  ghost predicate Holds(t: Table, start: Table, pairs: seq<(nat, nat)>, stdin: End, stdout: End, from: nat, to: nat) {
    && to <= |pairs|
    && 0 in t && t[0] == stdin && 1 in t && t[1] == stdout
    && (forall fd :: fd in start && fd > 1 ==> fd in t && t[fd] == start[fd])
    && (forall j :: from <= j < to ==> BothEnds(t, pairs, j))
    && (forall fd :: fd in t ==> fd in start || IsPipeFd(pairs, from, to, fd))
  }

  function StdoutAt(start: Table, i: nat): End
    requires 1 in start
  {
    if i == 0 then start[1] else WriteEnd(i - 1)
  }

  function StdinAt(start: Table, n: nat, i: nat): End
    requires 0 in start
  {
    if i + 1 == n then start[0] else ReadEnd(i)
  }

  /** The process at fork depth i as it runs its command: standard input and output on the pipes beside
      it (the originals at the two ends), and both ends of all later pipes. */
  ghost predicate RunsWith(t: Table, start: Table, pairs: seq<(nat, nat)>, i: nat)
    requires 0 in start && 1 in start
  {
    Holds(t, start, pairs, StdinAt(start, |pairs| + 1, i), StdoutAt(start, i), i + 1, |pairs|)
  }

  // ---- main ---------------------------------------------------------------------------

  lemma PipeHolds(t: Table, start: Table, pairs: seq<(nat, nat)>, i: nat)
    requires GoodStart(start, pairs) && i < |pairs| && Holds(t, start, pairs, start[0], start[1], 0, i)
    ensures pairs[i].0 !in t && pairs[i].1 !in t
    ensures Holds(t[pairs[i].0 := ReadEnd(i)][pairs[i].1 := WriteEnd(i)], start, pairs, start[0], start[1], 0, i + 1)
  {
    var u := t[pairs[i].0 := ReadEnd(i)][pairs[i].1 := WriteEnd(i)];
    forall fd | fd == pairs[i].0 || fd == pairs[i].1 ensures fd !in start && !IsPipeFd(pairs, 0, i, fd) {
    }
    forall j | 0 <= j < i ensures BothEnds(u, pairs, j) {
      assert BothEnds(t, pairs, j);
    }
    forall fd | fd in u ensures fd in start || IsPipeFd(pairs, 0, i + 1, fd) {
      if fd in t && fd !in start {
        var j :| 0 <= j < i && (fd == pairs[j].0 || fd == pairs[j].1);
        assert fd == pairs[j].0 || fd == pairs[j].1;
      } else if fd !in start {
        assert fd == pairs[i].0 || fd == pairs[i].1;
      }
    }
  }

  /** The table u is t without the two descriptors of pipe i, and with new standard input and output. */
  ghost predicate Narrowed(t: Table, u: Table, pairs: seq<(nat, nat)>, stdin: End, stdout: End, i: nat)
    requires i < |pairs|
  {
    && u.Keys == t.Keys - {pairs[i].0, pairs[i].1}
    && forall fd :: fd in u ==> u[fd] == if fd == 0 then stdin else if fd == 1 then stdout else t[fd]
  }

  /** The ends of later pipes are still there. */
  lemma LaterPipesStay(t: Table, u: Table, start: Table, pairs: seq<(nat, nat)>, stdin: End, stdout: End,
                       i: nat, j: nat)
    requires GoodStart(start, pairs) && i < j < |pairs| && Narrowed(t, u, pairs, stdin, stdout, i)
    requires BothEnds(t, pairs, j)
    ensures BothEnds(u, pairs, j)
  {
  }

  /** What was inherited is still there. */
  lemma InheritedStay(t: Table, u: Table, start: Table, pairs: seq<(nat, nat)>, stdin: End, stdout: End,
                      i: nat, fd: nat)
    requires GoodStart(start, pairs) && i < |pairs| && Narrowed(t, u, pairs, stdin, stdout, i)
    requires fd in start && fd in t
    ensures fd in u && u[fd] == if fd == 0 then stdin else if fd == 1 then stdout else t[fd]
  {
  }

  /** Nothing is left of pipe i. */
  lemma PipeIsGone(t: Table, u: Table, pairs: seq<(nat, nat)>, stdin: End, stdout: End, i: nat, fd: nat)
    requires i < |pairs| && Narrowed(t, u, pairs, stdin, stdout, i)
    requires fd in u && IsPipeFd(pairs, i, |pairs|, fd)
    ensures IsPipeFd(pairs, i + 1, |pairs|, fd)
  {
    var j :| i <= j < |pairs| && (fd == pairs[j].0 || fd == pairs[j].1);
    assert j != i;
  }

  /** After losing both descriptors of its first pipe. */
  lemma Narrow(t: Table, u: Table, start: Table, pairs: seq<(nat, nat)>, stdin: End, stdout: End, i: nat)
    requires GoodStart(start, pairs) && i < |pairs|
    requires Holds(t, start, pairs, start[0], StdoutAt(start, i), i, |pairs|)
    requires Narrowed(t, u, pairs, stdin, stdout, i)
    ensures Holds(u, start, pairs, stdin, stdout, i + 1, |pairs|)
  {
    forall fd | fd in start ensures fd in u && u[fd] == if fd == 0 then stdin else if fd == 1 then stdout else t[fd] {
      assert fd in t;
      InheritedStay(t, u, start, pairs, stdin, stdout, i, fd);
    }
    forall j | i + 1 <= j < |pairs| ensures BothEnds(u, pairs, j) {
      LaterPipesStay(t, u, start, pairs, stdin, stdout, i, j);
    }
    forall fd | fd in u ensures fd in start || IsPipeFd(pairs, i + 1, |pairs|, fd) {
      if fd !in start {
        PipeIsGone(t, u, pairs, stdin, stdout, i, fd);
      }
    }
  }

  /** Opens the pipes. */
  method OpenPipes(p: Process, start: Table, pairs: seq<(nat, nat)>)
    requires GoodStart(start, pairs) && p.fds == start
    modifies p
    ensures Holds(p.fds, start, pairs, start[0], start[1], 0, |pairs|)
  {
    for i := 0 to |pairs|
      invariant Holds(p.fds, start, pairs, start[0], start[1], 0, i)
    {
      PipeHolds(p.fds, start, pairs, i);
      p.Pipe(i, pairs[i].0, pairs[i].1);
    }
  }

  /** The parent's side of fork number i: it reads from pipe i. */
  method BecomeReader(p: Process, ghost start: Table, pairs: seq<(nat, nat)>, i: nat)
    requires GoodStart(start, pairs) && i < |pairs|
    requires Holds(p.fds, start, pairs, start[0], StdoutAt(start, i), i, |pairs|)
    modifies p
    ensures RunsWith(p.fds, start, pairs, i)
  {
    ghost var t := p.fds;
    assert BothEnds(t, pairs, i);
    p.Close(pairs[i].1);
    p.Dup2(pairs[i].0, 0);
    p.Close(pairs[i].0);
    Narrow(t, p.fds, start, pairs, ReadEnd(i), StdoutAt(start, i), i);
  }

  /** The child's side: it writes to pipe i. */
  method BecomeWriter(p: Process, ghost start: Table, pairs: seq<(nat, nat)>, i: nat)
    requires GoodStart(start, pairs) && i < |pairs|
    requires Holds(p.fds, start, pairs, start[0], StdoutAt(start, i), i, |pairs|)
    modifies p
    ensures Holds(p.fds, start, pairs, start[0], StdoutAt(start, i + 1), i + 1, |pairs|)
  {
    ghost var t := p.fds;
    assert BothEnds(t, pairs, i);
    p.Close(pairs[i].0);
    p.Dup2(pairs[i].1, 1);
    p.Close(pairs[i].1);
    Narrow(t, p.fds, start, pairs, start[0], WriteEnd(i), i);
  }

  /** `n` commands, with n - 1 pipes.  Every fork and dup2 succeeds.  The result lists the processes by
      fork depth. */
  method RunPipeline(n: nat, start: Table, pairs: seq<(nat, nat)>) returns (execs: seq<Exec>)
    requires n >= 1 && |pairs| == n - 1 && GoodStart(start, pairs)
    ensures |execs| == n
    ensures forall i :: 0 <= i < n ==> execs[i].command == n - 1 - i && RunsWith(execs[i].fds, start, pairs, i)
  {
    var p := new Process(start);
    OpenPipes(p, start, pairs);
    execs := [];
    for i := 0 to n - 1
      invariant fresh(p) && |execs| == i && Holds(p.fds, start, pairs, start[0], StdoutAt(start, i), i, n - 1)
      invariant forall j :: 0 <= j < i ==> execs[j].command == n - 1 - j && RunsWith(execs[j].fds, start, pairs, j)
    {
      var child := p.Fork();
      BecomeReader(p, start, pairs, i);
      execs := execs + [Exec(n - 1 - i, p.fds)];
      BecomeWriter(child, start, pairs, i);
      p := child;
    }
    execs := execs + [Exec(0, p.fds)];
  }

  // ---- what the pipeline amounts to ---------------------------------------------------

  /** Every command is run by exactly one process; each reads from the pipe its predecessor writes to;
      the first reads the original standard input and the last writes the original standard output. */
  lemma PipelineConnects(execs: seq<Exec>, n: nat, start: Table, pairs: seq<(nat, nat)>, command: nat)
    requires n >= 1 && |pairs| == n - 1 && GoodStart(start, pairs) && |execs| == n
    requires forall i :: 0 <= i < n ==> execs[i].command == n - 1 - i && RunsWith(execs[i].fds, start, pairs, i)
    requires command < n
    ensures exists i :: 0 <= i < n && execs[i].command == command
    ensures forall i, j :: 0 <= i < n && 0 <= j < n && execs[i].command == execs[j].command ==> i == j
    ensures forall i :: 0 <= i < n && execs[i].command == command ==>
              && 0 in execs[i].fds && 1 in execs[i].fds
              && (command == 0 ==> execs[i].fds[0] == start[0])
              && (command == n - 1 ==> execs[i].fds[1] == start[1])
              && (command + 1 < n ==> i > 0 && execs[i - 1].command == command + 1
                                      && execs[i].fds[1] == WriteEnd(i - 1) && 0 in execs[i - 1].fds
                                      && execs[i - 1].fds[0] == ReadEnd(i - 1))
  {
    assert execs[n - 1 - command].command == command;
  }

  /** The descriptors on which a process holds an end of pipe j. */
  function FdsOf(t: Table, j: nat): set<nat> { set fd | fd in t && t[fd] in {ReadEnd(j), WriteEnd(j)} }

  lemma FdMeans(t: Table, start: Table, pairs: seq<(nat, nat)>, i: nat, fd: nat)
    requires GoodStart(start, pairs) && i <= |pairs| && RunsWith(t, start, pairs, i) && fd in t && fd > 1
    ensures t[fd].Inherited? ||
            exists j :: i < j < |pairs| && (fd, t[fd]) in {(pairs[j].0, ReadEnd(j)), (pairs[j].1, WriteEnd(j))}
  {
    if fd in start {
      assert t[fd] == start[fd];
    } else {
      var j :| i + 1 <= j < |pairs| && (fd == pairs[j].0 || fd == pairs[j].1);
      assert BothEnds(t, pairs, j);
    }
  }

  /** The census of pipe j in the process at depth i, exactly: nothing of the pipes behind it except its
      standard output, only its standard input of its own pipe, both ends of all later pipes. */
  lemma Census(t: Table, start: Table, pairs: seq<(nat, nat)>, i: nat, j: nat)
    requires i <= |pairs| && j < |pairs| && GoodStart(start, pairs) && RunsWith(t, start, pairs, i)
    ensures FdsOf(t, j) == if j + 1 < i then {} else if j + 1 == i then {1} else if j == i then {0}
                           else {pairs[j].0, pairs[j].1}
    ensures (j + 1 == i ==> t[1] == WriteEnd(j)) && (j == i ==> t[0] == ReadEnd(j)) && (j > i ==> BothEnds(t, pairs, j))
  {
    assert start[0].Inherited? && start[1].Inherited?;
    forall fd | fd in FdsOf(t, j) && fd > 1 ensures j > i && fd in {pairs[j].0, pairs[j].1} {
      FdMeans(t, start, pairs, i, fd);
    }
    assert j > i ==> BothEnds(t, pairs, j);
  }

  /** A reader can see the end of its input only if its writer alone holds the write end.  That is so
      for pipe 0, the last of the line, and for no other: from three commands on, processes further
      down keep the write ends of the pipes before them. */
  lemma WriterIsAloneIff(tables: seq<Table>, start: Table, pairs: seq<(nat, nat)>, j: nat)
    requires j < |pairs| && GoodStart(start, pairs) && |tables| == |pairs| + 1
    requires forall i :: 0 <= i <= |pairs| ==> RunsWith(tables[i], start, pairs, i)
    ensures (forall i :: 0 <= i <= |pairs| && WriteEnd(j) in tables[i].Values ==> i == j + 1) <==> j == 0
  {
    forall i | 0 <= i <= |pairs| ensures WriteEnd(j) in tables[i].Values <==> i == j + 1 || i < j {
      Census(tables[i], start, pairs, i, j);
      if WriteEnd(j) in tables[i].Values {
        var fd :| fd in tables[i] && tables[i][fd] == WriteEnd(j);
        assert fd in FdsOf(tables[i], j);
      }
    }
    if j > 0 {
      assert WriteEnd(j) in tables[0].Values;
    }
  }
}
